/** The gate between planning and dispatch. */
module PlanGate {

  datatype Condition =
    | ObjectiveSummarized | ArchitectureDrafted | MilestoneTreeCreated | AcceptanceCriteriaDefined
    | DependenciesAcyclic | DependenciesResolved | InvariantsExtracted | InvariantsHolding
    | RisksIdentified | QuestionsBelowBudget

  datatype Eval = NotEvaluated | Pass | Fail

  datatype Entry = Entry(condition: Condition, eval: Eval)

  datatype Status = Open | Satisfied | Overridden

  datatype Gate = Gate(entries: seq<Entry>, status: Status, questionBudget: int, questionCount: int)

  datatype Severity = Error | Warning

  datatype Finding = Finding(condition: Condition, severity: Severity)

  function FindingsOf(entries: seq<Entry>): seq<Finding> {
    if entries == [] then []
    else
      var rest := FindingsOf(entries[..|entries| - 1]);
      var e := entries[|entries| - 1];
      match e.eval
      case Pass => rest
      case Fail => rest + [Finding(e.condition, Error)]
      case NotEvaluated => rest + [Finding(e.condition, Warning)]
  }

  function Findings(gate: Gate): seq<Finding> {
    var found := FindingsOf(gate.entries);
    if gate.questionCount > gate.questionBudget && !(exists f <- found :: f.condition == QuestionsBelowBudget)
    then found + [Finding(QuestionsBelowBudget, Error)]
    else found
  }

  method ValidatePlan(gate: Gate) returns (failures: seq<Finding>)
    ensures failures == Findings(gate)
  {
    failures := [];
    for i := 0 to |gate.entries|
      invariant failures == FindingsOf(gate.entries[..i])
    {
      assert gate.entries[..i + 1][..i] == gate.entries[..i];
      var entry := gate.entries[i];
      match entry.eval
      case Pass =>
      case Fail => failures := failures + [Finding(entry.condition, Error)];
      case NotEvaluated => failures := failures + [Finding(entry.condition, Warning)];
    }
    assert gate.entries[..|gate.entries|] == gate.entries;
    if gate.questionCount > gate.questionBudget {
      var alreadyReported := exists f <- failures :: f.condition == QuestionsBelowBudget;
      if !alreadyReported {
        failures := failures + [Finding(QuestionsBelowBudget, Error)];
      }
    }
  }

  predicate HasEntry(gate: Gate, condition: Condition, eval: Eval) {
    Entry(condition, eval) in gate.entries
  }

  /** The eight sub-scores. */
  function Checks(gate: Gate): seq<bool> {
    [
      HasEntry(gate, ObjectiveSummarized, Pass),
      HasEntry(gate, ArchitectureDrafted, Pass),
      HasEntry(gate, MilestoneTreeCreated, Pass),
      HasEntry(gate, DependenciesAcyclic, Pass) && HasEntry(gate, DependenciesResolved, Pass),
      HasEntry(gate, AcceptanceCriteriaDefined, Pass),
      HasEntry(gate, InvariantsExtracted, Pass) && HasEntry(gate, InvariantsHolding, Pass),
      HasEntry(gate, RisksIdentified, Pass),
      HasEntry(gate, QuestionsBelowBudget, Pass)
    ]
  }

  function CountTrue(checks: seq<bool>): (n: nat)
    ensures n <= |checks|
  {
    if checks == [] then 0 else CountTrue(checks[1..]) + if checks[0] then 1 else 0
  }

  function Completeness(gate: Gate): real {
    CountTrue(Checks(gate)) as real / 8.0
  }

  predicate Blocked(findings: seq<Finding>) {
    exists f <- findings :: f.severity == Error
  }

  predicate DispatchAllowed(gate: Gate) {
    match gate.status
    case Satisfied => !Blocked(Findings(gate))
    case Overridden => true
    case Open => false
  }

  lemma {:induction false} FindingsCome(entries: seq<Entry>, f: Finding)
    ensures f in FindingsOf(entries) <==>
            exists e <- entries ::
              e.condition == f.condition && e.eval == if f.severity == Error then Fail else NotEvaluated
  {
    if entries == [] {
    } else {
      var rest, last := entries[..|entries| - 1], entries[|entries| - 1];
      FindingsCome(rest, f);
      assert last in entries && forall e <- rest :: e in entries;
      assert forall e <- entries :: e in rest || e == last;
    }
  }

  lemma ErrorsAreFails(entries: seq<Entry>)
    ensures Blocked(FindingsOf(entries)) <==> exists e <- entries :: e.eval == Fail
  {
    var found := FindingsOf(entries);
    if Blocked(found) {
      var f :| f in found && f.severity == Error;
      FindingsCome(entries, f);
    }
    forall e <- entries | e.eval == Fail ensures Blocked(found) {
      var f := Finding(e.condition, Error);
      FindingsCome(entries, f);
      assert f in found;
    }
  }

  lemma BudgetReported(gate: Gate)
    ensures (exists f <- FindingsOf(gate.entries) :: f.condition == QuestionsBelowBudget) <==>
            HasEntry(gate, QuestionsBelowBudget, Fail) || HasEntry(gate, QuestionsBelowBudget, NotEvaluated)
  {
    var found := FindingsOf(gate.entries);
    var error, warning := Finding(QuestionsBelowBudget, Error), Finding(QuestionsBelowBudget, Warning);
    FindingsCome(gate.entries, error);
    FindingsCome(gate.entries, warning);
    forall f: Finding | f.condition == QuestionsBelowBudget ensures f == error || f == warning {
      match f.severity case Error => case Warning =>
    }
    assert error in found <==> HasEntry(gate, QuestionsBelowBudget, Fail);
    assert warning in found <==> HasEntry(gate, QuestionsBelowBudget, NotEvaluated);
  }

  /** Main result: a satisfied gate opens exactly when no condition failed and
      the questions are within budget; but a budget entry that has not been
      evaluated silences the count. */
  lemma SatisfiedAllows(gate: Gate)
    requires gate.status == Satisfied
    ensures DispatchAllowed(gate) <==>
            (forall e <- gate.entries :: e.eval != Fail)
            && (gate.questionCount <= gate.questionBudget || HasEntry(gate, QuestionsBelowBudget, NotEvaluated))
  {
    var found := FindingsOf(gate.entries);
    var extra := Finding(QuestionsBelowBudget, Error);
    ErrorsAreFails(gate.entries);
    BudgetReported(gate);
    if Findings(gate) != found {
      assert extra in Findings(gate);
    }
  }

  /** All ten conditions are there once, and evaluated. */
  ghost predicate FullyEvaluated(gate: Gate) {
    && (forall c: Condition :: HasEntry(gate, c, Pass) || HasEntry(gate, c, Fail))
    && (forall c: Condition :: !(HasEntry(gate, c, Pass) && HasEntry(gate, c, Fail)))
    && (forall e <- gate.entries :: e.eval != NotEvaluated)
  }

  lemma {:induction false} CountsAll(checks: seq<bool>)
    ensures CountTrue(checks) == |checks| <==> forall i | 0 <= i < |checks| :: checks[i]
  {
    if checks == [] {
    } else {
      CountsAll(checks[1..]);
      assert forall i | 0 < i < |checks| :: checks[i] == checks[1..][i - 1];
      assert forall i | 0 <= i < |checks| - 1 :: checks[1..][i] == checks[i + 1];
    }
  }

  lemma CompleteIsAllPass(gate: Gate)
    ensures Completeness(gate) == 1.0 <==> forall c: Condition :: HasEntry(gate, c, Pass)
  {
    var checks := Checks(gate);
    CountsAll(checks);
    assert Completeness(gate) == 1.0 <==> CountTrue(checks) == 8;
    if CountTrue(checks) == 8 {
      assert checks[0] && checks[1] && checks[2] && checks[3] && checks[4] && checks[5] && checks[6] && checks[7];
      forall c: Condition ensures HasEntry(gate, c, Pass) {
        match c
        case ObjectiveSummarized =>
        case _ =>
      }
    }
    if forall c: Condition :: HasEntry(gate, c, Pass) {
      assert checks == [true, true, true, true, true, true, true, true];
    }
  }

  /** On a fully evaluated gate the two notions of readiness coincide. */
  lemma GateIsCompleteness(gate: Gate)
    requires gate.status == Satisfied && FullyEvaluated(gate)
    ensures DispatchAllowed(gate) <==> Completeness(gate) == 1.0 && gate.questionCount <= gate.questionBudget
  {
    SatisfiedAllows(gate);
    CompleteIsAllPass(gate);
    forall e <- gate.entries ensures HasEntry(gate, e.condition, e.eval) { }
  }

  /** One question too many, and a gate that opens all the same: its budget entry
      has not been evaluated. */
  lemma CountSilenced()
    ensures DispatchAllowed(Gate([Entry(QuestionsBelowBudget, NotEvaluated)], Satisfied, 0, 1))
    ensures !DispatchAllowed(Gate([], Satisfied, 0, 1))
  {
    var silenced := Gate([Entry(QuestionsBelowBudget, NotEvaluated)], Satisfied, 0, 1);
    assert silenced.entries[0] in silenced.entries;
    SatisfiedAllows(silenced);
    SatisfiedAllows(Gate([], Satisfied, 0, 1));
  }

  // The decision

  datatype Decision = Decision(allowed: bool, status: Status, blocking: seq<Finding>, completeness: real)

  function Errors(findings: seq<Finding>): seq<Finding> {
    if findings == [] then []
    else
      var rest := Errors(findings[..|findings| - 1]);
      if findings[|findings| - 1].severity == Error then rest + [findings[|findings| - 1]] else rest
  }

  function CheckDispatchGate(gate: Gate): Decision {
    Decision(DispatchAllowed(gate), gate.status, Errors(Findings(gate)), Completeness(gate))
  }

  lemma {:induction false} ErrorsAre(findings: seq<Finding>, f: Finding)
    ensures f in Errors(findings) <==> f in findings && f.severity == Error
  {
    if findings == [] {
    } else {
      ErrorsAre(findings[..|findings| - 1], f);
    }
  }

  /** An overridden gate opens whatever was found, an open one never, and a
      satisfied one exactly when nothing is left in the way. */
  lemma DecisionLaw(gate: Gate)
    ensures var d := CheckDispatchGate(gate);
            && (d.allowed <==> gate.status == Overridden || (gate.status == Satisfied && d.blocking == []))
            && d.status == gate.status
            && (forall f: Finding :: f in d.blocking <==> f in Findings(gate) && f.severity == Error)
  {
    forall f: Finding ensures f in Errors(Findings(gate)) <==> f in Findings(gate) && f.severity == Error {
      ErrorsAre(Findings(gate), f);
    }
    if Errors(Findings(gate)) != [] {
      assert Errors(Findings(gate))[0] in Errors(Findings(gate));
    }
  }

  /** Entry by entry, in order: a failure is an error, an unevaluated condition a
      warning, a pass nothing. */
  lemma {:induction false} FindingsInOrder(a: seq<Entry>, b: seq<Entry>, c: Condition)
    ensures FindingsOf(a + b) == FindingsOf(a) + FindingsOf(b)
    ensures FindingsOf([Entry(c, Fail)]) == [Finding(c, Error)]
    ensures FindingsOf([Entry(c, NotEvaluated)]) == [Finding(c, Warning)]
    ensures FindingsOf([Entry(c, Pass)]) == []
  {
    assert [Entry(c, Fail)][..0] == [] && [Entry(c, NotEvaluated)][..0] == [] && [Entry(c, Pass)][..0] == [];
    if b == [] {
      assert a + b == a;
    } else {
      assert (a + b)[..|a + b| - 1] == a + b[..|b| - 1];
      FindingsInOrder(a, b[..|b| - 1], c);
    }
  }

  /** The question count is reported last, exactly when it is over budget and its
      entry has not been reported. */
  lemma QuestionsReported(gate: Gate)
    ensures var reported := exists e <- gate.entries :: e.condition == QuestionsBelowBudget && e.eval != Pass;
            Findings(gate) == FindingsOf(gate.entries) +
              if gate.questionCount > gate.questionBudget && !reported
              then [Finding(QuestionsBelowBudget, Error)] else []
  {
    BudgetReported(gate);
    assert (exists e <- gate.entries :: e.condition == QuestionsBelowBudget && e.eval != Pass) <==>
           HasEntry(gate, QuestionsBelowBudget, Fail) || HasEntry(gate, QuestionsBelowBudget, NotEvaluated) by {
      forall e <- gate.entries | e.condition == QuestionsBelowBudget && e.eval != Pass
        ensures HasEntry(gate, QuestionsBelowBudget, Fail) || HasEntry(gate, QuestionsBelowBudget, NotEvaluated)
      {
        assert e == Entry(QuestionsBelowBudget, e.eval);
      }
    }
  }

  /** The other condition of a pair that is scored together. */
  function Partner(c: Condition): Condition {
    match c
    case DependenciesAcyclic => DependenciesResolved
    case DependenciesResolved => DependenciesAcyclic
    case InvariantsExtracted => InvariantsHolding
    case InvariantsHolding => InvariantsExtracted
    case _ => c
  }

  lemma {:induction false} CountOne(checks: seq<bool>, k: nat)
    requires k < |checks| && checks[k] && forall i | 0 <= i < |checks| && i != k :: !checks[i]
    ensures CountTrue(checks) == 1
  {
    if k == 0 {
      CountZero(checks[1..]);
    } else {
      CountOne(checks[1..], k - 1);
    }
  }

  lemma {:induction false} CountZero(checks: seq<bool>)
    requires forall i | 0 <= i < |checks| :: !checks[i]
    ensures CountTrue(checks) == 0
  {
    if checks == [] {
    } else {
      CountZero(checks[1..]);
    }
  }

  /** One condition passed scores an eighth, or nothing while its partner is
      missing; the pair together scores an eighth. */
  lemma OneEighth(c: Condition, gate: Gate)
    requires forall d: Condition :: HasEntry(gate, d, Pass) <==> d == c || d == Partner(c)
    ensures Completeness(gate) == 0.125
  {
    var k := match c
      case ObjectiveSummarized => 0
      case ArchitectureDrafted => 1
      case MilestoneTreeCreated => 2
      case DependenciesAcyclic => 3
      case DependenciesResolved => 3
      case AcceptanceCriteriaDefined => 4
      case InvariantsExtracted => 5
      case InvariantsHolding => 5
      case RisksIdentified => 6
      case QuestionsBelowBudget => 7;
    CountOne(Checks(gate), k);
  }

  lemma HalfOfAPair(c: Condition, gate: Gate)
    requires Partner(c) != c && forall d: Condition :: HasEntry(gate, d, Pass) <==> d == c
    ensures Completeness(gate) == 0.0
  {
    CountZero(Checks(gate));
  }
}
