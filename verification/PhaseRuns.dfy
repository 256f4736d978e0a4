/** Every legal way through the phases of a cycle. */
module PhaseRuns {
  import opened ControlPlane

  datatype Rule = Rule(from: CyclePhase, to: CyclePhase)

  function ValidPhaseTransitions(): seq<Rule> {
    [
      Rule(Intake, ConversationExtraction),
      Rule(ConversationExtraction, PlanElaboration),
      Rule(PlanElaboration, PlanValidation),
      Rule(PlanValidation, Review),
      Rule(Review, Decomposition),
      Rule(Review, PlanElaboration),
      Rule(Decomposition, Dispatch),
      Rule(Dispatch, Execution),
      Rule(Execution, Integration),
      Rule(Integration, CertificationSelection),
      Rule(CertificationSelection, Certification),
      Rule(Certification, StateUpdate),
      Rule(Certification, Execution),
      Rule(StateUpdate, NextCycleReady)
    ]
  }

  predicate IsValidPhaseTransition(from: CyclePhase, to: CyclePhase) {
    exists r <- ValidPhaseTransitions() :: r.from == from && r.to == to
  }

  /** Place of a phase in the pipeline. */
  function Rank(p: CyclePhase): nat {
    match p
    case Intake => 0
    case ConversationExtraction => 1
    case PlanElaboration => 2
    case PlanValidation => 3
    case Review => 4
    case Decomposition => 5
    case Dispatch => 6
    case Execution => 7
    case Integration => 8
    case CertificationSelection => 9
    case Certification => 10
    case StateUpdate => 11
    case NextCycleReady => 12
  }

  /** The pipeline in order. */
  const PIPELINE: seq<CyclePhase> := [
    Intake, ConversationExtraction, PlanElaboration, PlanValidation, Review, Decomposition, Dispatch, Execution,
    Integration, CertificationSelection, Certification, StateUpdate, NextCycleReady
  ]

  lemma RankIsPlace(p: CyclePhase)
    ensures Rank(p) < 13 && PIPELINE[Rank(p)] == p
  {
  }

  predicate SendBack(from: CyclePhase, to: CyclePhase) {
    from == Review && to == PlanElaboration
  }

  predicate CertificationFailure(from: CyclePhase, to: CyclePhase) {
    from == Certification && to == Execution
  }

  predicate Shape(from: CyclePhase, to: CyclePhase) {
    Rank(to) == Rank(from) + 1 || SendBack(from, to) || CertificationFailure(from, to)
  }

  lemma RulesHaveShape()
    ensures forall i | 0 <= i < |ValidPhaseTransitions()| ::
      Shape(ValidPhaseTransitions()[i].from, ValidPhaseTransitions()[i].to)
  {
  }

  lemma ShapeHasRule(from: CyclePhase, to: CyclePhase)
    requires Shape(from, to)
    ensures Rule(from, to) in ValidPhaseTransitions()
  {
    var i :=
      if SendBack(from, to) then 5
      else if CertificationFailure(from, to) then 12
      else if Rank(from) < 5 then Rank(from)
      else if from == StateUpdate then 13
      else Rank(from) + 1;
    assert ValidPhaseTransitions()[i] == Rule(from, to);
  }

  lemma InTable(rules: seq<Rule>, from: CyclePhase, to: CyclePhase)
    requires forall i | 0 <= i < |rules| :: Shape(rules[i].from, rules[i].to)
    requires Shape(from, to) ==> Rule(from, to) in rules
    ensures (exists r <- rules :: r.from == from && r.to == to) <==> Shape(from, to)
  {
  }

  /** The table is exactly: one place forward, or one of the two ways back. */
  lemma TransitionShape(from: CyclePhase, to: CyclePhase)
    ensures IsValidPhaseTransition(from, to) <==> Shape(from, to)
  {
    RulesHaveShape();
    if Shape(from, to) {
      ShapeHasRule(from, to);
    }
    InTable(ValidPhaseTransitions(), from, to);
  }

  predicate LegalStep(run: seq<CyclePhase>, i: nat)
    requires 0 < i < |run|
  {
    IsValidPhaseTransition(run[i - 1], run[i])
  }

  /** The phases of a run, first to last, each step allowed by the table. */
  predicate LegalRun(run: seq<CyclePhase>) {
    run != [] && run[0] == Intake && forall i | 0 < i < |run| :: LegalStep(run, i)
  }

  function CountSteps(run: seq<CyclePhase>, step: (CyclePhase, CyclePhase) -> bool): nat {
    if |run| < 2 then 0
    else CountSteps(run[..|run| - 1], step) + if step(run[|run| - 2], run[|run| - 1]) then 1 else 0
  }

  function Visits(run: seq<CyclePhase>, p: CyclePhase): nat {
    if run == [] then 0 else Visits(run[..|run| - 1], p) + if run[|run| - 1] == p then 1 else 0
  }

  lemma LegalPrefix(run: seq<CyclePhase>, n: nat)
    requires LegalRun(run) && 0 < n <= |run|
    ensures LegalRun(run[..n])
  {
    forall i | 0 < i < n ensures LegalStep(run[..n], i) {
      assert LegalStep(run, i);
    }
  }

  lemma StepShape(run: seq<CyclePhase>, i: nat)
    requires LegalRun(run) && 0 < i < |run|
    ensures Shape(run[i - 1], run[i])
  {
    assert LegalStep(run, i);
    TransitionShape(run[i - 1], run[i]);
  }

  /** The last step of a run that has one. */
  lemma LastStep(run: seq<CyclePhase>)
    requires LegalRun(run) && |run| > 1
    ensures LegalRun(run[..|run| - 1]) && Shape(run[|run| - 2], run[|run| - 1])
  {
    LegalPrefix(run, |run| - 1);
    StepShape(run, |run| - 1);
  }

  /** Each send-back costs three steps and each certification failure four. */
  lemma {:induction false} StepsTaken(run: seq<CyclePhase>)
    requires LegalRun(run)
    ensures |run| - 1 ==
            Rank(run[|run| - 1]) + 3 * CountSteps(run, SendBack) + 4 * CountSteps(run, CertificationFailure)
  {
    if |run| > 1 {
      LastStep(run);
      StepsTaken(run[..|run| - 1]);
    }
  }

  /** Phases up to the present one have all been visited, and Dispatch exactly
      once if the run is at or past it, since no way back leads before it. */
  lemma {:induction false} VisitedSoFar(run: seq<CyclePhase>)
    requires LegalRun(run)
    ensures forall p: CyclePhase | Rank(p) <= Rank(run[|run| - 1]) :: p in run
    ensures Visits(run, Dispatch) == (if Rank(run[|run| - 1]) >= Rank(Dispatch) then 1 else 0)
  {
    if |run| == 1 {
      assert run[..0] == [];
    } else {
      var rest, last := run[..|run| - 1], run[|run| - 1];
      LastStep(run);
      VisitedSoFar(rest);
      assert forall p <- rest :: p in run;
      forall p: CyclePhase | Rank(p) <= Rank(last) ensures p in run {
        SameRank(p, last);
        assert p == last ==> p == run[|run| - 1];
      }
    }
  }

  lemma SameRank(p: CyclePhase, q: CyclePhase)
    ensures Rank(p) == Rank(q) <==> p == q
  {
  }

  lemma {:induction false} NeverBackToPlanning(run: seq<CyclePhase>, i: nat, j: nat)
    requires LegalRun(run) && i <= j < |run| && Rank(run[i]) >= Rank(Decomposition)
    ensures Rank(run[j]) >= Rank(Decomposition)
    decreases j
  {
    if i < j {
      NeverBackToPlanning(run, i, j - 1);
      StepShape(run, j);
    }
  }

  lemma DispatchAfterReview(run: seq<CyclePhase>, i: nat)
    requires LegalRun(run) && i < |run| && run[i] == Dispatch
    ensures PlanValidation in run[..i] && Review in run[..i]
  {
    LegalPrefix(run, i + 1);
    VisitedSoFar(run[..i + 1]);
    assert run[..i + 1] == run[..i] + [Dispatch];
    assert Rank(PlanValidation) < Rank(Dispatch) && PlanValidation in run[..i + 1];
    assert Rank(Review) < Rank(Dispatch) && Review in run[..i + 1];
  }

  lemma RankAtMost(p: CyclePhase)
    ensures Rank(p) <= Rank(NextCycleReady)
  {
  }

  lemma VisitsAll(run: seq<CyclePhase>)
    requires LegalRun(run) && run[|run| - 1] == NextCycleReady
    ensures forall p: CyclePhase :: p in run
    ensures Visits(run, Dispatch) == 1
  {
    VisitedSoFar(run);
    forall p: CyclePhase ensures p in run {
      RankAtMost(p);
    }
  }

  /** Main result: a complete run with r send-backs and c certification
      failures takes 12 + 3r + 4c steps, visits every phase, enters Dispatch
      once, and only after validation and review. */
  lemma CompleteRun(run: seq<CyclePhase>)
    requires LegalRun(run) && run[|run| - 1] == NextCycleReady
    ensures |run| - 1 == 12 + 3 * CountSteps(run, SendBack) + 4 * CountSteps(run, CertificationFailure)
    ensures forall p: CyclePhase :: p in run
    ensures Visits(run, Dispatch) == 1
    ensures forall i | 0 <= i < |run| && run[i] == Dispatch :: PlanValidation in run[..i] && Review in run[..i]
  {
    StepsTaken(run);
    VisitsAll(run);
    forall i | 0 <= i < |run| && run[i] == Dispatch ensures PlanValidation in run[..i] && Review in run[..i] {
      DispatchAfterReview(run, i);
    }
  }
}
