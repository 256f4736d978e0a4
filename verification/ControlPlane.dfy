/** Rows, commands and replies of the control plane. */
module ControlPlane {
  import opened Text

  /** A 32-bit column. */
  type I32 = x: int | -0x8000_0000 <= x < 0x8000_0000

  /** `i + 1` on a 32-bit column, as a release build computes it. */
  function Succ32(i: I32): I32 {
    if i == 0x7FFF_FFFF then -0x8000_0000 else i + 1
  }

  datatype TaskStatus = Queued | Running | Succeeded | Failed | ReviewNeeded | Cancelled | TimedOut | Archived

  /** `Completed` and `Failed` are written as bare strings by the executor. */
  datatype NodeLifecycle =
    | Proposed | Queued | Running | ReviewNeeded | CertificationNeeded | Admitted | Blocked | Superseded
    | Completed | Failed

  datatype NodeLane = Branch | MainlineCandidate | Mainline | Blocked | Archived

  datatype CyclePhase =
    | Intake | ConversationExtraction | PlanElaboration | PlanValidation | Review | Decomposition | Dispatch
    | Execution | Integration | CertificationSelection | Certification | StateUpdate | NextCycleReady

  // Tables. An id stands for a time-ordered UUID: the store's counter at creation.

  datatype ObjectiveRow = ObjectiveRow(id: nat, summary: string)
  datatype LoopRow = LoopRow(id: nat, objective: nat, cycleIndex: I32, track: string)
  datatype CycleRow = CycleRow(id: nat, loopId: nat, index: I32, phase: CyclePhase, policy: string)
  datatype NodeRow =
    NodeRow(id: nat, objective: nat, title: string, statement: string, lane: NodeLane, lifecycle: NodeLifecycle)
  datatype TaskRow =
    TaskRow(id: nat, node: nat, role: string, skill: string, status: TaskStatus, budget: Option<int>)
  datatype AttemptRow = AttemptRow(id: nat, task: nat, index: int, status: TaskStatus, finished: bool)

  datatype AggregateKind = ObjectiveKind | LoopKind | CycleKind | NodeKind | TaskKind | DispatchKind | SidecarKind

  datatype Payload =
    | ObjectiveCreated(summary: string, outcome: string, conversation: Option<string>)
    | LoopCreated(objective: nat, track: string)
    | CycleCreated(loopId: nat, index: I32, policy: string, previous: Option<nat>)
    | MilestoneBridged(milestone: string, objective: nat)
    | TaskCreated(node: nat, status: TaskStatus)
    | TaskDispatched(attempt: nat, attemptIndex: int)
    | RoundCompleted(count: nat, scope: Option<nat>, max: nat)
    | TaskCompleted(final: TaskStatus)
    | TaskFailed
    | TaskTimedOut
    | RetryScheduled
    | PhaseTransitioned(from: CyclePhase, to: CyclePhase)
    | PhaseRecorded(entered: CyclePhase, exited: CyclePhase)
    | GateEvaluated(attempt: nat)
    | GateForced(late: bool)

  datatype Event = Event(id: nat, kind: AggregateKind, aggregate: nat, key: string, payload: Payload)

  datatype Db = Db(
    objectives: seq<ObjectiveRow>,
    loops: seq<LoopRow>,
    cycles: seq<CycleRow>,
    nodes: seq<NodeRow>,
    tasks: seq<TaskRow>,
    attempts: seq<AttemptRow>,
    journal: seq<Event>,
    next: nat)

  const EMPTY: Db := Db([], [], [], [], [], [], [], 0)

  /** The eleven executor commands, and the two tick steps a run needs to give
      tasks a retry budget and to move a cycle to its next phase. */
  datatype Command =
    | CreateObjective(key: string, summary: string, outcome: string, conversation: Option<string>)
    | CreateLoop(key: string, objective: nat, track: string)
    | CreateCycle(key: string, loopId: nat, index: I32, policy: string)
    | CreateNode(key: string, objective: nat, milestone: string, title: string, statement: string,
                 lane: NodeLane, lifecycle: NodeLifecycle)
    | CreateTask(key: string, node: nat, role: string, skill: string, status: TaskStatus)
    | DispatchRound(key: string, scope: Option<nat>, max: nat)
    | CompleteTask(key: string, task: nat, final: TaskStatus)
    | IngestFailure(key: string, task: nat)
    | IngestTimeout(key: string, task: nat)
    | ScheduleRetry(key: string, task: nat)
    | NextCycle(key: string, loopId: nat, current: nat, policy: string, carry: seq<nat>)
    | AutoTask(key: string, node: nat, role: string, skill: string, blocked: bool, budget: int)
    | AdvancePhase(cycle: nat, from: CyclePhase, to: CyclePhase)

  datatype RejectionReason = PreconditionFailed | IllegalTransition | EntityNotFound | ValidationError

  datatype Outcome =
    | Accepted(applied: bool, idempotentSkip: bool, eventIds: seq<nat>)
    | Rejected(reason: RejectionReason)

  datatype Reply = Reply(db: Db, outcome: Outcome)

  const SKIPPED := Accepted(false, true, [])

  function Applied(eventId: nat): Outcome {
    Accepted(true, false, [eventId])
  }

  // Idempotency keys the engine makes up itself.

  function DispatchKey(task: nat): string {
    "dispatch-" + Decimal(task)
  }

  function BridgeKey(milestone: string): string {
    "milestone-bridge-" + milestone
  }

  function PhaseName(p: CyclePhase): string {
    match p
    case Intake => "intake"
    case ConversationExtraction => "conversation_extraction"
    case PlanElaboration => "plan_elaboration"
    case PlanValidation => "plan_validation"
    case Review => "review"
    case Decomposition => "decomposition"
    case Dispatch => "dispatch"
    case Execution => "execution"
    case Integration => "integration"
    case CertificationSelection => "certification_selection"
    case Certification => "certification"
    case StateUpdate => "state_update"
    case NextCycleReady => "next_cycle_ready"
  }

  function PhaseTail(cycle: nat, from: CyclePhase, to: CyclePhase): string {
    Decimal(cycle) + "-" + PhaseName(from) + "-to-" + PhaseName(to)
  }

  function PhaseKey(cycle: nat, from: CyclePhase, to: CyclePhase): string {
    "phase-" + PhaseTail(cycle, from, to)
  }

  function SidecarKey(cycle: nat, from: CyclePhase, to: CyclePhase): string {
    "phase-sidecar-" + PhaseTail(cycle, from, to)
  }

  /** The key of the tick's task for a node in a cycle. */
  function AutoTaskKey(cycle: nat, node: nat): string {
    "auto-task-" + Decimal(cycle) + "-" + Decimal(node)
  }

  /** The aggregate kind under which a command looks its key up. */
  function KindOf(c: Command): AggregateKind {
    match c
    case CreateObjective(_, _, _, _) => ObjectiveKind
    case CreateLoop(_, _, _) => LoopKind
    case CreateCycle(_, _, _, _) => CycleKind
    case CreateNode(_, _, _, _, _, _, _) => NodeKind
    case CreateTask(_, _, _, _, _) => TaskKind
    case DispatchRound(_, _, _) => DispatchKind
    case CompleteTask(_, _, _) => TaskKind
    case IngestFailure(_, _) => TaskKind
    case IngestTimeout(_, _) => TaskKind
    case ScheduleRetry(_, _) => TaskKind
    case NextCycle(_, _, _, _, _) => CycleKind
    case AutoTask(_, _, _, _, _, _) => TaskKind
    case AdvancePhase(_, _, _) => CycleKind
  }

  /** The key it looks up: its own, except where the engine makes one up. */
  function KeyOf(c: Command): string {
    match c
    case CreateNode(_, _, milestone, _, _, _, _) => BridgeKey(milestone)
    case AdvancePhase(cycle, from, to) => PhaseKey(cycle, from, to)
    case _ => c.key
  }

  function TaskId(t: TaskRow): nat { t.id }
  function NodeId(n: NodeRow): nat { n.id }
  function LoopId(l: LoopRow): nat { l.id }
  function CycleId(c: CycleRow): nat { c.id }
  function ObjectiveId(o: ObjectiveRow): nat { o.id }
}
