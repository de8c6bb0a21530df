/** The durable side of an operation, and what every run of the engine keeps of it. */
module EngineProtocol {
  // The state is what the journal and the host hold at any instant; the moves are
  // those the engine may make on it.  The engine itself is in Engine.dfy; each of
  // its primitives is proved to make one of these moves, so the theorems here hold
  // at every crash point of every history.

  datatype State =
    | Pending | Validated | Snapshotted | Executing | Verifying | Committed
    | RollingBack | RolledBack | RollbackFailed | Rejected | Expired

  datatype StepState =
    | StepPending | StepExecuting | StepApplied | StepFailed | StepRollingBack | StepRolledBack

  /** The immutable part of a journaled step. */
  datatype StepPlan = StepPlan(id: string, order: int, name: string, original: string, proposed: string)

  datatype Effect = Effect(name: string, idempotent: bool)

  datatype Plan = Plan(steps: seq<StepPlan>, effects: seq<Effect>) {
    predicate Paired() {
      |steps| == |effects|
    }
  }

  /** Everything that survives a crash.  `cells[i]` is the fingerprint that
      effect `i` would report, `applies[i]` counts the calls of its Apply. */
  datatype Durable = Durable(op: State, steps: seq<StepState>, cells: seq<string>, applies: seq<nat>)

  predicate ValidOperationTransition(from: State, to: State) {
    match from
    case Pending => to in {Validated, Rejected, Expired}
    case Validated => to in {Snapshotted, Rejected}
    case Snapshotted => to in {Executing, RollingBack}
    case Executing => to in {Verifying, RollingBack}
    case Verifying => to in {Committed, RollingBack}
    case RollingBack => to in {RolledBack, RollbackFailed}
    case _ => false
  }

  predicate ValidStepTransition(from: StepState, to: StepState) {
    match from
    case StepPending => to == StepExecuting
    case StepExecuting => to in {StepApplied, StepFailed, StepRollingBack}
    case StepFailed => to in {StepExecuting, StepRollingBack}
    case StepApplied => to == StepRollingBack
    case StepRollingBack => to == StepRolledBack
    case StepRolledBack => false
  }

  predicate IsTerminal(state: State) {
    state in {Committed, RolledBack, RollbackFailed, Rejected, Expired}
  }

  predicate Untouched(s: StepState) {
    s == StepPending || s == StepRolledBack
  }

  ghost predicate MayMove(d: Durable, to: State) {
    && ValidOperationTransition(d.op, to)
    && (to == Verifying ==> forall i :: 0 <= i < |d.steps| ==> d.steps[i] == StepApplied)
    && (to == RolledBack ==> forall i :: 0 <= i < |d.steps| ==> Untouched(d.steps[i]))
  }

  ghost predicate MayStep(plan: Plan, d: Durable, i: nat, target: StepState)
    requires i < |plan.steps| == |d.steps| == |d.cells|
  {
    && ValidStepTransition(d.steps[i], target)
    && d.op == (if target in {StepRollingBack, StepRolledBack} then RollingBack else Executing)
    && (d.steps[i] == StepPending ==> forall j :: 0 <= j < i ==> d.steps[j] == StepApplied)
    && (target == StepApplied ==> d.cells[i] == plan.steps[i].proposed)
    && (target == StepRollingBack ==> forall j :: i < j < |d.steps| ==> Untouched(d.steps[j]))
    && (target == StepRolledBack ==> d.cells[i] == plan.steps[i].original)
  }

  ghost predicate MayApply(plan: Plan, d: Durable, i: nat)
    requires i < |plan.steps| == |plan.effects| == |d.steps| == |d.cells| == |d.applies|
  {
    && d.op == Executing
    && d.steps[i] == StepExecuting
    && d.cells[i] == plan.steps[i].original
    && (plan.effects[i].idempotent || d.applies[i] == 0)
  }

  /** The four kinds of durable move, with the discipline each must obey. */
  datatype Move =
    | MoveOperation(to: State)
    | MoveStep(index: nat, target: StepState)
    | CallApply(index: nat, seen: string)
    | CallRollback(index: nat, seen: string)

  ghost predicate Allowed(plan: Plan, d: Durable, m: Move) {
    && plan.Paired()
    && |d.steps| == |d.cells| == |d.applies| == |plan.steps|
    && match m
       case MoveOperation(to) => MayMove(d, to)
       case MoveStep(i, target) => i < |d.steps| && MayStep(plan, d, i, target)
       case CallApply(i, _) => i < |d.steps| && MayApply(plan, d, i)
       case CallRollback(i, _) => i < |d.steps| && d.op == RollingBack && d.steps[i] == StepRollingBack
  }

  /** The state after a move.  An effect call may leave its own cell at any
      fingerprint at all, whether or not it reports success. */
  ghost function After(plan: Plan, d: Durable, m: Move): Durable
    requires Allowed(plan, d, m)
  {
    match m
    case MoveOperation(to) => d.(op := to)
    case MoveStep(i, target) => d.(steps := d.steps[i := target])
    case CallApply(i, seen) => d.(cells := d.cells[i := seen], applies := d.applies[i := d.applies[i] + 1])
    case CallRollback(i, seen) => d.(cells := d.cells[i := seen])
  }

  ghost predicate Next(plan: Plan, d: Durable, d': Durable) {
    exists m :: Allowed(plan, d, m) && d' == After(plan, d, m)
  }

  /** A planned operation before anything has run: effects sit at their
      original fingerprints. */
  ghost predicate Fresh(plan: Plan, d: Durable) {
    && d.op in {Pending, Validated, Snapshotted}
    && |d.steps| == |plan.steps|
    && |d.cells| == |d.applies| == |plan.effects|
    && (forall i :: 0 <= i < |d.steps| ==> d.steps[i] == StepPending)
    && (forall i :: 0 <= i < |d.cells| && i < |plan.steps| ==> d.cells[i] == plan.steps[i].original)
    && (forall i :: 0 <= i < |d.applies| ==> d.applies[i] == 0)
  }

  ghost predicate IsRun(plan: Plan, run: seq<Durable>) {
    && |run| > 0
    && Fresh(plan, run[0])
    && forall k :: 0 <= k < |run| - 1 ==> Next(plan, run[k], run[k + 1])
  }

  /** Position of a step in the order Applied, in flight, RolledBack, Pending. */
  function Phase(s: StepState): nat {
    match s
    case StepApplied => 0
    case StepExecuting | StepFailed | StepRollingBack => 1
    case StepRolledBack => 2
    case StepPending => 3
  }

  /** Applied*, then at most one step in flight, then RolledBack*, then Pending*. */
  ghost predicate Stacked(steps: seq<StepState>) {
    forall i, j :: 0 <= i < j < |steps| ==>
      Phase(steps[i]) < Phase(steps[j]) || (Phase(steps[i]) == Phase(steps[j]) && Phase(steps[i]) != 1)
  }

  ghost predicate CellAgrees(plan: Plan, d: Durable, i: nat)
    requires plan.Paired() && i < |plan.steps| == |d.steps| == |d.cells| == |d.applies|
  {
    && (d.steps[i] == StepPending ==> d.cells[i] == plan.steps[i].original && d.applies[i] == 0)
    && (d.steps[i] == StepApplied ==> d.cells[i] == plan.steps[i].proposed)
    && (d.steps[i] == StepRolledBack ==> d.cells[i] == plan.steps[i].original)
    && (!plan.effects[i].idempotent ==> d.applies[i] <= 1)
  }

  ghost predicate StepsFit(op: State, steps: seq<StepState>) {
    match op
    case Executing => forall i :: 0 <= i < |steps| ==> steps[i] !in {StepRollingBack, StepRolledBack}
    case Verifying | Committed => forall i :: 0 <= i < |steps| ==> steps[i] == StepApplied
    case RollingBack | RollbackFailed => true
    case RolledBack => forall i :: 0 <= i < |steps| ==> Untouched(steps[i])
    case _ => forall i :: 0 <= i < |steps| ==> steps[i] == StepPending
  }

  ghost predicate Inv(plan: Plan, d: Durable) {
    && |d.steps| == |plan.steps|
    && |d.cells| == |d.applies| == |plan.effects|
    && Stacked(d.steps)
    && StepsFit(d.op, d.steps)
    && (plan.Paired() ==> forall i :: 0 <= i < |plan.steps| ==> CellAgrees(plan, d, i))
  }

  lemma FreshKeeps(plan: Plan, d: Durable)
    requires Fresh(plan, d)
    ensures Inv(plan, d)
  {
  }

  lemma StepMoveKeepsStack(steps: seq<StepState>, k: nat, target: StepState)
    requires Stacked(steps) && k < |steps| && ValidStepTransition(steps[k], target)
    requires steps[k] == StepPending ==> forall j :: 0 <= j < k ==> steps[j] == StepApplied
    requires target == StepRollingBack ==> forall j :: k < j < |steps| ==> Untouched(steps[j])
    ensures Stacked(steps[k := target])
  {
    var steps' := steps[k := target];
    forall i, j | 0 <= i < j < |steps'|
      ensures Phase(steps'[i]) < Phase(steps'[j]) || (Phase(steps'[i]) == Phase(steps'[j]) && Phase(steps'[i]) != 1)
    {
      assert Phase(steps[i]) < Phase(steps[j]) || (Phase(steps[i]) == Phase(steps[j]) && Phase(steps[i]) != 1);
    }
  }

  lemma StepMoveKeeps(plan: Plan, d: Durable, k: nat, target: StepState)
    requires Inv(plan, d) && Allowed(plan, d, MoveStep(k, target))
    ensures Inv(plan, After(plan, d, MoveStep(k, target)))
  {
    var d' := d.(steps := d.steps[k := target]);
    StepMoveKeepsStack(d.steps, k, target);
    assert CellAgrees(plan, d, k);
    forall i | 0 <= i < |plan.steps| ensures CellAgrees(plan, d', i) {
      assert CellAgrees(plan, d, i);
    }
  }

  lemma OtherMoveKeeps(plan: Plan, d: Durable, m: Move)
    requires Inv(plan, d) && Allowed(plan, d, m) && !m.MoveStep?
    ensures Inv(plan, After(plan, d, m))
  {
    hide Stacked;
    var d' := After(plan, d, m);
    forall i | 0 <= i < |plan.steps| ensures CellAgrees(plan, d', i) {
      assert CellAgrees(plan, d, i);
    }
  }

  /** Every allowed move keeps the invariant. */
  lemma MoveKeeps(plan: Plan, d: Durable, m: Move)
    requires Inv(plan, d) && Allowed(plan, d, m)
    ensures Inv(plan, After(plan, d, m))
  {
    if m.MoveStep? {
      StepMoveKeeps(plan, d, m.index, m.target);
    } else {
      OtherMoveKeeps(plan, d, m);
    }
  }

  lemma {:induction false} RunKeeps(plan: Plan, run: seq<Durable>, k: nat)
    requires IsRun(plan, run) && k < |run|
    ensures Inv(plan, run[k])
  {
    if k == 0 {
      FreshKeeps(plan, run[0]);
    } else {
      RunKeeps(plan, run, k - 1);
      assert Next(plan, run[k - 1], run[k - 1 + 1]);
      var m :| Allowed(plan, run[k - 1], m) && run[k] == After(plan, run[k - 1], m);
      MoveKeeps(plan, run[k - 1], m);
    }
  }

  /** Crash safety: whatever failed, crashed or was retried on the way, a
      committed operation has every effect at its proposed fingerprint and a
      rolled back one has every effect at its original fingerprint. */
  lemma CrashSafety(plan: Plan, run: seq<Durable>, k: nat, i: nat)
    requires IsRun(plan, run) && k < |run| && plan.Paired() && i < |plan.steps|
    ensures |run[k].cells| == |plan.steps|
    ensures run[k].op == Committed ==> run[k].cells[i] == plan.steps[i].proposed
    ensures run[k].op == RolledBack ==> run[k].cells[i] == plan.steps[i].original
  {
    RunKeeps(plan, run, k);
    assert CellAgrees(plan, run[k], i);
  }

  /** Rollback is last in, first out in every durable state of every run. */
  lemma StepShape(plan: Plan, run: seq<Durable>, k: nat)
    requires IsRun(plan, run) && k < |run|
    ensures Stacked(run[k].steps)
    ensures forall i, j :: 0 <= i < j < |run[k].steps| && run[k].steps[i] == StepRolledBack ==> Untouched(run[k].steps[j])
  {
    RunKeeps(plan, run, k);
  }

  /** A non-idempotent effect is applied at most once in the whole history. */
  lemma SingleApplication(plan: Plan, run: seq<Durable>, k: nat, i: nat)
    requires IsRun(plan, run) && k < |run| && plan.Paired() && i < |plan.steps| && !plan.effects[i].idempotent
    ensures |run[k].applies| == |plan.steps| && run[k].applies[i] <= 1
  {
    RunKeeps(plan, run, k);
    assert CellAgrees(plan, run[k], i);
  }

  /** Nothing durable happens after a terminal state. */
  lemma TerminalEndsRun(plan: Plan, run: seq<Durable>, k: nat)
    requires IsRun(plan, run) && k < |run| && IsTerminal(run[k].op)
    ensures k == |run| - 1
  {
    forall m ensures !Allowed(plan, run[k], m) {
    }
    assert k < |run| - 1 ==> Next(plan, run[k], run[k + 1]);
  }

  /** A step recovery can finish: it is applied, or its effect is in place and
      not journaled as failed, or it may be applied again. */
  ghost predicate Resumable(plan: Plan, d: Durable, i: nat)
    requires i < |plan.steps| == |plan.effects| == |d.steps| == |d.cells|
  {
    d.steps[i] == StepApplied ||
    if d.cells[i] == plan.steps[i].proposed then d.steps[i] != StepFailed
    else d.cells[i] == plan.steps[i].original && plan.effects[i].idempotent
  }

  ghost predicate AllResumable(plan: Plan, d: Durable) {
    && |plan.steps| == |plan.effects| == |d.steps| == |d.cells|
    && forall i :: 0 <= i < |d.steps| ==> Resumable(plan, d, i)
  }

  /** The one state from which recovery makes no progress: a step journaled as
      failed whose effect did reach its proposed fingerprint. */
  ghost predicate Stuck(plan: Plan, d: Durable) {
    && plan.Paired()
    && |d.steps| == |d.cells| == |plan.steps|
    && d.op == Executing
    && exists i :: 0 <= i < |d.steps| && d.steps[i] == StepFailed && d.cells[i] == plan.steps[i].proposed
  }

  /** Everything before the stuck step is applied. */
  lemma StuckPosition(plan: Plan, d: Durable) returns (at: nat)
    requires Inv(plan, d) && Stuck(plan, d)
    ensures at < |d.steps| && d.steps[at] == StepFailed && d.cells[at] == plan.steps[at].proposed
    ensures forall j :: 0 <= j < at ==> d.steps[j] == StepApplied
  {
    at :| 0 <= at < |d.steps| && d.steps[at] == StepFailed && d.cells[at] == plan.steps[at].proposed;
  }

  lemma Makes(plan: Plan, d: Durable, m: Move)
    requires Allowed(plan, d, m)
    ensures Next(plan, d, After(plan, d, m))
  {
  }

  /** The stuck state is reached: Apply works, the verifying Inspect fails, and
      the journal then refuses the move to rolling back. */
  lemma StuckIsReachable() returns (plan: Plan, run: seq<Durable>)
    ensures IsRun(plan, run) && Stuck(plan, run[|run| - 1])
  {
    plan := Plan([StepPlan("step-1", 1, "file", "old", "new")], [Effect("file", true)]);
    var d0 := Durable(Snapshotted, [StepPending], ["old"], [0]);
    var d1 := d0.(op := Executing);
    var d2 := d1.(steps := [StepExecuting]);
    var d3 := d2.(cells := ["new"], applies := [1]);
    var d4 := d3.(steps := [StepFailed]);
    run := [d0, d1, d2, d3, d4];
    Makes(plan, d0, MoveOperation(Executing));
    Makes(plan, d1, MoveStep(0, StepExecuting));
    Makes(plan, d2, CallApply(0, "new"));
    Makes(plan, d3, MoveStep(0, StepFailed));
    assert forall k :: 0 <= k < |run| - 1 ==> Next(plan, run[k], run[k + 1]);
    assert d4.steps[0] == StepFailed && d4.cells[0] == plan.steps[0].proposed;
  }
}
