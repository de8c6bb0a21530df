/** The operation engine: Execute, Recover and rollback over a journal and host
    effects that may fail or crash at any call. */
module Engine {
  import opened EngineProtocol

  datatype StepRecord = StepRecord(plan: StepPlan, state: StepState)

  /** The in-memory operation record the engine works on. */
  class Record {
    const id: string
    var state: State
    var steps: seq<StepRecord>

    constructor (id: string, state: State, steps: seq<StepRecord>)
      ensures this.id == id && this.state == state && this.steps == steps
    {
      this.id := id;
      this.state := state;
      this.steps := steps;
    }
  }

  /** The plan check made before anything durable happens. */
  predicate ValidPlan(id: string, steps: seq<StepRecord>, effects: seq<Effect>) {
    && id != ""
    && |steps| == |effects|
    && (forall i :: 0 <= i < |steps| ==>
          && steps[i].plan.id != ""
          && steps[i].plan.name == effects[i].name
          && steps[i].plan.original != ""
          && steps[i].plan.proposed != "")
    && (forall i :: 0 < i < |steps| ==> steps[i - 1].plan.order <= steps[i].plan.order)
  }

  /** Journal and host.  While `alive` is true the agent process runs; once it
      is false the process has crashed and no call has any effect.  In a
      `reliable` incarnation the process does not crash and neither the journal
      nor Inspect fails; when `honest`, effect calls do what they report; when
      `obliging`, Apply works and the final verification passes. */
  class World {
    const plan: Plan
    var op: State
    var steps: seq<StepState>
    var cells: seq<string>
    var alive: bool
    var reliable: bool
    var honest: bool
    var obliging: bool
    ghost var applies: seq<nat>
    ghost var run: seq<Durable>

    ghost function Now(): Durable
      reads this
    {
      Durable(op, steps, cells, applies)
    }

    ghost predicate Valid()
      reads this
    {
      IsRun(plan, run) && run[|run| - 1] == Now() && Inv(plan, Now())
    }

    ghost predicate Calm()
      reads this
    {
      alive && reliable
    }

    constructor (plan: Plan, op: State)
      requires op in {Pending, Validated, Snapshotted}
      requires plan.Paired()
      ensures Valid() && this.plan == plan && this.op == op && fresh(this)
    {
      this.plan := plan;
      this.op := op;
      this.steps := seq(|plan.steps|, i => StepPending);
      this.cells := seq(|plan.steps|, i requires 0 <= i < |plan.steps| => plan.steps[i].original);
      this.alive, this.reliable, this.honest, this.obliging := true, false, false, false;
      this.applies := seq(|plan.steps|, i => 0);
      new;
      run := [Now()];
      FreshKeeps(plan, Now());
    }

    /** Decides whether a call from the process gets through. */
    method Reach() returns (ok: bool)
      modifies this`alive
      ensures ok ==> alive
      ensures alive ==> old(alive)
      ensures old(Calm()) ==> ok
    {
      if alive && !reliable {
        alive := *;
      }
      ok := alive;
      if alive && !reliable {
        ok := *;
      }
    }

    ghost method Extend(m: Move)
      requires |run| > 0 && IsRun(plan, run) && Inv(plan, run[|run| - 1])
      requires Allowed(plan, run[|run| - 1], m) && Now() == After(plan, run[|run| - 1], m)
      modifies this`run
      ensures Valid()
    {
      MoveKeeps(plan, run[|run| - 1], m);
      assert Next(plan, run[|run| - 1], Now());
      run := run + [Now()];
    }

    /** Journal compare-and-set on the operation state. */
    method TransitionOperation(from: State, to: State) returns (ok: bool)
      requires Valid() && plan.Paired()
      requires op == from ==> MayMove(Now(), to)
      modifies this`op, this`alive, this`run
      ensures Valid()
      ensures Now() == if ok then old(Now()).(op := to) else old(Now())
      ensures ok ==> old(op) == from
      ensures old(Calm()) ==> alive && ok == (old(op) == from)
    {
      ok := Reach();
      if ok && op == from {
        op := to;
        Extend(MoveOperation(to));
      } else {
        ok := false;
      }
    }

    /** Journal compare-and-set on one step. */
    method TransitionStep(index: nat, from: StepState, to: StepState) returns (ok: bool)
      requires Valid() && plan.Paired() && index < |steps|
      requires steps[index] == from ==> MayStep(plan, Now(), index, to)
      modifies this`steps, this`alive, this`run
      ensures Valid()
      ensures Now() == if ok then old(Now()).(steps := old(steps)[index := to]) else old(Now())
      ensures ok ==> old(steps[index]) == from
      ensures old(Calm()) ==> alive && ok == (old(steps[index]) == from)
    {
      ok := Reach();
      if ok && steps[index] == from {
        steps := steps[index := to];
        Extend(MoveStep(index, to));
      } else {
        ok := false;
      }
    }

    /** An effect's own report of where it stands: it may fail, not lie. */
    method Inspect(index: nat) returns (ok: bool, fingerprint: string)
      requires index < |cells|
      modifies this`alive
      ensures ok ==> fingerprint == cells[index]
      ensures old(Calm()) ==> ok && alive
    {
      fingerprint := cells[index];
      ok := Reach();
    }

    /** Apply may leave its cell anywhere and still report either way. */
    method Apply(index: nat) returns (ok: bool)
      requires Valid() && plan.Paired() && index < |steps| && MayApply(plan, Now(), index)
      modifies this`cells, this`applies, this`alive, this`run
      ensures Valid()
      ensures |cells| == |old(cells)| && forall j :: 0 <= j < |cells| && j != index ==> cells[j] == old(cells[j])
      ensures old(Calm()) ==> alive
      ensures old(Calm()) && obliging ==> ok && cells[index] == plan.steps[index].proposed
    {
      ok := Reach();
      if ok {
        var seen: string := *;
        ok := *;
        if obliging {
          seen, ok := plan.steps[index].proposed, true;
        } else if honest {
          seen := if ok then plan.steps[index].proposed else cells[index];
        }
        cells := cells[index := seen];
        applies := applies[index := applies[index] + 1];
        Extend(CallApply(index, seen));
      }
    }

    method Rollback(index: nat) returns (ok: bool)
      requires Valid() && plan.Paired() && index < |steps| && op == RollingBack && steps[index] == StepRollingBack
      modifies this`cells, this`alive, this`run
      ensures Valid()
      ensures |cells| == |old(cells)| && forall j :: 0 <= j < |cells| && j != index ==> cells[j] == old(cells[j])
      ensures old(Calm()) ==> alive
      ensures old(Calm()) && honest ==> ok && cells[index] == plan.steps[index].original
    {
      ok := Reach();
      if ok {
        var seen: string := *;
        ok := *;
        if honest {
          seen, ok := plan.steps[index].original, true;
        }
        cells := cells[index := seen];
        Extend(CallRollback(index, seen));
      }
    }

    /** The final verification callback only observes. */
    method Verify() returns (ok: bool)
      modifies this`alive
      ensures old(Calm()) ==> alive
      ensures old(Calm()) && obliging ==> ok
    {
      ok := Reach();
      if ok && !obliging {
        ok := *;
      }
    }

    /** A new process starts on the same durable state. */
    method Restart(reliable: bool)
      requires Valid()
      modifies this`alive, this`reliable, this`honest, this`obliging
      ensures Valid() && Now() == old(Now()) && alive && this.reliable == reliable
    {
      alive := true;
      this.reliable := reliable;
      honest, obliging := *, *;
    }

    /** Loads the journaled operation. */
    method Load(id: string) returns (record: Record)
      requires Valid()
      ensures fresh(record) && record.id == id && record.state == op
      ensures |record.steps| == |steps|
      ensures forall i :: 0 <= i < |steps| ==> record.steps[i] == StepRecord(plan.steps[i], steps[i])
    {
      record := new Record(id, op,
        seq(|steps|, i requires 0 <= i < |steps| && |plan.steps| == |steps| reads this => StepRecord(plan.steps[i], steps[i])));
    }
  }

  /** What recovery made of a step in flight: it is applied, the journal
      refused and nothing more is done, or the operation must roll back. */
  datatype Resolution = Settled | Halted | Broken

  class Engine {
    const world: World

    constructor (world: World)
      ensures this.world == world
    {
      this.world := world;
    }

    /** The record mirrors the journal. */
    ghost predicate Synced(record: Record)
      reads world, record
    {
      && world.Valid()
      && record.state == world.op
      && |record.steps| == |world.steps|
      && forall i :: 0 <= i < |world.steps| ==> record.steps[i] == StepRecord(world.plan.steps[i], world.steps[i])
    }

    ghost predicate Ready(record: Record)
      reads world, record
    {
      Synced(record) && world.plan.Paired()
    }

    method Execute(record: Record, effects: seq<Effect>, verify: bool) returns (ok: bool)
      requires Synced(record) && effects == world.plan.effects
      modifies world`op, world`steps, world`cells, world`applies, world`alive, world`run, record`state, record`steps
      ensures Synced(record)
      ensures ok ==> world.op == Committed
      ensures !old(ValidPlan(record.id, record.steps, effects)) || old(record.state) != Snapshotted ==>
                !ok && world.Now() == old(world.Now())
      ensures old(world.Calm()) && old(ValidPlan(record.id, record.steps, effects)) && old(record.state) == Snapshotted ==>
                && world.op in {Committed, RolledBack, RollbackFailed} && (ok <==> world.op == Committed)
                && (world.obliging ==> world.op == Committed)
    {
      hide IsRun, Stacked;
      if !ValidPlan(record.id, record.steps, effects) || record.state != Snapshotted {
        return false;
      }
      ok := OperationTransition(record, Snapshotted, Executing);
      if !ok {
        return;
      }
      ok := ExecuteSteps(record);
      if ok {
        ok := OperationTransition(record, Executing, Verifying);
      }
      if ok && verify {
        ok := world.Verify();
      }
      if !ok {
        FailAndRollback(record);
        return;
      }
      ok := OperationTransition(record, Verifying, Committed);
    }

    /** Applies the steps in order up to the first that fails. */
    method ExecuteSteps(record: Record) returns (ok: bool)
      requires Ready(record) && record.state == Executing
      requires forall j :: 0 <= j < |world.steps| ==> world.steps[j] == StepPending
      modifies world`steps, world`cells, world`applies, world`alive, world`run, record`steps
      ensures Ready(record) && |world.steps| == old(|world.steps|)
      ensures ok ==> forall j :: 0 <= j < |world.steps| ==> world.steps[j] == StepApplied
      ensures old(world.Calm()) ==> world.Calm() && (world.obliging ==> ok)
    {
      var index := 0;
      while index < |record.steps|
        invariant 0 <= index <= |record.steps| && |world.steps| == old(|world.steps|)
        invariant Ready(record) && record.state == Executing
        invariant forall j :: 0 <= j < index ==> world.steps[j] == StepApplied
        invariant forall j :: index <= j < |world.steps| ==> world.steps[j] == StepPending
        invariant old(world.Calm()) ==> world.Calm()
      {
        ok := ApplyStep(record, index, false);
        if !ok {
          return;
        }
        index := index + 1;
      }
      ok := true;
    }

    /** Resumes a durable operation.  When the journal and Inspect do not fail,
        it ends in a terminal state, except exactly from a stuck state, which it
        leaves as it found it. */
    method Recover(record: Record, effects: seq<Effect>, verify: bool) returns (ok: bool)
      requires Synced(record) && effects == world.plan.effects
      modifies world`op, world`steps, world`cells, world`applies, world`alive, world`run, record`state, record`steps
      ensures Synced(record)
      ensures !old(ValidPlan(record.id, record.steps, effects)) ==> !ok && world.Now() == old(world.Now())
      ensures old(world.Calm()) && old(ValidPlan(record.id, record.steps, effects)) ==>
                (IsTerminal(world.op) <==> !old(Stuck(world.plan, world.Now())))
      ensures old(world.Calm()) && old(Stuck(world.plan, world.Now())) ==> !ok && world.Now() == old(world.Now())
      ensures old(world.Calm()) && old(ValidPlan(record.id, record.steps, effects)) && world.honest ==>
                (world.op == RollbackFailed ==> old(world.op) == RollbackFailed)
      ensures old(world.Calm()) && old(ValidPlan(record.id, record.steps, effects)) && old(world.op) == Executing && world.obliging ==>
                (world.op == Committed <==> old(AllResumable(world.plan, world.Now())))
    {
      if !ValidPlan(record.id, record.steps, effects) {
        return false;
      }
      match record.state {
        case Pending =>
          ok := OperationTransition(record, Pending, Expired);
        case Validated =>
          ok := OperationTransition(record, Validated, Rejected);
        case Snapshotted =>
          var index := 0;
          while index < |record.steps| {
            if record.steps[index].state != StepPending {
              // The source resumes execution here; a snapshotted operation has
              // only pending steps, so this never happens.
              assert false;
            }
            index := index + 1;
          }
          ok := OperationTransition(record, Snapshotted, RollingBack);
          if ok {
            ok := FinishRolledBack(record);
          }
        case Executing =>
          ok := RecoverExecuting(record, verify);
        case Verifying =>
          ok := true;
          if verify {
            ok := world.Verify();
          }
          if ok {
            ok := OperationTransition(record, Verifying, Committed);
          } else {
            FailAndRollback(record);
          }
        case RollingBack =>
          ok := Rollback(record);
        case RollbackFailed =>
          ok := false;
        case _ =>
          ok := true;
      }
    }

    method RecoverExecuting(record: Record, verify: bool) returns (ok: bool)
      requires Ready(record) && record.state == Executing
      modifies world`op, world`steps, world`cells, world`applies, world`alive, world`run, record`state, record`steps
      ensures Ready(record)
      ensures old(world.Calm()) ==> (IsTerminal(world.op) <==> !old(Stuck(world.plan, world.Now())))
      ensures old(world.Calm()) && old(Stuck(world.plan, world.Now())) ==> !ok && world.Now() == old(world.Now())
      ensures old(world.Calm()) && world.honest ==> world.op != RollbackFailed
      ensures old(world.Calm()) && world.obliging ==>
                (world.op == Committed <==> old(AllResumable(world.plan, world.Now())))
    {
      var outcome := ResumeSteps(record);
      if outcome == Halted {
        return false;
      } else if outcome == Broken {
        FailAndRollback(record);
        return false;
      }
      ok := FinishRecovery(record, verify);
    }

    /** Brings the steps forward in order, up to the first that cannot be. */
    method ResumeSteps(record: Record) returns (outcome: Resolution)
      requires Ready(record) && record.state == Executing
      modifies world`steps, world`cells, world`applies, world`alive, world`run, record`steps
      ensures Ready(record)
      ensures outcome == Settled ==> forall j :: 0 <= j < |world.steps| ==> world.steps[j] == StepApplied
      ensures old(world.Calm()) ==> world.Calm() && (outcome == Halted <==> old(Stuck(world.plan, world.Now())))
      ensures old(world.Calm()) && outcome == Halted ==> world.Now() == old(world.Now())
      ensures old(world.Calm()) && world.obliging ==>
                (outcome == Settled <==> old(AllResumable(world.plan, world.Now())))
    {
      hide IsRun, Stacked, StepsFit;
      ghost var start := world.Now();
      ghost var at := 0;
      if Stuck(world.plan, start) {
        at := StuckPosition(world.plan, start);
      }
      var index := 0;
      while index < |record.steps|
        invariant 0 <= index <= |record.steps|
        invariant Ready(record) && record.state == Executing
        invariant forall j :: 0 <= j < index ==> world.steps[j] == StepApplied
        invariant forall j :: index <= j < |world.steps| ==> world.steps[j] == start.steps[j] && world.cells[j] == start.cells[j]
        invariant old(world.Calm()) ==> world.Calm()
        invariant old(world.Calm()) && Stuck(world.plan, start) ==> index <= at && world.Now() == start
        invariant old(world.Calm()) && world.obliging ==> forall j :: 0 <= j < index ==> Resumable(world.plan, start, j)
      {
        ghost var here := Resumable(world.plan, world.Now(), index);
        assert here == Resumable(world.plan, start, index);
        outcome := RecoverStep(record, index);
        if outcome != Settled {
          return;
        }
        index := index + 1;
      }
      outcome := Settled;
    }

    method FinishRecovery(record: Record, verify: bool) returns (ok: bool)
      requires Ready(record) && record.state == Executing
      requires forall j :: 0 <= j < |world.steps| ==> world.steps[j] == StepApplied
      modifies world`op, world`steps, world`cells, world`alive, world`run, record`state, record`steps
      ensures Ready(record)
      ensures old(world.Calm()) ==> IsTerminal(world.op) && (world.honest ==> world.op != RollbackFailed)
      ensures old(world.Calm()) && world.obliging ==> world.op == Committed
    {
      ok := OperationTransition(record, Executing, Verifying);
      if !ok {
        return;
      }
      if verify {
        ok := world.Verify();
        if !ok {
          FailAndRollback(record);
          return;
        }
      }
      ok := OperationTransition(record, Verifying, Committed);
    }

    method RecoverStep(record: Record, index: nat) returns (outcome: Resolution)
      requires Ready(record) && record.state == Executing && index < |record.steps|
      requires forall j :: 0 <= j < index ==> world.steps[j] == StepApplied
      modifies world`steps, world`cells, world`applies, world`alive, world`run, record`steps
      ensures Ready(record)
      ensures forall j :: 0 <= j < |world.steps| && j != index ==>
                world.steps[j] == old(world.steps[j]) && world.cells[j] == old(world.cells[j])
      ensures outcome == Settled ==> world.steps[index] == StepApplied
      ensures old(world.Calm()) ==> world.Calm()
      ensures old(world.Calm()) ==>
                (outcome == Halted <==> old(world.steps[index]) == StepFailed
                                        && old(world.cells[index]) == world.plan.steps[index].proposed)
      ensures old(world.steps[index]) == StepApplied ==> outcome == Settled
      ensures old(world.Calm()) && world.obliging ==>
                (outcome == Settled <==> old(Resumable(world.plan, world.Now(), index)))
      ensures (outcome == Halted && old(world.Calm())) || old(world.steps[index]) == StepApplied ==>
                world.Now() == old(world.Now())
    {
      match record.steps[index].state {
        case StepApplied =>
          outcome := Settled;
        case StepPending =>
          var ok := ApplyStep(record, index, true);
          outcome := if ok then Settled else Broken;
        case StepExecuting | StepFailed =>
          outcome := ResolveStep(record, index);
        case _ =>
          // The source rolls back here; an executing operation has no step
          // in rollback, so this never happens.
          assert false;
          outcome := Broken;
      }
    }

    /** A step caught in flight by a crash: accept it if its effect is there,
        retry it if that is safe, and otherwise give up. */
    method ResolveStep(record: Record, index: nat) returns (outcome: Resolution)
      requires Ready(record) && record.state == Executing && index < |record.steps|
      requires record.steps[index].state in {StepExecuting, StepFailed}
      modifies world`steps, world`cells, world`applies, world`alive, world`run, record`steps
      ensures Ready(record)
      ensures forall j :: 0 <= j < |world.steps| && j != index ==>
                world.steps[j] == old(world.steps[j]) && world.cells[j] == old(world.cells[j])
      ensures outcome == Settled ==> world.steps[index] == StepApplied
      ensures old(world.Calm()) ==> world.Calm()
      ensures old(world.Calm()) ==>
                (outcome == Halted <==> old(world.steps[index]) == StepFailed
                                        && old(world.cells[index]) == world.plan.steps[index].proposed)
      ensures outcome == Halted && old(world.Calm()) ==> world.Now() == old(world.Now())
      ensures old(world.Calm()) && world.obliging ==>
                (outcome == Settled <==> old(Resumable(world.plan, world.Now(), index)))
    {
      hide IsRun, Stacked;
      var step := record.steps[index];
      var seen, fingerprint := world.Inspect(index);
      if !seen {
        return Broken;
      } else if fingerprint == step.plan.proposed {
        var ok := StepTransition(record, index, step.state, StepApplied);
        return if ok then Settled else Halted;
      } else if fingerprint == step.plan.original && world.plan.effects[index].idempotent {
        if step.state == StepFailed {
          var ok := StepTransition(record, index, StepFailed, StepExecuting);
          if !ok {
            return Halted;
          }
        }
        var ok := world.Apply(index);
        if !ok {
          return Broken;
        }
        ok := VerifyStep(record, index);
        return if ok then Settled else Broken;
      } else {
        return Broken;
      }
    }

    method ApplyStep(record: Record, index: nat, recovery: bool) returns (ok: bool)
      requires Ready(record) && record.state == Executing && index < |record.steps|
      requires forall j :: 0 <= j < index ==> world.steps[j] == StepApplied
      modifies world`steps, world`cells, world`applies, world`alive, world`run, record`steps
      ensures Ready(record)
      ensures forall j :: 0 <= j < |world.steps| && j != index ==>
                world.steps[j] == old(world.steps[j]) && world.cells[j] == old(world.cells[j])
      ensures ok ==> world.steps[index] == StepApplied && old(world.steps[index]) == StepPending
      ensures old(world.Calm()) ==> world.Calm()
      ensures old(world.Calm()) && world.obliging && old(world.steps[index]) == StepPending ==>
                (ok <==> !recovery || old(Resumable(world.plan, world.Now(), index)))
    {
      hide IsRun, Stacked;
      var step := record.steps[index];
      if step.state != StepPending {
        return false;
      }
      ok := StepTransition(record, index, StepPending, StepExecuting);
      if !ok {
        return;
      }
      assert CellAgrees(world.plan, old(world.Now()), index);
      var seen, fingerprint := world.Inspect(index);
      if !seen {
        var _ := StepTransition(record, index, StepExecuting, StepFailed);
        return false;
      }
      if fingerprint == step.plan.proposed {
        ok := StepTransition(record, index, StepExecuting, StepApplied);
        return;
      } else if fingerprint == step.plan.original {
        if recovery && !world.plan.effects[index].idempotent {
          return false;
        }
      } else {
        return false;
      }
      ok := world.Apply(index);
      if !ok {
        var _ := StepTransition(record, index, StepExecuting, StepFailed);
        return false;
      }
      ok := VerifyStep(record, index);
    }

    method VerifyStep(record: Record, index: nat) returns (ok: bool)
      requires Ready(record) && record.state == Executing && index < |record.steps|
      requires record.steps[index].state == StepExecuting
      modifies world`steps, world`alive, world`run, record`steps
      ensures Ready(record)
      ensures forall j :: 0 <= j < |world.steps| && j != index ==> world.steps[j] == old(world.steps[j])
      ensures ok ==> world.steps[index] == StepApplied
      ensures old(world.Calm()) ==> world.Calm()
      ensures old(world.Calm()) ==> (ok <==> world.cells[index] == world.plan.steps[index].proposed)
    {
      var seen, fingerprint := world.Inspect(index);
      if !seen || fingerprint != record.steps[index].plan.proposed {
        var _ := StepTransition(record, index, StepExecuting, StepFailed);
        return false;
      }
      ok := StepTransition(record, index, StepExecuting, StepApplied);
    }

    /** Always reports the failure that brought it here, so it returns nothing. */
    method FailAndRollback(record: Record)
      requires Ready(record)
      modifies world`op, world`steps, world`cells, world`alive, world`run, record`state, record`steps
      ensures Ready(record)
      ensures old(world.Calm()) && old(world.op) in {Snapshotted, Executing, Verifying, RollingBack} ==>
                world.op in {RolledBack, RollbackFailed} && (world.honest ==> world.op == RolledBack)
    {
      match record.state {
        case Snapshotted | Executing | Verifying =>
          var ok := OperationTransition(record, record.state, RollingBack);
          if !ok {
            return;
          }
        case RollingBack =>
        case _ =>
          return;
      }
      var _ := Rollback(record);
    }

    method Rollback(record: Record) returns (ok: bool)
      requires Ready(record) && record.state == RollingBack
      modifies world`op, world`steps, world`cells, world`alive, world`run, record`state, record`steps
      ensures Ready(record)
      ensures world.op in {RollingBack, RolledBack, RollbackFailed}
      ensures ok ==> world.op == RolledBack
      ensures old(world.Calm()) ==> world.op in {RolledBack, RollbackFailed} && (world.honest ==> world.op == RolledBack)
    {
      var index := |record.steps| - 1;
      while index >= 0
        invariant -1 <= index < |record.steps|
        invariant Ready(record) && record.state == RollingBack
        invariant forall j :: index < j < |world.steps| ==> Untouched(world.steps[j])
        invariant old(world.Calm()) ==> world.Calm()
      {
        ok := UndoStep(record, index);
        if !ok {
          RecordRollbackFailure(record);
          return;
        }
        index := index - 1;
      }
      ok := FinishRolledBack(record);
    }

    /** Takes one step back to its original fingerprint, if it ever left it. */
    method UndoStep(record: Record, index: nat) returns (ok: bool)
      requires Ready(record) && record.state == RollingBack && index < |record.steps|
      requires forall j :: index < j < |world.steps| ==> Untouched(world.steps[j])
      modifies world`steps, world`cells, world`alive, world`run, record`steps
      ensures Ready(record)
      ensures forall j :: 0 <= j < |world.steps| && j != index ==> world.steps[j] == old(world.steps[j])
      ensures ok ==> Untouched(world.steps[index])
      ensures old(world.Calm()) ==> world.Calm() && (world.honest ==> ok)
    {
      var step := record.steps[index];
      if step.state !in {StepApplied, StepExecuting, StepFailed, StepRollingBack} {
        return true;
      }
      if step.state != StepRollingBack {
        ok := StepTransition(record, index, step.state, StepRollingBack);
        if !ok {
          return;
        }
      }
      ok := RestoreEffect(record, index);
      if !ok {
        return;
      }
      ok := StepTransition(record, index, StepRollingBack, StepRolledBack);
    }

    method RestoreEffect(record: Record, index: nat) returns (ok: bool)
      requires Ready(record) && record.state == RollingBack && index < |record.steps|
      requires record.steps[index].state == StepRollingBack
      modifies world`cells, world`alive, world`run
      ensures Ready(record)
      ensures ok ==> world.cells[index] == world.plan.steps[index].original
      ensures old(world.Calm()) ==> world.Calm() && (world.honest ==> ok)
    {
      var step := record.steps[index];
      var seen, fingerprint := world.Inspect(index);
      if !seen {
        return false;
      }
      if fingerprint != step.plan.original {
        ok := world.Rollback(index);
        if !ok {
          return;
        }
        seen, fingerprint := world.Inspect(index);
        if !seen || fingerprint != step.plan.original {
          return false;
        }
      }
      ok := true;
    }

    method FinishRolledBack(record: Record) returns (ok: bool)
      requires Ready(record) && record.state == RollingBack
      requires forall j :: 0 <= j < |world.steps| ==> Untouched(world.steps[j])
      modifies world`op, world`alive, world`run, record`state
      ensures Ready(record)
      ensures world.op == if ok then RolledBack else RollingBack
      ensures old(world.Calm()) ==> ok
    {
      ok := OperationTransition(record, RollingBack, RolledBack);
    }

    method RecordRollbackFailure(record: Record)
      requires Ready(record) && record.state == RollingBack
      modifies world`op, world`alive, world`run, record`state
      ensures Ready(record)
      ensures world.op in {RollingBack, RollbackFailed}
      ensures old(world.Calm()) ==> world.op == RollbackFailed
    {
      var _ := OperationTransition(record, RollingBack, RollbackFailed);
    }

    method OperationTransition(record: Record, from: State, to: State) returns (ok: bool)
      requires Ready(record)
      requires record.state == from && ValidOperationTransition(from, to) ==> MayMove(world.Now(), to)
      modifies world`op, world`alive, world`run, record`state
      ensures Ready(record)
      ensures world.Now() == if ok then old(world.Now()).(op := to) else old(world.Now())
      ensures old(world.Calm()) ==> world.Calm()
      ensures old(world.Calm()) && old(record.state) == from && ValidOperationTransition(from, to) ==> ok
    {
      if record.state != from || !ValidOperationTransition(from, to) {
        return false;
      }
      ok := world.TransitionOperation(from, to);
      if ok {
        record.state := to;
      }
    }

    method StepTransition(record: Record, index: nat, from: StepState, to: StepState) returns (ok: bool)
      requires Ready(record) && index < |record.steps|
      requires record.steps[index].state == from && ValidStepTransition(from, to) ==>
                 MayStep(world.plan, world.Now(), index, to)
      modifies world`steps, world`alive, world`run, record`steps
      ensures Ready(record)
      ensures world.Now() == if ok then old(world.Now()).(steps := old(world.steps)[index := to]) else old(world.Now())
      ensures ok ==> old(world.steps[index]) == from && ValidStepTransition(from, to)
      ensures old(world.Calm()) ==> world.Calm()
      ensures old(world.Calm()) ==> ok == (old(world.steps[index]) == from && ValidStepTransition(from, to))
    {
      if record.steps[index].state != from || !ValidStepTransition(from, to) {
        return false;
      }
      ok := world.TransitionStep(index, from, to);
      if ok {
        record.steps := record.steps[index := record.steps[index].(state := to)];
      }
    }
  }

  /** Any number of incarnations of the agent, each executing or recovering what
      the journal holds and dying whenever it likes. */
  method Incarnations(world: World, id: string, count: nat)
    requires world.Valid() && world.plan.Paired()
    modifies world
    ensures world.Valid()
    ensures world.op == Committed ==>
              forall i :: 0 <= i < |world.plan.steps| ==> world.cells[i] == world.plan.steps[i].proposed
    ensures world.op == RolledBack ==>
              forall i :: 0 <= i < |world.plan.steps| ==> world.cells[i] == world.plan.steps[i].original
  {
    var engine := new Engine(world);
    var round := 0;
    while round < count
      invariant world.Valid()
    {
      world.Restart(false);
      var record := world.Load(id);
      var execute: bool := *;
      var verify: bool := *;
      if execute {
        var _ := engine.Execute(record, world.plan.effects, verify);
      } else {
        var _ := engine.Recover(record, world.plan.effects, verify);
      }
      round := round + 1;
    }
    forall i: nat | i < |world.plan.steps|
      ensures world.op == Committed ==> world.cells[i] == world.plan.steps[i].proposed
      ensures world.op == RolledBack ==> world.cells[i] == world.plan.steps[i].original
    {
      CrashSafety(world.plan, world.run, |world.run| - 1, i);
    }
  }
}
