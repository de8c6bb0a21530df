/** One peer operation across the three stores it changes. */
module PeerProtocol {
  // The stores are the configuration file, the database and the runtime.  This
  // module holds their durable state, the moves the control service makes on it,
  // and what every run of such moves keeps; PeerControl.dfy holds the service, each
  // of whose primitives is proved to make one of these moves.

  import opened EngineProtocol
  import opened Text

  datatype Kind = Create | Update | Enable | Disable | Revoke

  /** A collision-free hash: it determines the text. */
  datatype Hash = Hash(text: string)

  /** What the operation is about to do.  `active` says that the interface runs,
      so that the runtime is part of the operation. */
  datatype PeerPlan = PeerPlan(kind: Kind, original: string, proposed: string, expected: nat, active: bool)

  /** Where the runtime peer stands: as before the operation, as it is to be
      afterwards, or somewhere a failed call left it. */
  datatype Cell = Before | After | Between

  /** Everything that survives a crash, and two facts of history: `stranded` says
      that an exchange failed and left the proposed text in place, `blind` that the
      rollback of a create failed to inspect a runtime peer that is there, and went
      on as if it were absent. */
  datatype Gateway = Gateway(
    op: State, proposedHash: Option<Hash>, revision: nat, fileHash: Hash,
    file: string, runtime: Cell, stranded: bool, blind: bool)

  datatype Move =
    | MoveState(to: State)
    | Complete
    | WriteProposed(fails: bool)
    | WriteOriginal
    | SetRuntime(cell: Cell)
    | LoseSight

  predicate Undoing(op: State) {
    op in {Snapshotted, Executing, RollingBack}
  }

  predicate MayFinishRollback(plan: PeerPlan, g: Gateway) {
    && (g.file == plan.original || g.stranded)
    && (plan.active ==> g.runtime == Before || g.blind)
  }

  predicate MayComplete(plan: PeerPlan, g: Gateway) {
    && g.op == Executing && g.file == plan.proposed && (plan.active ==> g.runtime == After)
    && g.revision == plan.expected && g.fileHash == Hash(plan.original)
  }

  predicate Allowed(plan: PeerPlan, g: Gateway, m: Move) {
    match m
    case MoveState(to) =>
      && ValidOperationTransition(g.op, to) && to != Verifying && !(g.op == Verifying && to == RollingBack)
      && (to == RolledBack ==> MayFinishRollback(plan, g))
    case Complete => MayComplete(plan, g)
    case WriteProposed(_) => g.op == Executing && g.file == plan.original
    case WriteOriginal => Undoing(g.op) && g.file == plan.proposed
    case SetRuntime(_) => Undoing(g.op) && plan.active
    case LoseSight => Undoing(g.op) && plan.active && plan.kind == Create && g.runtime != Before
  }

  function Next(plan: PeerPlan, g: Gateway, m: Move): Gateway {
    match m
    case MoveState(to) => g.(op := to)
    case Complete =>
      g.(op := Verifying, proposedHash := Some(Hash(plan.proposed)),
         revision := g.revision + 1, fileHash := Hash(plan.proposed))
    case WriteProposed(fails) => g.(file := plan.proposed, stranded := fails)
    case WriteOriginal => g.(file := plan.original, stranded := false)
    case SetRuntime(cell) => g.(runtime := cell, blind := false)
    case LoseSight => g.(blind := true)
  }

  /** Before the operation does anything, all three stores agree. */
  predicate Start(plan: PeerPlan, g: Gateway) {
    g == Gateway(Pending, None, plan.expected, Hash(plan.original), plan.original, Before, false, false)
  }

  ghost predicate Steps(plan: PeerPlan, g: Gateway, g': Gateway) {
    exists m :: Allowed(plan, g, m) && g' == Next(plan, g, m)
  }

  ghost predicate IsRun(plan: PeerPlan, run: seq<Gateway>) {
    && run != [] && Start(plan, run[0])
    && forall k :: 0 <= k < |run| - 1 ==> Steps(plan, run[k], run[k + 1])
  }

  /** What the database says while the operation has not been completed. */
  predicate Uncompleted(plan: PeerPlan, g: Gateway) {
    && g.revision == plan.expected && g.fileHash == Hash(plan.original)
    && g.file in {plan.original, plan.proposed} && (g.stranded ==> g.file == plan.proposed)
    && (g.blind ==> plan.active && plan.kind == Create && g.runtime != Before)
  }

  predicate Untouched(plan: PeerPlan, g: Gateway) {
    Uncompleted(plan, g) && g.file == plan.original && g.runtime == Before && !g.stranded && !g.blind
  }

  predicate Done(plan: PeerPlan, g: Gateway) {
    && g.file == plan.proposed && g.fileHash == Hash(plan.proposed) && g.proposedHash == Some(Hash(plan.proposed))
    && g.revision == plan.expected + 1 && (plan.active ==> g.runtime == After)
  }

  predicate Inv(plan: PeerPlan, g: Gateway) {
    match g.op
    case Snapshotted => Uncompleted(plan, g) && g.file == plan.original && !g.stranded
    case Executing | RollingBack | RollbackFailed => Uncompleted(plan, g)
    case Verifying | Committed => Done(plan, g)
    case RolledBack => Uncompleted(plan, g) && MayFinishRollback(plan, g)
    case _ => Untouched(plan, g)
  }

  lemma MoveKeeps(plan: PeerPlan, g: Gateway, m: Move)
    requires Inv(plan, g) && Allowed(plan, g, m)
    ensures Inv(plan, Next(plan, g, m))
  {
  }

  lemma {:induction false} RunKeeps(plan: PeerPlan, run: seq<Gateway>, k: nat)
    requires IsRun(plan, run) && k < |run|
    ensures Inv(plan, run[k])
  {
    if k > 0 {
      RunKeeps(plan, run, k - 1);
      assert Steps(plan, run[k - 1], run[k - 1 + 1]);
      var m :| Allowed(plan, run[k - 1], m) && run[k] == Next(plan, run[k - 1], m);
      MoveKeeps(plan, run[k - 1], m);
    }
  }

  /** The stores agree when the operation ends, whatever failed or crashed on the
      way.  Committed: the file is the proposed text, the database knows its hash
      and the next revision, and the runtime follows.  Rolled back: the database
      is as before, the file is the original text exactly if no failed exchange left
      the proposed one in place unnoticed, and the runtime peer is as before exactly
      if the rollback did not go on blind, which only that of a create can. */
  lemma StoresAgree(plan: PeerPlan, run: seq<Gateway>, k: nat)
    requires IsRun(plan, run) && k < |run|
    ensures run[k].op == Committed ==>
              && run[k].file == plan.proposed && run[k].fileHash == Hash(run[k].file)
              && run[k].revision == plan.expected + 1 && (plan.active ==> run[k].runtime == After)
    ensures run[k].op == RolledBack ==>
              && run[k].revision == plan.expected && run[k].fileHash == Hash(plan.original)
              && (plan.original != plan.proposed ==> (run[k].file == plan.original <==> !run[k].stranded))
              && (plan.active ==> (run[k].runtime == Before <==> !run[k].blind))
              && (run[k].blind ==> plan.kind == Create)
    ensures run[k].op in {Rejected, Expired} ==>
              run[k].file == plan.original && run[k].revision == plan.expected && run[k].runtime == Before
  {
    RunKeeps(plan, run, k);
  }

  predicate Strands(g: Gateway, g': Gateway) {
    g'.stranded && !g.stranded
  }

  /** Without a stranding exchange, rolled back means the original file. */
  lemma {:induction false} NeverStranded(plan: PeerPlan, run: seq<Gateway>, k: nat)
    requires IsRun(plan, run) && k < |run|
    requires forall j :: 0 <= j < |run| - 1 ==> !Strands(run[j], run[j + 1])
    ensures !run[k].stranded
    ensures run[k].op == RolledBack ==> run[k].file == plan.original
  {
    if k > 0 {
      NeverStranded(plan, run, k - 1);
      assert !Strands(run[k - 1], run[k - 1 + 1]);
    }
    RunKeeps(plan, run, k);
  }

  /** The exception is real: an exchange whose swap back fails, followed by the
      rollback of the same process, which does not look at the file again, ends
      rolled back with the proposed file. */
  lemma StrandedRollback(plan: PeerPlan) returns (run: seq<Gateway>)
    requires !plan.active && plan.original != plan.proposed
    ensures IsRun(plan, run) && run[|run| - 1].op == RolledBack && run[|run| - 1].file == plan.proposed
  {
    var g0 := Gateway(Pending, None, plan.expected, Hash(plan.original), plan.original, Before, false, false);
    var moves := [MoveState(Validated), MoveState(Snapshotted), MoveState(Executing), WriteProposed(true),
                  MoveState(RollingBack), MoveState(RolledBack)];
    run := [g0];
    var i := 0;
    while i < |moves|
      invariant i <= |moves| && |run| == i + 1 && IsRun(plan, run)
      invariant run[i] == g0.(op := [Pending, Validated, Snapshotted, Executing, Executing, RollingBack, RolledBack][i],
                              file := if i >= 4 then plan.proposed else plan.original, stranded := i >= 4)
    {
      assert Allowed(plan, run[i], moves[i]);
      assert Steps(plan, run[i], Next(plan, run[i], moves[i]));
      run := run + [Next(plan, run[i], moves[i])];
      i := i + 1;
    }
  }

  /** The other exception is real as well: the rollback of a create whose runtime
      peer was configured takes a failed inspection for an absent peer and ends
      rolled back with the peer still there. */
  lemma BlindRollback(plan: PeerPlan) returns (run: seq<Gateway>)
    requires plan.active && plan.kind == Create
    ensures IsRun(plan, run) && run[|run| - 1].op == RolledBack && run[|run| - 1].runtime == After
    ensures run[|run| - 1].file == plan.original && run[|run| - 1].revision == plan.expected
  {
    var g0 := Gateway(Pending, None, plan.expected, Hash(plan.original), plan.original, Before, false, false);
    var moves := [MoveState(Validated), MoveState(Snapshotted), MoveState(Executing), SetRuntime(After),
                  MoveState(RollingBack), LoseSight, MoveState(RolledBack)];
    var ops := [Pending, Validated, Snapshotted, Executing, Executing, RollingBack, RollingBack, RolledBack];
    run := [g0];
    var i := 0;
    while i < |moves|
      invariant i <= |moves| && |run| == i + 1 && IsRun(plan, run)
      invariant run[i] == g0.(op := ops[i], runtime := if i >= 4 then After else Before, blind := i >= 6)
    {
      assert Allowed(plan, run[i], moves[i]);
      assert Steps(plan, run[i], Next(plan, run[i], moves[i]));
      run := run + [Next(plan, run[i], moves[i])];
      i := i + 1;
    }
  }
}
