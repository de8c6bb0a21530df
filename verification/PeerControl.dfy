/** The control service's peer operations: execution, rollback and restart
    recovery over a file, a database and a runtime that may fail or crash at any
    call. */
module PeerControl {
  import opened EngineProtocol
  import opened Text
  import P = PeerProtocol

  type Kind = P.Kind
  type Hash = P.Hash
  type Cell = P.Cell
  type Gateway = P.Gateway

  /** File, database and runtime of one interface, under the interface's lock.
      While `alive` is true the agent process runs; once it is false the process
      has crashed and no call has any effect.  In a `reliable` incarnation no
      call fails and the process does not crash. */
  class Host {
    const plan: P.PeerPlan
    var op: State
    var proposedHash: Option<Hash>
    var revision: nat
    var fileHash: Hash
    var file: string
    var runtime: Cell
    var alive: bool
    var reliable: bool
    ghost var stranded: bool
    ghost var blind: bool
    ghost var run: seq<Gateway>

    ghost function Now(): Gateway
      reads this
    {
      P.Gateway(op, proposedHash, revision, fileHash, file, runtime, stranded, blind)
    }

    ghost predicate Valid()
      reads this
    {
      P.IsRun(plan, run) && run[|run| - 1] == Now() && P.Inv(plan, Now())
    }

    ghost predicate Calm()
      reads this
    {
      alive && reliable
    }

    constructor (plan: P.PeerPlan)
      ensures Valid() && this.plan == plan && op == Pending && fresh(this)
    {
      this.plan := plan;
      op, proposedHash, revision, fileHash := Pending, None, plan.expected, P.Hash(plan.original);
      file, runtime := plan.original, P.Before;
      alive, reliable := true, false;
      stranded, blind := false, false;
      new;
      run := [Now()];
    }

    /** Decides whether a call from the process gets through. */
    method Reach() returns (ok: bool)
      modifies this`alive
      ensures ok ==> alive
      ensures alive ==> old(alive)
      ensures old(Calm()) ==> ok
    {
      if alive && !reliable {
        alive := *;
      }
      ok := alive;
      if alive && !reliable {
        ok := *;
      }
    }

    ghost method Extend(m: P.Move)
      requires P.IsRun(plan, run) && P.Inv(plan, run[|run| - 1])
      requires P.Allowed(plan, run[|run| - 1], m) && Now() == P.Next(plan, run[|run| - 1], m)
      modifies this`run
      ensures Valid()
    {
      P.MoveKeeps(plan, run[|run| - 1], m);
      assert P.Steps(plan, run[|run| - 1], Now());
      run := run + [Now()];
    }

    /** Compare-and-set of the operation's state. */
    method TransitionOperation(from: State, to: State) returns (ok: bool)
      requires Valid()
      requires op == from ==> P.Allowed(plan, Now(), P.MoveState(to))
      modifies this`op, this`alive, this`run
      ensures Valid()
      ensures Now() == if ok then old(Now()).(op := to) else old(Now())
      ensures ok ==> old(op) == from
      ensures old(Calm()) ==> alive && ok == (old(op) == from)
    {
      ok := Reach();
      if ok && op == from {
        op := to;
        Extend(P.MoveState(to));
      } else {
        ok := false;
      }
    }

    method GetOperationState() returns (ok: bool, state: State)
      modifies this`alive
      ensures ok ==> state == op
      ensures old(Calm()) ==> ok && alive
    {
      state := op;
      ok := Reach();
    }

    method ReadConfig() returns (ok: bool, text: string)
      modifies this`alive
      ensures ok ==> text == file
      ensures old(Calm()) ==> ok && alive
    {
      text := file;
      ok := Reach();
    }

    /** The exchange of the whole file: success puts the text in place; failure
        leaves the file, unless the swap back fails as well. */
    method ExchangeConfig(expected: Hash, text: string) returns (ok: bool)
      requires Valid()
      requires P.Hash(file) == expected ==>
                 || (text == plan.proposed && op == Executing && file == plan.original)
                 || (text == plan.original && P.Undoing(op) && file == plan.proposed)
      modifies this`file, this`stranded, this`alive, this`run
      ensures Valid()
      ensures ok ==> P.Hash(old(file)) == expected && file == text
      ensures !ok ==> file == old(file) || (P.Hash(old(file)) == expected && file == text)
      ensures !ok && file != old(file) && text == plan.proposed ==> stranded
      ensures old(Calm()) ==> alive && ok == (P.Hash(old(file)) == expected)
    {
      ok := Reach();
      if ok && P.Hash(file) == expected {
        var stays: bool := *;
        ok := *;
        if reliable {
          ok := true;
        }
        if ok || stays {
          var forth := text == plan.proposed && op == Executing && file == plan.original;
          file := text;
          if forth {
            stranded := !ok;
            Extend(P.WriteProposed(!ok));
          } else {
            stranded := false;
            Extend(P.WriteOriginal);
          }
        }
      } else {
        ok := false;
      }
    }

    /** Configures the runtime peer; a failed call may have done anything. */
    method ConfigurePeer(target: Cell) returns (ok: bool)
      requires Valid() && P.Undoing(op) && plan.active
      modifies this`runtime, this`alive, this`blind, this`run
      ensures Valid()
      ensures ok ==> runtime == target
      ensures old(Calm()) ==> alive && ok
    {
      ok := Reach();
      if ok {
        ok := *;
        if reliable {
          ok := true;
        }
        var left: Cell := *;
        runtime, blind := if ok then target else left, false;
        Extend(P.SetRuntime(runtime));
      }
    }

    /** Looks at the runtime peer: it may fail, not lie. */
    method InspectPeer() returns (ok: bool, seen: Cell)
      modifies this`alive
      ensures ok ==> seen == runtime
      ensures old(Calm()) ==> ok && alive
    {
      seen := runtime;
      ok := Reach();
    }

    ghost method LoseSight()
      requires Valid() && P.Allowed(plan, Now(), P.LoseSight)
      modifies this`blind, this`run
      ensures Valid() && blind
    {
      blind := true;
      Extend(P.LoseSight);
    }

    /** The transaction that records the new peer metadata, file hash and
        revision and moves the operation to verifying: all of it or nothing. */
    method CompletePeer(originalHash: Hash, newHash: Hash) returns (ok: bool)
      requires Valid() && originalHash == P.Hash(plan.original) && newHash == P.Hash(plan.proposed)
      requires file == plan.proposed && (plan.active ==> runtime == P.After)
      modifies this`op, this`proposedHash, this`revision, this`fileHash, this`alive, this`run
      ensures Valid()
      ensures if ok then old(op) == Executing && op == Verifying && revision == plan.expected + 1
              else Now() == old(Now())
      ensures old(Calm()) ==> alive && ok == (old(op) == Executing)
    {
      ok := Reach();
      if ok && op == Executing && revision == plan.expected && fileHash == originalHash {
        op, proposedHash, revision, fileHash := Verifying, Some(newHash), revision + 1, newHash;
        Extend(P.Complete);
      } else {
        ok := false;
      }
    }

    /** A new process starts on the same stores. */
    method Restart(reliable: bool)
      requires Valid()
      modifies this`alive, this`reliable
      ensures Valid() && Now() == old(Now()) && alive && this.reliable == reliable
    {
      alive := true;
      this.reliable := reliable;
    }
  }

  class Service {
    const host: Host

    constructor (host: Host)
      ensures this.host == host
    {
      this.host := host;
    }

    // ---- Execution ----

    /** Steps that change none of the three stores and may fail: generating
        keys, editing the document, sealing secrets, rendering artifacts. */
    method Prepare() returns (ok: bool)
      modifies host`alive
      ensures host.alive ==> old(host.alive)
      ensures old(host.Calm()) ==> ok && host.alive
    {
      ok := host.Reach();
      if ok && !host.reliable {
        ok := *;
      }
    }

    method RejectValidated()
      requires host.Valid() && host.op == Validated
      modifies host`op, host`alive, host`run
      ensures host.Valid() && host.op in {Validated, Rejected}
    {
      var _ := host.TransitionOperation(Validated, Rejected);
    }

    /** Preparation, snapshot and the start of execution, alike for all kinds. */
    method Begin() returns (ok: bool)
      requires host.Valid() && host.op == Validated
      modifies host`op, host`alive, host`run
      ensures host.Valid()
      ensures ok ==> host.Now() == old(host.Now()).(op := Executing)
      ensures !ok ==> host.op in {Validated, Rejected, Snapshotted}
      ensures old(host.Calm()) ==> ok && host.alive
    {
      ok := Prepare();
      if !ok {
        RejectValidated();
        return;
      }
      ok := host.TransitionOperation(Validated, Snapshotted);
      if !ok {
        RejectValidated();
        return;
      }
      ok := host.TransitionOperation(Snapshotted, Executing);
    }

    /** Checks the runtime after the file is in place. */
    method Verified(target: Cell) returns (ok: bool)
      modifies host`alive
      ensures ok && host.plan.active ==> host.runtime == target
      ensures old(host.Calm()) ==> host.alive && (ok <==> !host.plan.active || host.runtime == target)
    {
      ok := true;
      if host.plan.active {
        var inspected, seen := host.InspectPeer();
        ok := inspected && seen == target;
      }
    }

    method ExecuteCreatePeer() returns (ok: bool)
      requires host.Valid() && host.op == Validated && host.plan.kind == P.Create
      modifies host`op, host`proposedHash, host`revision, host`fileHash, host`file, host`runtime, host`alive,
               host`stranded, host`blind, host`run
      ensures host.Valid() && (ok ==> host.op == Committed)
      ensures old(host.Calm()) ==> ok
    {
      ok := Begin();
      if !ok {
        return;
      }
      if host.plan.active {
        ok := host.ConfigurePeer(P.After);
        if !ok {
          var _ := RollbackPeerCreate(false);
          return;
        }
      }
      ok := host.ExchangeConfig(P.Hash(host.plan.original), host.plan.proposed);
      if !ok {
        var _ := RollbackPeerCreate(false);
        return;
      }
      ok := FinishPeerCreate();
    }

    /** Verification, the database transaction and the commit, once the file and
        the runtime are in place. */
    method FinishPeerCreate() returns (ok: bool)
      requires host.plan.kind == P.Create
      requires host.Valid() && host.op == Executing && host.file == host.plan.proposed
      requires host.plan.active ==> host.runtime == P.After
      modifies host`op, host`proposedHash, host`revision, host`fileHash, host`file, host`runtime, host`alive,
               host`stranded, host`blind, host`run
      ensures host.Valid() && (ok ==> host.op == Committed)
      ensures old(host.Calm()) ==> ok
    {
      ok := Verified(P.After);
      if !ok {
        var _ := RollbackPeerCreate(true);
        return;
      }
      ok := Prepare();
      if !ok {
        var _ := RollbackPeerCreate(true);
        return;
      }
      ok := host.CompletePeer(P.Hash(host.plan.original), P.Hash(host.plan.proposed));
      if !ok {
        var _ := RollbackPeerCreate(true);
        return;
      }
      ok := host.TransitionOperation(Verifying, Committed);
    }

    method ExecutePeerUpdate() returns (ok: bool)
      requires host.Valid() && host.op == Validated
      modifies host`op, host`proposedHash, host`revision, host`fileHash, host`file, host`runtime, host`alive,
               host`stranded, host`blind, host`run
      ensures host.Valid() && (ok ==> host.op == Committed)
      ensures old(host.Calm()) ==> ok
    {
      ok := Begin();
      if !ok {
        return;
      }
      ok := Prepare();
      if !ok {
        var _ := RollbackPeerUpdate(false);
        return;
      }
      if host.plan.active {
        ok := host.ConfigurePeer(P.After);
        if !ok {
          var _ := RollbackPeerUpdate(false);
          return;
        }
      }
      var fileChanged := host.plan.original != host.plan.proposed;
      if fileChanged {
        ok := host.ExchangeConfig(P.Hash(host.plan.original), host.plan.proposed);
        if !ok {
          var _ := RollbackPeerUpdate(false);
          return;
        }
      }
      ok := FinishPeerUpdate(fileChanged);
    }

    /** The same for an update. */
    method FinishPeerUpdate(fileChanged: bool) returns (ok: bool)
      requires host.Valid() && host.op == Executing && host.file == host.plan.proposed
      requires host.plan.active ==> host.runtime == P.After
      requires !fileChanged ==> host.plan.original == host.plan.proposed
      modifies host`op, host`proposedHash, host`revision, host`fileHash, host`file, host`runtime, host`alive,
               host`stranded, host`blind, host`run
      ensures host.Valid() && (ok ==> host.op == Committed)
      ensures old(host.Calm()) ==> ok
    {
      ok := Verified(P.After);
      if !ok {
        var _ := RollbackPeerUpdate(fileChanged);
        return;
      }
      ok := host.CompletePeer(P.Hash(host.plan.original), P.Hash(host.plan.proposed));
      if !ok {
        var _ := RollbackPeerUpdate(fileChanged);
        return;
      }
      ok := host.TransitionOperation(Verifying, Committed);
    }

    method ExecutePeerLifecycle() returns (ok: bool)
      requires host.Valid() && host.op == Validated
      modifies host`op, host`proposedHash, host`revision, host`fileHash, host`file, host`runtime, host`alive,
               host`stranded, host`blind, host`run
      ensures host.Valid() && (ok ==> host.op == Committed)
      ensures old(host.Calm()) ==> ok
    {
      hide P.IsRun;
      ok := Begin();
      if !ok {
        return;
      }
      if host.plan.active {
        ok := host.ConfigurePeer(P.After);
        if !ok {
          var _ := RollbackLifecycle(false);
          return;
        }
      }
      ok := host.ExchangeConfig(P.Hash(host.plan.original), host.plan.proposed);
      if !ok {
        var _ := RollbackLifecycle(false);
        return;
      }
      ok := Verified(P.After);
      if !ok {
        var _ := RollbackLifecycle(true);
        return;
      }
      ok := host.CompletePeer(P.Hash(host.plan.original), P.Hash(host.plan.proposed));
      if !ok {
        var _ := RollbackLifecycle(true);
        return;
      }
      ok := host.TransitionOperation(Verifying, Committed);
    }

    // ---- Rollback ----

    /** States from which the service takes an operation back. */
    ghost predicate Reversible()
      reads host
    {
      host.Valid() && host.op in {Snapshotted, Executing, RollingBack}
    }

    /** Puts the original file back if the proposed one is there. */
    method RestoreFile(conflictMatters: bool) returns (ok: bool)
      requires host.Valid() && P.Undoing(host.op)
      modifies host`file, host`stranded, host`alive, host`run
      ensures host.Valid()
      ensures ok ==> host.file == host.plan.original
      ensures old(host.Calm()) ==> ok && host.alive
    {
      var read, current := host.ReadConfig();
      if !read {
        return false;
      }
      if P.Hash(current) == P.Hash(host.plan.proposed) {
        ok := host.ExchangeConfig(P.Hash(current), host.plan.original);
        return;
      }
      ok := !conflictMatters || current == host.plan.original;
    }

    /** Records the end of a rollback. */
    method EndRollback(failed: bool) returns (ok: bool)
      requires Reversible()
      requires !failed && host.op == RollingBack ==> P.MayFinishRollback(host.plan, host.Now())
      modifies host`op, host`alive, host`run
      ensures host.Valid()
      ensures host.op in {old(host.op), RolledBack, RollbackFailed}
      ensures host.op == RolledBack ==> !failed
      ensures old(host.Calm()) && !failed && old(host.op) == RollingBack ==> host.op == RolledBack && ok
      ensures ok ==> host.op == RolledBack
    {
      if failed {
        var _ := host.TransitionOperation(RollingBack, RollbackFailed);
        return false;
      }
      ok := host.TransitionOperation(RollingBack, RolledBack);
    }

    /** The rolled back create has its runtime peer removed exactly if the
        inspection found out about it. */
    method RollbackPeerCreate(fileMayBeProposed: bool) returns (ok: bool)
      requires Reversible() && host.plan.kind == P.Create
      requires !fileMayBeProposed ==> host.file == host.plan.original || host.stranded
      modifies host`op, host`file, host`runtime, host`alive, host`stranded, host`blind, host`run
      ensures host.Valid()
      ensures fileMayBeProposed && host.op == RolledBack ==> host.file == host.plan.original
      ensures host.op == RolledBack && host.plan.active ==> (host.runtime == P.Before <==> !host.blind)
      ensures old(host.Calm()) && fileMayBeProposed ==> host.op == RolledBack && ok
    {
      hide P.IsRun;
      ok := MarkRollingBack();
      if !ok {
        return;
      }
      var failed := false;
      if host.plan.active {
        var removing, _ := RemoveIfPresent();
        failed := removing;
      }
      if fileMayBeProposed {
        ok := RestoreFile(true);
        failed := failed || !ok;
      }
      ok := EndRollback(failed);
    }

    /** A refused transition stops the rollback of a create; an operation in
        another state goes on as it is. */
    method MarkRollingBack() returns (ok: bool)
      requires Reversible()
      modifies host`op, host`alive, host`run
      ensures Reversible() && host.Now() == old(host.Now()).(op := host.op)
      ensures old(host.Calm()) ==> ok && host.alive && host.op == RollingBack
    {
      ok := true;
      var known, state := host.GetOperationState();
      if known && (state == Executing || state == Snapshotted) {
        ok := host.TransitionOperation(state, RollingBack);
      }
    }

    /** An inspection that fails counts as an absent peer, so the peer is gone
        afterwards exactly if the inspection got through or there was none. */
    method RemoveIfPresent() returns (failed: bool, ghost inspected: bool)
      requires host.Valid() && P.Undoing(host.op) && host.plan.active && host.plan.kind == P.Create
      modifies host`runtime, host`alive, host`blind, host`run
      ensures host.Valid()
      ensures !failed ==> (host.runtime == P.Before <==> inspected || old(host.runtime) == P.Before)
      ensures !failed ==> (host.runtime == P.Before <==> !host.blind)
      ensures old(host.Calm()) ==> host.alive && inspected && !failed
    {
      failed := false;
      var looked, seen := host.InspectPeer();
      inspected := looked;
      if looked && seen != P.Before {
        var ok := host.ConfigurePeer(P.Before);
        failed := !ok;
      }
      if !looked && host.runtime != P.Before {
        host.LoseSight();
      }
    }

    method RollbackPeerUpdate(fileMayBeProposed: bool) returns (ok: bool)
      requires Reversible()
      requires !fileMayBeProposed ==> host.file == host.plan.original || host.stranded
      modifies host`op, host`file, host`runtime, host`alive, host`stranded, host`blind, host`run
      ensures host.Valid()
      ensures fileMayBeProposed && host.op == RolledBack ==> host.file == host.plan.original
      ensures old(host.Calm()) && fileMayBeProposed ==> host.op == RolledBack && ok
    {
      StartRollback();
      var failed := false;
      if fileMayBeProposed {
        ok := RestoreFile(true);
        failed := !ok;
      }
      if host.plan.active {
        ok := host.ConfigurePeer(P.Before);
        failed := failed || !ok;
      }
      ok := EndRollback(failed);
    }

    /** Like the rollback of an update, but a file that is neither of the two
        texts is no conflict. */
    method RollbackLifecycle(fileMayBeProposed: bool) returns (ok: bool)
      requires Reversible()
      requires !fileMayBeProposed ==> host.file == host.plan.original || host.stranded
      modifies host`op, host`file, host`runtime, host`alive, host`stranded, host`blind, host`run
      ensures host.Valid()
      ensures fileMayBeProposed && host.op == RolledBack ==> host.file == host.plan.original
      ensures old(host.Calm()) && fileMayBeProposed ==> host.op == RolledBack && ok
    {
      StartRollback();
      var failed := false;
      if fileMayBeProposed {
        ok := RestoreFile(false);
        failed := !ok;
      }
      if host.plan.active {
        ok := host.ConfigurePeer(P.Before);
        failed := failed || !ok;
      }
      ok := EndRollback(failed);
    }

    /** A refused transition does not stop the rollback of these kinds; the
        operation then simply stays where it was. */
    method StartRollback()
      requires Reversible()
      modifies host`op, host`alive, host`run
      ensures Reversible()
      ensures host.op == RollingBack || host.op == old(host.op)
      ensures host.Now() == old(host.Now()).(op := host.op)
      ensures old(host.Calm()) ==> host.alive && host.op == RollingBack
    {
      var known, state := host.GetOperationState();
      if known && (state == Executing || state == Snapshotted) {
        var _ := host.TransitionOperation(state, RollingBack);
      }
    }

    // ---- Restart recovery ----

    /** Resumes the operation after a restart.  An operation that it ends as
        rolled back has its original file, stranded exchange or not; and when no
        call fails, every operation ends, committed if its metadata had been
        recorded and rolled back, rejected or expired if not. */
    method Recover() returns (ok: bool)
      requires host.Valid()
      modifies host`op, host`file, host`runtime, host`alive, host`stranded, host`blind, host`run
      ensures host.Valid()
      ensures host.op == RolledBack && old(host.op) != RolledBack ==> host.file == host.plan.original
      ensures old(host.Calm()) ==> IsTerminal(host.op) && (host.op == RollbackFailed ==> old(host.op) == RollbackFailed)
      ensures old(host.Calm()) ==> (host.op == Committed <==> old(host.op) in {Verifying, Committed})
    {
      match host.op {
        case Pending =>
          ok := host.TransitionOperation(Pending, Expired);
        case Validated =>
          ok := host.TransitionOperation(Validated, Rejected);
        case Verifying =>
          ok := RecoverVerifying();
        case Snapshotted | Executing | RollingBack =>
          ok := LoadSnapshot();
          if ok {
            ok := RecoverSnapshotted();
          }
        case _ =>
          ok := true;
      }
    }

    method LoadSnapshot() returns (ok: bool)
      modifies host`alive
      ensures old(host.Calm()) ==> ok && host.alive
    {
      ok := host.Reach();
    }

    method RecoverVerifying() returns (ok: bool)
      requires host.Valid() && host.op == Verifying
      modifies host`op, host`alive, host`run
      ensures host.Valid() && host.op in {Verifying, Committed}
      ensures old(host.Calm()) ==> host.op == Committed
    {
      var read, current := host.ReadConfig();
      if !read {
        return false;
      }
      if host.proposedHash.None? || P.Hash(current) != host.proposedHash.value || host.fileHash != host.proposedHash.value {
        // The source asks for manual intervention here; without an outside
        // edit of the file the stores agree, so this never happens.
        assert false;
      }
      ok := host.TransitionOperation(Verifying, Committed);
    }

    method RecoverSnapshotted() returns (ok: bool)
      requires Reversible()
      modifies host`op, host`file, host`runtime, host`alive, host`stranded, host`blind, host`run
      ensures host.Valid()
      ensures host.op == RolledBack ==> host.file == host.plan.original
      ensures old(host.Calm()) ==> host.op == RolledBack
    {
      match host.plan.kind {
        case Create =>
          ok := RollbackPeerCreate(true);
        case Update =>
          ok := RollbackPeerUpdate(true);
        case _ =>
          ok := RollbackLifecycle(true);
      }
    }

    method Execute() returns (ok: bool)
      requires host.Valid() && host.op == Validated
      modifies host`op, host`proposedHash, host`revision, host`fileHash, host`file, host`runtime, host`alive,
               host`stranded, host`blind, host`run
      ensures host.Valid() && (ok ==> host.op == Committed)
      ensures old(host.Calm()) ==> ok
    {
      match host.plan.kind {
        case Create =>
          ok := ExecuteCreatePeer();
        case Update =>
          ok := ExecutePeerUpdate();
        case _ =>
          ok := ExecutePeerLifecycle();
      }
    }
  }

  /** Any number of incarnations of the agent, each validating and executing the
      operation or recovering it, and dying whenever it likes. */
  method Incarnations(host: Host, count: nat)
    requires host.Valid()
    modifies host
    ensures host.Valid()
    ensures host.op == Committed ==>
              && host.file == host.plan.proposed && host.fileHash == P.Hash(host.file)
              && host.revision == host.plan.expected + 1 && (host.plan.active ==> host.runtime == P.After)
    ensures host.op == RolledBack ==>
              && host.revision == host.plan.expected && host.fileHash == P.Hash(host.plan.original)
              && (host.plan.original != host.plan.proposed ==> (host.file == host.plan.original <==> !host.stranded))
              && (host.plan.active ==> (host.runtime == P.Before <==> !host.blind))
              && (host.blind ==> host.plan.kind == P.Create)
  {
    var service := new Service(host);
    var round := 0;
    while round < count
      invariant host.Valid()
    {
      host.Restart(false);
      var execute: bool := *;
      if execute {
        if host.op == Pending {
          var _ := host.TransitionOperation(Pending, Validated);
        }
        if host.op == Validated {
          var _ := service.Execute();
        }
      } else {
        var _ := service.Recover();
      }
      round := round + 1;
    }
    P.StoresAgree(host.plan, host.run, |host.run| - 1);
  }
}
