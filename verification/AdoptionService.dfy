/** The adoption service: committing an adoption and recovering it after a
    restart, over transactions that may fail and a process that may crash at any
    call. */
module AdoptionService {
  import opened EngineProtocol
  import opened Text
  import opened Prefixes
  import A = AdoptionTables
  import S = AdoptionStore

  type Tables = A.Tables
  type Id = A.Id

  /** What the adoption reads besides the tables it changes: the interface's
      addresses and its active AllowedIPs rows, its peers, and new identifiers. */
  datatype Inventory = Inventory(addresses: seq<Option<Prefix>>, rows: seq<Id>, peers: seq<Id>, ids: nat -> Id)

  ghost predicate ValidInventory(t: Tables, inventory: Inventory) {
    && (forall i :: 0 <= i < |inventory.addresses| && inventory.addresses[i].Some? ==> ValidPrefix(inventory.addresses[i].value))
    && (forall id :: id in inventory.rows ==> id in t.allowed)
    && (forall i, j :: 0 <= i < j < |inventory.rows| ==> inventory.rows[i] != inventory.rows[j])
  }

  datatype Taken = Taken(id: Id, body: string, secrets: seq<A.Secret>)

  datatype Made = Made(imports: seq<A.Import>, peers: seq<Id>, ids: A.Fresh)

  ghost predicate TakenFrom(start: Tables, snapshot: Tables, taken: Taken) {
    A.Snapshotted(start, taken.id, taken.body, taken.secrets) == Some(snapshot)
  }

  ghost predicate AdoptedBy(snapshot: Tables, adopted: Tables, terms: A.Terms, made: Made) {
    && |made.ids.profiles| >= |made.peers|
    && A.AllReadRight(snapshot, made.imports) && A.Unattached(snapshot, made.peers)
    && A.AdoptedTables(snapshot, terms, made.imports, made.peers, made.ids) == Some(adopted)
  }

  /** Staged ownership made permanent. */
  function Finalized(t: Tables): Tables {
    t.(staged := map[], ledger := map[])
  }

  /** As before the operation, with the snapshot left behind. */
  ghost predicate BackTo(start: Tables, t: Tables, terms: A.Terms, taken: Taken) {
    var restored := A.Restored(start, taken.id, taken.body);
    || t == restored
    || t == restored.(interface := start.interface.(last := A.PreviousRevision(start, terms), drift := A.UnknownDrift))
  }

  /** What the tables hold in every state of the operation. */
  ghost predicate Holds(op: State, t: Tables, start: Tables, terms: A.Terms, taken: Taken, snapshot: Tables, made: Made,
                        adopted: Tables)
  {
    && (op !in {Pending, Validated, Rejected, Expired} ==> TakenFrom(start, snapshot, taken))
    && match op
       case Pending | Validated | Rejected | Expired => t == start
       case Snapshotted | Executing => t == snapshot
       case Verifying => t == adopted && AdoptedBy(snapshot, adopted, terms, made)
       case Committed => t == Finalized(adopted) && AdoptedBy(snapshot, adopted, terms, made)
       case RollingBack | RollbackFailed => t == snapshot || (t == adopted && AdoptedBy(snapshot, adopted, terms, made))
       case RolledBack => BackTo(start, t, terms, taken)
  }

  lemma TransitionHolds(from: State, to: State, t: Tables, start: Tables, terms: A.Terms, taken: Taken, snapshot: Tables,
                        made: Made, adopted: Tables)
    requires Holds(from, t, start, terms, taken, snapshot, made, adopted) && ValidOperationTransition(from, to)
    requires to !in {Snapshotted, Verifying, Committed, RolledBack}
    ensures Holds(to, t, start, terms, taken, snapshot, made, adopted)
  {
    hide TakenFrom, AdoptedBy, BackTo, Finalized;
  }

  class Database {
    const terms: A.Terms
    const inventory: Inventory
    var op: State
    var t: Tables
    var alive: bool
    var reliable: bool
    ghost const start: Tables
    ghost var taken: Taken
    ghost var snapshot: Tables
    ghost var made: Made
    ghost var adopted: Tables

    ghost predicate Valid()
      reads this`op, this`t, this`taken, this`snapshot, this`made, this`adopted
    {
      && A.Sound(start) && A.Untouched(start) && ValidInventory(start, inventory)
      && start.interface.mode == A.Observed && start.interface.revision == terms.expected
      && Holds(op, t, start, terms, taken, snapshot, made, adopted)
    }

    ghost predicate Calm()
      reads this
    {
      alive && reliable
    }

    constructor (t: Tables, terms: A.Terms, inventory: Inventory)
      requires A.Sound(t) && A.Untouched(t) && ValidInventory(t, inventory)
      requires t.interface.mode == A.Observed && t.interface.revision == terms.expected
      ensures Valid() && op == Pending && this.t == t && start == t && this.terms == terms && this.inventory == inventory
    {
      this.t, this.terms, this.inventory := t, terms, inventory;
      op, alive, reliable := Pending, true, false;
      start, snapshot, adopted := t, t, t;
      taken, made := Taken("", "", []), Made([], [], A.Fresh("", []));
    }

    /** Decides whether a call from the process gets through. */
    method Reach() returns (ok: bool)
      modifies this`alive
      ensures ok ==> alive
      ensures alive ==> old(alive)
      ensures old(Calm()) ==> ok
    {
      if alive && !reliable {
        alive := *;
      }
      ok := alive;
      if alive && !reliable {
        ok := *;
      }
    }

    /** Compare-and-set of the operation's state alone. */
    method TransitionOperation(from: State, to: State) returns (ok: bool)
      requires Valid() && (from == op ==> ValidOperationTransition(from, to))
      requires to !in {Snapshotted, Verifying, Committed, RolledBack}
      modifies this`op, this`alive
      ensures Valid()
      ensures op == if ok then to else old(op)
      ensures ok ==> old(op) == from
      ensures old(Calm()) ==> alive && ok == (old(op) == from)
    {
      hide Holds, ValidOperationTransition, A.Sound, A.Untouched, ValidInventory;
      ok := Reach();
      if ok && op == from {
        TransitionHolds(from, to, t, start, terms, taken, snapshot, made, adopted);
        op := to;
      } else {
        ok := false;
      }
    }

    method SnapshotOperation(id: Id, body: string, secrets: seq<A.Secret>) returns (ok: bool)
      requires Valid()
      modifies this`op, this`t, this`alive, this`taken, this`snapshot
      ensures Valid()
      ensures if ok then old(op) == Validated && op == Snapshotted else op == old(op) && t == old(t)
      ensures old(Calm()) ==> alive
    {
      ok := Reach();
      if !ok || op != Validated {
        return false;
      }
      var next := Stage(t, id, body, secrets);
      if next.None? {
        return false;
      }
      taken, snapshot := Taken(id, body, secrets), next.value;
      t, op := next.value, Snapshotted;
    }

    /** The adopting transaction: all of it or nothing.  It goes through exactly if
        the interface is eligible, the addresses and rows can be planned, and the
        tables take every row of the plan. */
    method ApplyAdoption() returns (ok: bool, ghost pools: seq<A.PoolRow>, ghost tried: Made)
      requires Valid()
      modifies this`op, this`t, this`alive, this`made, this`adopted
      ensures Valid()
      ensures if ok then old(op) == Executing && op == Verifying else op == old(op) && t == old(t)
      ensures ok ==> t.interface.mode == A.Adopted && t.interface.revision == terms.expected + 1
                     && t.interface.fileHash == terms.fileHash
      ensures ok ==> CanAdopt(old(t), terms, inventory, pools, tried)
      ensures old(Calm()) ==> alive && (ok <==> old(op) == Executing && CanAdopt(old(t), terms, inventory, pools, tried))
      ensures old(Calm()) && old(op) == Executing && A.Eligible(old(t), terms) && terms.expected + 1 !in old(t).revisions ==>
                PlannedFrom(old(t), inventory, pools, tried)
    {
      hide Holds, PlannedFrom, Adoptable, AdoptedBy, A.AdoptedTables, A.Sound, A.Untouched, ValidInventory, A.Eligible;
      pools, tried := [], Made([], [], A.Fresh("", []));
      ok := Reach();
      if !ok || op != Executing || !A.Eligible(t, terms) || terms.expected + 1 in t.revisions {
        ok := false;
        return;
      }
      ExecutingHolds(t, start, terms, taken, snapshot, made, adopted, inventory);
      var next;
      next, tried, pools := Adopt(t, terms, inventory);
      if next.None? {
        ok := false;
        return;
      }
      made, adopted := tried, next.value;
      AdoptedHolds(start, terms, taken, snapshot, made, adopted);
      t, op := next.value, Verifying;
    }

    method FinalizeAdoption() returns (ok: bool)
      requires Valid()
      modifies this`op, this`t, this`alive
      ensures Valid()
      ensures if ok then old(op) == Verifying && op == Committed else op == old(op) && t == old(t)
      ensures old(Calm()) ==> alive && ok == (old(op) == Verifying)
    {
      ok := Reach();
      if !ok || op != Verifying {
        return false;
      }
      t, op := Finalized(t), Committed;
    }

    /** The rolling back transaction.  From any state it is called in it gives
        the tables back; it never refuses. */
    method RollbackAdoption() returns (ok: bool)
      requires Valid()
      modifies this`op, this`t, this`alive
      ensures Valid()
      ensures if ok then old(op) == RollingBack && op == RolledBack else op == old(op) && t == old(t)
      ensures old(Calm()) ==> alive && ok == (old(op) == RollingBack)
    {
      ok := Reach();
      if !ok || op != RollingBack {
        return false;
      }
      if t == snapshot {
        A.RollbackAfterSnapshot(start, t, terms, taken.id, taken.body, taken.secrets);
      } else {
        A.RollbackAfterAdoption(start, snapshot, t, terms, taken.id, taken.body, taken.secrets,
                                made.imports, made.peers, made.ids);
      }
      var next := S.RollBack(t, terms);
      t, op := next.value, RolledBack;
    }
  }

  method Stage(start: Tables, id: Id, body: string, secrets: seq<A.Secret>) returns (t: Option<Tables>)
    ensures t == A.Snapshotted(start, id, body, secrets)
  {
    if id in start.envelopes {
      return None;
    }
    var next := start.(envelopes := start.envelopes[id := body]);
    for i := 0 to |secrets|
      invariant A.StagedAll(next, secrets[i..]) == A.Snapshotted(start, id, body, secrets)
    {
      var s := secrets[i];
      assert secrets[i..][0] == s && secrets[i..][1..] == secrets[i + 1..];
      if s.id in next.envelopes || s.peer in next.staged {
        return None;
      }
      next := next.(envelopes := next.envelopes[s.id := s.body],
                    staged := next.staged[s.peer := A.Staged(s.id, None, None, false)]);
    }
    return Some(next);
  }

  lemma SnapshotAdoptable(start: Tables, snapshot: Tables, taken: Taken, inventory: Inventory)
    requires A.Sound(start) && A.Untouched(start) && ValidInventory(start, inventory) && TakenFrom(start, snapshot, taken)
    ensures A.Sound(snapshot) && snapshot.ledger == map[] && ValidInventory(snapshot, inventory)
    ensures forall p :: p in snapshot.staged ==> snapshot.staged[p].profile == None
  {
    A.SnapshotHas(start, taken.id, taken.body, taken.secrets);
  }

  lemma AdoptedInterface(snapshot: Tables, adopted: Tables, terms: A.Terms, made: Made)
    requires A.Sound(snapshot) && snapshot.ledger == map[] && AdoptedBy(snapshot, adopted, terms, made)
    requires forall p :: p in snapshot.staged ==> snapshot.staged[p].profile == None
    ensures adopted.interface.mode == A.Adopted && adopted.interface.revision == terms.expected + 1
    ensures adopted.interface.fileHash == terms.fileHash
  {
    A.AdoptionUndone(snapshot, terms, made.imports, made.peers, made.ids);
  }

  lemma ExecutingHolds(t: Tables, start: Tables, terms: A.Terms, taken: Taken, snapshot: Tables, made: Made,
                       adopted: Tables, inventory: Inventory)
    requires A.Sound(start) && A.Untouched(start) && ValidInventory(start, inventory)
    requires Holds(Executing, t, start, terms, taken, snapshot, made, adopted)
    ensures t == snapshot && TakenFrom(start, snapshot, taken) && A.Sound(snapshot) && snapshot.ledger == map[]
    ensures ValidInventory(t, inventory) && forall p :: p in t.staged ==> t.staged[p].profile == None
  {
    SnapshotAdoptable(start, snapshot, taken, inventory);
  }

  lemma AdoptedHolds(start: Tables, terms: A.Terms, taken: Taken, snapshot: Tables, made: Made, adopted: Tables)
    requires A.Sound(snapshot) && snapshot.ledger == map[] && AdoptedBy(snapshot, adopted, terms, made)
    requires (forall p :: p in snapshot.staged ==> snapshot.staged[p].profile == None) && TakenFrom(start, snapshot, taken)
    ensures Holds(Verifying, adopted, start, terms, taken, snapshot, made, adopted)
    ensures adopted.interface.mode == A.Adopted && adopted.interface.revision == terms.expected + 1
    ensures adopted.interface.fileHash == terms.fileHash
  {
    hide AdoptedBy, TakenFrom, A.Sound;
    AdoptedInterface(snapshot, adopted, terms, made);
  }

  method ListMissing(t: Tables, peers: seq<Id>) returns (missing: seq<Id>)
    ensures forall p :: p in missing <==> p in peers && p !in t.profiles
  {
    missing := [];
    for i := 0 to |peers|
      invariant forall p :: p in missing <==> p in peers[..i] && p !in t.profiles
    {
      assert peers[..i + 1] == peers[..i] + [peers[i]];
      if peers[i] !in t.profiles {
        missing := missing + [peers[i]];
      }
    }
    assert peers[..|peers|] == peers;
  }

  function ProfileIds(count: nat, ids: nat -> Id): (r: seq<Id>)
    ensures |r| == count
  {
    seq(count, i requires 0 <= i < count => ids(i + 3000))
  }

  /** The interface has addresses, all of them valid, and one in every network. */
  ghost predicate Addressed(t: Tables, inventory: Inventory)
    requires ValidInventory(t, inventory)
  {
    && inventory.addresses != [] && (forall i :: 0 <= i < |inventory.addresses| ==> inventory.addresses[i].Some?)
    && !S.TwoGateways(inventory.addresses)
  }

  /** The addresses give a pool each, and the rows fit the pools. */
  ghost predicate Adoptable(t: Tables, inventory: Inventory, pools: seq<A.PoolRow>)
    requires ValidInventory(t, inventory)
  {
    Addressed(t, inventory) && S.ValidPools(pools) && S.Plannable(t, pools, inventory.rows)
  }

  /** One pool for every network, in some order. */
  ghost predicate PoolsOf(t: Tables, inventory: Inventory, pools: seq<A.PoolRow>)
    requires ValidInventory(t, inventory)
  {
    && S.ValidPools(pools) && (forall i, j :: 0 <= i < j < |pools| ==> pools[i].cidr != pools[j].cidr)
    && forall pool :: pool in pools <==> S.HasPool(inventory.addresses, pool)
  }

  /** The imports planned for the rows, a profile for every peer without one, and
      the peers with staged secrets. */
  ghost predicate MadeFrom(t: Tables, inventory: Inventory, pools: seq<A.PoolRow>, made: Made)
    requires S.ValidPools(pools)
  {
    && (forall p :: p in made.peers <==> p in t.staged)
    && (forall i, j :: 0 <= i < j < |made.peers| ==> made.peers[i] != made.peers[j])
    && made.ids == A.Fresh(inventory.ids(0), ProfileIds(|made.peers|, inventory.ids))
    && exists assignments, missing {:trigger S.ImportList(S.Plan(pools, assignments), missing, inventory.ids)} ::
         && S.PlannedAll(assignments, t, pools, inventory.rows)
         && (forall p :: p in missing <==> p in inventory.peers && p !in t.profiles)
         && made.imports == S.ImportList(S.Plan(pools, assignments), missing, inventory.ids)
  }

  /** As far as there is a plan, it was made from the tables and the inventory. */
  ghost predicate PlannedFrom(t: Tables, inventory: Inventory, pools: seq<A.PoolRow>, made: Made) {
    && ValidInventory(t, inventory)
    && (Addressed(t, inventory) ==> PoolsOf(t, inventory, pools))
    && (Adoptable(t, inventory, pools) ==> MadeFrom(t, inventory, pools, made))
  }

  /** Every condition of the adoption: eligible, planned, and no key of the tables
      refuses a row. */
  ghost predicate CanAdopt(t: Tables, terms: A.Terms, inventory: Inventory, pools: seq<A.PoolRow>, made: Made) {
    && ValidInventory(t, inventory)
    && A.Eligible(t, terms) && terms.expected + 1 !in t.revisions
    && Adoptable(t, inventory, pools) && PlannedFrom(t, inventory, pools, made)
    && |made.ids.profiles| >= |made.peers| && A.AdoptedTables(t, terms, made.imports, made.peers, made.ids).Some?
  }

  /** Plans what the adoption will write; refuses exactly what cannot be adopted. */
  method PlanAdoption(t: Tables, inventory: Inventory)
    returns (planned: bool, plan: S.Plan, missing: seq<Id>, made: Made, ghost pools: seq<A.PoolRow>)
    requires ValidInventory(t, inventory)
    ensures planned <==> Adoptable(t, inventory, pools)
    ensures PlannedFrom(t, inventory, pools, made)
    ensures planned ==> made.imports == S.ImportList(plan, missing, inventory.ids) && A.AllReadRight(t, made.imports)
  {
    planned, plan, missing, pools := false, S.Plan([], []), [], [];
    made := Made([], [], A.Fresh("", []));
    var addressed, poolRows := S.PlanPools(inventory.addresses);
    if !addressed {
      return;
    }
    pools := poolRows;
    var complete, assignments := S.PlanAssignments(t, poolRows, inventory.rows);
    if !complete {
      return;
    }
    planned, plan := true, S.Plan(poolRows, assignments);
    missing := ListMissing(t, inventory.peers);
    var peers := S.ListPeers(t.staged);
    made := Made(S.ImportList(plan, missing, inventory.ids), peers,
                 A.Fresh(inventory.ids(0), ProfileIds(|peers|, inventory.ids)));
    S.PlanReadsRight(t, plan, inventory.rows, missing, inventory.ids);
  }

  lemma NoProfileYet(t: Tables, inventory: Inventory, pools: seq<A.PoolRow>, made: Made)
    requires forall p :: p in t.staged ==> t.staged[p].profile == None
    requires S.ValidPools(pools) && MadeFrom(t, inventory, pools, made)
    ensures A.Unattached(t, made.peers) && |made.ids.profiles| == |made.peers|
  {
  }

  /** Plans and makes the imports and attaches the staged secrets; gives up only
      if the plan cannot be made or a key of the tables refuses one of its rows. */
  method Adopt(t: Tables, terms: A.Terms, inventory: Inventory)
    returns (adopted: Option<Tables>, made: Made, ghost pools: seq<A.PoolRow>)
    requires ValidInventory(t, inventory) && A.Eligible(t, terms) && terms.expected + 1 !in t.revisions
    requires forall p :: p in t.staged ==> t.staged[p].profile == None
    ensures PlannedFrom(t, inventory, pools, made)
    ensures adopted.Some? ==> Adoptable(t, inventory, pools) && AdoptedBy(t, adopted.value, terms, made)
    ensures Adoptable(t, inventory, pools) ==>
              |made.ids.profiles| >= |made.peers| && A.AdoptedTables(t, terms, made.imports, made.peers, made.ids) == adopted
  {
    hide Adoptable, MadeFrom, PoolsOf, A.AllReadRight, A.Unattached;
    adopted := None;
    var planned, plan, missing;
    planned, plan, missing, made, pools := PlanAdoption(t, inventory);
    if !planned {
      return;
    }
    PlannedFit(t, inventory, pools, made);
    var imported := S.ImportMetadata(A.WithRevision(t, terms, made.ids.revision), plan, missing, inventory.ids);
    if imported.None? {
      return;
    }
    adopted := S.AttachStaged(imported.value, made.peers, made.ids.profiles);
  }

  lemma PlannedFit(t: Tables, inventory: Inventory, pools: seq<A.PoolRow>, made: Made)
    requires ValidInventory(t, inventory) && PlannedFrom(t, inventory, pools, made) && Adoptable(t, inventory, pools)
    requires forall p :: p in t.staged ==> t.staged[p].profile == None
    ensures A.Unattached(t, made.peers) && |made.ids.profiles| == |made.peers|
  {
    NoProfileYet(t, inventory, pools, made);
  }

  class Service {
    const db: Database

    constructor (db: Database)
      ensures this.db == db
    {
      this.db := db;
    }

    /** Steps that change no table and may fail. */
    method Prepare() returns (ok: bool)
      modifies db`alive
      ensures db.alive ==> old(db.alive)
      ensures old(db.Calm()) ==> ok && db.alive
    {
      ok := db.Reach();
      if ok && !db.reliable {
        ok := *;
      }
    }

    method RejectValidated()
      requires db.Valid()
      modifies db`op, db`alive
      ensures db.Valid()
      ensures old(db.Calm()) && old(db.op) == Validated ==> db.op == Rejected
    {
      var _ := db.TransitionOperation(Validated, Rejected);
    }

    method Commit(id: Id, body: string, secrets: seq<A.Secret>, expired: bool) returns (ok: bool)
      requires db.Valid() && db.op == Pending
      modifies db`op, db`t, db`alive, db`taken, db`snapshot, db`made, db`adopted
      ensures db.Valid() && (ok ==> db.op == Committed)
      ensures old(db.Calm()) && expired ==> db.op == Expired
      ensures old(db.Calm()) && !expired && !ok ==> db.op in {Rejected, RolledBack}
    {
      hide Database.Valid;
      if expired {
        var _ := db.TransitionOperation(Pending, Expired);
        return false;
      }
      ok := Prepare();
      if !ok {
        return;
      }
      ok := db.TransitionOperation(Pending, Validated);
      if !ok {
        return;
      }
      ok := Prepare();
      if !ok {
        RejectValidated();
        return;
      }
      ok := db.SnapshotOperation(id, body, secrets);
      if !ok {
        RejectValidated();
        return;
      }
      ok := db.TransitionOperation(Snapshotted, Executing);
      if !ok {
        return;
      }
      ok := CommitExecuting();
    }

    /** The adopting transaction, its verification and the commit. */
    method CommitExecuting() returns (ok: bool)
      requires db.Valid() && db.op == Executing
      modifies db`op, db`t, db`alive, db`made, db`adopted
      ensures db.Valid() && (ok ==> db.op == Committed)
      ensures old(db.Calm()) ==> db.op == if ok then Committed else RolledBack
    {
      hide Database.Valid, CanAdopt, PlannedFrom, A.Eligible;
      var applied, _, _ := db.ApplyAdoption();
      if !applied {
        ok := false;
        var _ := TakeBack();
        return;
      }
      ok := Verified();
      if !ok {
        var _ := TakeBack();
        return;
      }
      ok := db.FinalizeAdoption();
    }

    /** The interface reads back as adopted. */
    method Verified() returns (ok: bool)
      modifies db`alive
      ensures ok ==> db.t.interface.mode == A.Adopted && db.t.interface.revision == db.terms.expected + 1
      ensures old(db.Calm()) ==> db.alive
      ensures old(db.Calm()) && db.t.interface.mode == A.Adopted && db.t.interface.revision == db.terms.expected + 1 ==> ok
    {
      ok := db.Reach();
      ok := ok && db.t.interface.mode == A.Adopted && db.t.interface.revision == db.terms.expected + 1;
    }

    method RollbackOrBlock() returns (ok: bool)
      requires db.Valid() && db.op == RollingBack
      modifies db`op, db`t, db`alive
      ensures db.Valid() && db.op in {RollingBack, RolledBack, RollbackFailed}
      ensures old(db.Calm()) ==> db.op == RolledBack
    {
      ok := db.RollbackAdoption();
      if !ok {
        var _ := db.TransitionOperation(RollingBack, RollbackFailed);
      }
    }

    method TakeBack() returns (ok: bool)
      requires db.Valid() && db.op in {Executing, Verifying}
      modifies db`op, db`t, db`alive
      ensures db.Valid() && db.op in {old(db.op), RollingBack, RolledBack, RollbackFailed}
      ensures old(db.Calm()) ==> db.op == RolledBack
    {
      ok := db.TransitionOperation(db.op, RollingBack);
      if ok {
        ok := RollbackOrBlock();
      }
    }

    /** Resolves the operation after a restart.  When no call fails it ends, and
        an operation that had been executing ends committed or rolled back. */
    method RecoverOne() returns (ok: bool)
      requires db.Valid()
      modifies db`op, db`t, db`alive, db`made, db`adopted
      ensures db.Valid()
      ensures old(db.Calm()) ==> IsTerminal(db.op) && (db.op == RollbackFailed ==> old(db.op) == RollbackFailed)
      ensures old(db.Calm()) && old(db.op) == Verifying ==> db.op == Committed
    {
      ok := true;
      match db.op {
        case Pending =>
          ok := db.TransitionOperation(Pending, Expired);
        case Validated =>
          ok := db.TransitionOperation(Validated, Rejected);
        case Snapshotted =>
          ok := db.TransitionOperation(Snapshotted, RollingBack);
          if ok {
            ok := RollbackOrBlock();
          }
        case Executing =>
          ok := RecoverExecuting();
        case Verifying =>
          ok := RecoverVerifying();
        case RollingBack =>
          ok := RollbackOrBlock();
        case _ =>
      }
    }

    method RecoverExecuting() returns (ok: bool)
      requires db.Valid() && db.op == Executing
      modifies db`op, db`t, db`alive, db`made, db`adopted
      ensures db.Valid()
      ensures old(db.Calm()) ==> db.op in {Committed, RolledBack}
    {
      hide Database.Valid, CanAdopt, PlannedFrom, A.Eligible;
      var applied, _, _ := db.ApplyAdoption();
      if applied {
        ok := RecoverVerifying();
        return;
      }
      ok := TakeBack();
    }

    method RecoverVerifying() returns (ok: bool)
      requires db.Valid() && db.op == Verifying
      modifies db`op, db`t, db`alive
      ensures db.Valid()
      ensures old(db.Calm()) ==> db.op == Committed
    {
      A.SnapshotHas(db.start, db.taken.id, db.taken.body, db.taken.secrets);
      AdoptedInterface(db.snapshot, db.adopted, db.terms, db.made);
      ok := Verified();
      if ok && db.t.interface.fileHash == db.terms.fileHash {
        ok := db.FinalizeAdoption();
        return;
      }
      ok := TakeBack();
    }
  }

  /** Any number of incarnations of the agent, committing or recovering. */
  method Incarnations(db: Database, id: Id, body: string, secrets: seq<A.Secret>, count: nat)
    requires db.Valid()
    modifies db
    ensures db.Valid()
    ensures db.op == Committed ==> AdoptedBy(db.snapshot, db.adopted, db.terms, db.made) && db.t == Finalized(db.adopted)
    ensures db.op == RolledBack ==> BackTo(db.start, db.t, db.terms, db.taken)
    ensures db.op in {Rejected, Expired} ==> db.t == db.start
  {
    var service := new Service(db);
    var round := 0;
    while round < count
      invariant db.Valid()
    {
      db.alive, db.reliable := true, false;
      var commit: bool := *;
      if commit && db.op == Pending {
        var expired: bool := *;
        var _ := service.Commit(id, body, secrets, expired);
      } else {
        var _ := service.RecoverOne();
      }
      round := round + 1;
    }
  }
}
