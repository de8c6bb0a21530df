/** The rows an adoption touches, and why rolling back is a left inverse of adopting. */
module AdoptionTables {
  // Each transaction is a function of the tables.  Timestamps, audit rows and the
  // rows of other operations are not part of the model.

  import opened Text
  import opened Prefixes

  type Id = string

  datatype Purpose = TunnelAddress | RoutedSubnet

  datatype Mode = Observed | Adopted | Managed

  datatype Drift = NoDrift | UnknownDrift | OtherDrift

  /** A client profile, filed under its peer, of which it has one at most. */
  datatype Profile = Profile(id: Id, psk: Option<Id>, details: string)

  datatype PoolRow = PoolRow(cidr: Prefix, gateway: Addr)

  datatype AllocationRow = AllocationRow(pool: Id, peer: Id, address: Addr)

  datatype AllowedRow = AllowedRow(peer: Id, cidr: Prefix, purpose: Purpose)

  /** A secret staged for a peer; the last three fields record what attaching it
      changed. */
  datatype Staged = Staged(envelope: Id, profile: Option<Id>, previous: Option<Id>, created: bool)

  datatype Kind = ClientProfile | AddressPool | AddressAllocation | AllowedIpPurpose

  datatype LedgerKey = LedgerKey(kind: Kind, id: Id)

  datatype Interface = Interface(mode: Mode, wgQuick: bool, saveConfig: bool, fileHash: string,
                                 revision: nat, last: Option<Id>, drift: Drift)

  /** A configuration revision, filed under its sequence number. */
  datatype Revision = Revision(id: Id, operation: Option<Id>)

  datatype Tables = Tables(
    interface: Interface, revisions: map<nat, Revision>, profiles: map<Id, Profile>, pools: map<Id, PoolRow>,
    allocations: map<Id, AllocationRow>, allowed: map<Id, AllowedRow>, envelopes: map<Id, string>,
    staged: map<Id, Staged>, ledger: map<LedgerKey, Option<Purpose>>)

  /** What foreign keys guarantee, as far as the proofs need it. */
  ghost predicate Sound(t: Tables) {
    && (forall id :: id in t.allocations ==> t.allocations[id].pool in t.pools)
    && (forall peer :: peer in t.profiles && t.profiles[peer].psk.Some? ==> t.profiles[peer].psk.value in t.envelopes)
    && (forall p, q :: p in t.profiles && q in t.profiles && t.profiles[p].id == t.profiles[q].id ==> p == q)
  }

  // ---- Imports, with their ledger ----

  datatype Import =
    | CreateProfile(peer: Id, id: Id)
    | CreatePool(id: Id, pool: PoolRow)
    | SetPurpose(id: Id, previous: Purpose, purpose: Purpose)
    | CreateAllocation(id: Id, row: AllocationRow)

  function KeyOf(i: Import): LedgerKey {
    match i
    case CreateProfile(_, id) => LedgerKey(ClientProfile, id)
    case CreatePool(id, _) => LedgerKey(AddressPool, id)
    case SetPurpose(id, _, _) => LedgerKey(AllowedIpPurpose, id)
    case CreateAllocation(id, _) => LedgerKey(AddressAllocation, id)
  }

  function Previous(i: Import): Option<Purpose> {
    match i case SetPurpose(_, previous, _) => Some(previous) case _ => None
  }

  /** A unique or foreign key refuses the row. */
  predicate Refused(t: Tables, i: Import) {
    || KeyOf(i) in t.ledger
    || match i
       case CreateProfile(peer, id) => peer in t.profiles || exists p :: p in t.profiles && t.profiles[p].id == id
       case CreatePool(id, pool) => id in t.pools || exists p :: p in t.pools && t.pools[p].cidr == pool.cidr
       case SetPurpose(_, _, _) => false
       case CreateAllocation(id, row) =>
         || id in t.allocations || row.pool !in t.pools
         || exists a :: a in t.allocations && t.allocations[a].pool == row.pool && t.allocations[a].address == row.address
  }

  function Inserted(t: Tables, i: Import): Tables {
    match i
    case CreateProfile(peer, id) => t.(profiles := t.profiles[peer := Profile(id, None, "external")])
    case CreatePool(id, pool) => t.(pools := t.pools[id := pool])
    case SetPurpose(id, _, purpose) =>
      if id in t.allowed then t.(allowed := t.allowed[id := t.allowed[id].(purpose := purpose)]) else t
    case CreateAllocation(id, row) => t.(allocations := t.allocations[id := row])
  }

  function DoImport(t: Tables, i: Import): Option<Tables> {
    if Refused(t, i) then None
    else Some(Inserted(t, i).(ledger := t.ledger[KeyOf(i) := Previous(i)]))
  }

  function DoImports(t: Tables, imports: seq<Import>): Option<Tables>
    decreases |imports|
  {
    if imports == [] then Some(t) else
      match DoImport(t, imports[0])
      case None => None
      case Some(next) => DoImports(next, imports[1..])
  }

  lemma {:induction false} DoImportsMore(t: Tables, imports: seq<Import>, i: Import)
    ensures DoImports(t, imports + [i]) ==
            match DoImports(t, imports) case None => None case Some(next) => DoImport(next, i)
    decreases |imports|
  {
    if imports != [] {
      assert (imports + [i])[1..] == imports[1..] + [i];
      if DoImport(t, imports[0]).Some? {
        DoImportsMore(DoImport(t, imports[0]).value, imports[1..], i);
      }
    } else {
      assert [i][1..] == [];
    }
  }

  /** The import is there. */
  predicate Present(t: Tables, i: Import) {
    && KeyOf(i) in t.ledger
    && match i
       case CreateProfile(peer, id) => peer in t.profiles && t.profiles[peer].id == id
       case CreatePool(id, pool) => id in t.pools && t.pools[id] == pool
       case SetPurpose(id, _, purpose) => id in t.allowed ==> t.allowed[id].purpose == purpose
       case CreateAllocation(id, row) => id in t.allocations && t.allocations[id] == row
  }

  /** Every import made stays: the ledger's key sees to it that none is made twice. */
  lemma {:induction false} ImportsPresent(t: Tables, imports: seq<Import>, i: Import)
    requires DoImports(t, imports).Some? && (i in imports || Present(t, i))
    ensures Present(DoImports(t, imports).value, i)
    decreases |imports|
  {
    if imports != [] {
      ImportKeeps(t, imports[0], i);
      FirstAndRest(imports);
      ImportsPresent(DoImport(t, imports[0]).value, imports[1..], i);
    }
  }

  lemma AllowedStep(t: Tables, i: Import)
    requires DoImport(t, i).Some?
    ensures var next := DoImport(t, i).value.allowed;
            && next.Keys == t.allowed.Keys
            && (forall id :: id in t.allowed && !(i.SetPurpose? && i.id == id) ==> next[id] == t.allowed[id])
  {
    hide Refused, Previous;
  }

  /** The rows stay, and a row whose purpose no import sets stays as it is. */
  lemma {:induction false} AllowedKept(t: Tables, imports: seq<Import>)
    requires DoImports(t, imports).Some?
    ensures var next := DoImports(t, imports).value.allowed;
            && next.Keys == t.allowed.Keys
            && (forall id :: id in t.allowed && (forall i :: i in imports ==> !(i.SetPurpose? && i.id == id)) ==>
                  next[id] == t.allowed[id])
    decreases |imports|
  {
    if imports != [] {
      FirstAndRest(imports);
      AllowedStep(t, imports[0]);
      AllowedKept(DoImport(t, imports[0]).value, imports[1..]);
    }
  }

  lemma ImportKeeps(t: Tables, made: Import, i: Import)
    requires DoImport(t, made).Some?
    ensures Present(DoImport(t, made).value, made)
    ensures Present(t, i) ==> Present(DoImport(t, made).value, i)
  {
  }

  /** Purposes are recorded as they are read in the same transaction. */
  predicate ReadsRight(t: Tables, i: Import) {
    i.SetPurpose? && i.id in t.allowed ==> t.allowed[i.id].purpose == i.previous
  }

  predicate AllReadRight(t: Tables, imports: seq<Import>) {
    && (forall i :: 0 <= i < |imports| ==> ReadsRight(t, imports[i]))
    && (forall i, j :: 0 <= i < j < |imports| && imports[i].SetPurpose? && imports[j].SetPurpose? ==>
          imports[i].id != imports[j].id)
  }

  // ---- Taking imports back ----

  type Ledger = map<LedgerKey, Option<Purpose>>

  function OldPurpose(ledger: Ledger, id: Id, purpose: Purpose): Purpose {
    var key := LedgerKey(AllowedIpPurpose, id);
    if key in ledger && ledger[key].Some? then ledger[key].value else purpose
  }

  function UndoneAllowed(allowed: map<Id, AllowedRow>, ledger: Ledger): map<Id, AllowedRow> {
    map id | id in allowed :: allowed[id].(purpose := OldPurpose(ledger, id, allowed[id].purpose))
  }

  /** Removing a pool removes its allocations with it. */
  function UndoneAllocations(allocations: map<Id, AllocationRow>, ledger: Ledger): map<Id, AllocationRow> {
    map id | id in allocations && LedgerKey(AddressAllocation, id) !in ledger
             && LedgerKey(AddressPool, allocations[id].pool) !in ledger :: allocations[id]
  }

  function UndoneProfiles(profiles: map<Id, Profile>, ledger: Ledger): map<Id, Profile> {
    map p | p in profiles && LedgerKey(ClientProfile, profiles[p].id) !in ledger :: profiles[p]
  }

  function UndonePools(pools: map<Id, PoolRow>, ledger: Ledger): map<Id, PoolRow> {
    map id | id in pools && LedgerKey(AddressPool, id) !in ledger :: pools[id]
  }

  /** The ledger taken back: old purposes, and without the rows it lists. */
  function Undone(t: Tables): Tables {
    t.(allowed := UndoneAllowed(t.allowed, t.ledger), allocations := UndoneAllocations(t.allocations, t.ledger),
       profiles := UndoneProfiles(t.profiles, t.ledger), pools := UndonePools(t.pools, t.ledger), ledger := map[])
  }

  lemma OtherKinds(t: Tables, key: LedgerKey, value: Option<Purpose>)
    ensures var ledger := t.ledger[key := value];
            && (key.kind != AllowedIpPurpose ==> UndoneAllowed(t.allowed, ledger) == UndoneAllowed(t.allowed, t.ledger))
            && (key.kind != AddressAllocation && key.kind != AddressPool ==>
                UndoneAllocations(t.allocations, ledger) == UndoneAllocations(t.allocations, t.ledger))
            && (key.kind != ClientProfile ==> UndoneProfiles(t.profiles, ledger) == UndoneProfiles(t.profiles, t.ledger))
            && (key.kind != AddressPool ==> UndonePools(t.pools, ledger) == UndonePools(t.pools, t.ledger))
  {
  }

  lemma ProfileUndone(profiles: map<Id, Profile>, ledger: Ledger, peer: Id, profile: Profile)
    requires peer !in profiles && !(exists p :: p in profiles && profiles[p].id == profile.id)
    ensures UndoneProfiles(profiles[peer := profile], ledger[LedgerKey(ClientProfile, profile.id) := None]) ==
            UndoneProfiles(profiles, ledger)
  {
  }

  lemma PoolUndone(t: Tables, id: Id, pool: PoolRow)
    requires id !in t.pools && Sound(t)
    ensures var ledger := t.ledger[LedgerKey(AddressPool, id) := None];
            && UndonePools(t.pools[id := pool], ledger) == UndonePools(t.pools, t.ledger)
            && UndoneAllocations(t.allocations, ledger) == UndoneAllocations(t.allocations, t.ledger)
  {
  }

  lemma AllocationUndone(allocations: map<Id, AllocationRow>, ledger: Ledger, id: Id, row: AllocationRow)
    requires id !in allocations
    ensures UndoneAllocations(allocations[id := row], ledger[LedgerKey(AddressAllocation, id) := None]) ==
            UndoneAllocations(allocations, ledger)
  {
  }

  lemma PurposeUndone(allowed: map<Id, AllowedRow>, ledger: Ledger, id: Id, previous: Purpose, purpose: Purpose)
    requires LedgerKey(AllowedIpPurpose, id) !in ledger
    requires id in allowed ==> allowed[id].purpose == previous
    ensures UndoneAllowed(if id in allowed then allowed[id := allowed[id].(purpose := purpose)] else allowed,
                          ledger[LedgerKey(AllowedIpPurpose, id) := Some(previous)]) == UndoneAllowed(allowed, ledger)
  {
  }

  /** An import keeps what taking back gives. */
  lemma ImportUndone(t: Tables, i: Import)
    requires Sound(t) && ReadsRight(t, i) && DoImport(t, i).Some?
    ensures Undone(DoImport(t, i).value) == Undone(t)
  {
    OtherKinds(t, KeyOf(i), Previous(i));
    match i
    case CreateProfile(peer, id) => ProfileUndone(t.profiles, t.ledger, peer, Profile(id, None, "external"));
    case CreatePool(id, pool) => PoolUndone(t, id, pool);
    case SetPurpose(id, previous, purpose) => PurposeUndone(t.allowed, t.ledger, id, previous, purpose);
    case CreateAllocation(id, row) => AllocationUndone(t.allocations, t.ledger, id, row);
  }

  lemma ImportSound(t: Tables, i: Import)
    requires Sound(t) && DoImport(t, i).Some?
    ensures Sound(DoImport(t, i).value)
  {
  }

  lemma ReadRightLater(t: Tables, imports: seq<Import>)
    requires imports != [] && AllReadRight(t, imports) && DoImport(t, imports[0]).Some?
    ensures AllReadRight(DoImport(t, imports[0]).value, imports[1..])
  {
    hide DoImport;
    AllowedStep(t, imports[0]);
    var rest := imports[1..];
    forall i | 0 <= i < |rest| ensures ReadsRight(DoImport(t, imports[0]).value, rest[i]) {
      assert rest[i] == imports[i + 1];
      assert ReadsRight(t, imports[i + 1]);
    }
  }

  lemma {:induction false} ImportsUndone(t: Tables, imports: seq<Import>)
    requires Sound(t) && AllReadRight(t, imports) && DoImports(t, imports).Some?
    ensures var next := DoImports(t, imports).value;
            && Undone(next) == Undone(t) && Sound(next)
            && next.staged == t.staged && next.envelopes == t.envelopes
            && next.interface == t.interface && next.revisions == t.revisions
    decreases |imports|
  {
    if imports != [] {
      assert ReadsRight(t, imports[0]);
      ImportUndone(t, imports[0]);
      ImportSound(t, imports[0]);
      ReadRightLater(t, imports);
      ImportsUndone(DoImport(t, imports[0]).value, imports[1..]);
    }
  }

  // ---- Staged secrets ----

  /** Gives a peer its staged secret, in a new profile if it has none. */
  function Attached(t: Tables, peer: Id, newId: Id): Option<Tables> {
    if peer !in t.staged then None
    else
      var item := t.staged[peer];
      if peer in t.profiles then
        var profile := t.profiles[peer];
        Some(t.(profiles := t.profiles[peer := profile.(psk := Some(item.envelope))],
                staged := t.staged[peer := Staged(item.envelope, Some(profile.id), profile.psk, false)]))
      else if exists p :: p in t.profiles && t.profiles[p].id == newId then None
      else
        Some(t.(profiles := t.profiles[peer := Profile(newId, Some(item.envelope), "external")],
                staged := t.staged[peer := Staged(item.envelope, Some(newId), None, true)]))
  }

  function AttachAll(t: Tables, peers: seq<Id>, ids: seq<Id>): Option<Tables>
    requires |ids| >= |peers|
    decreases |peers|
  {
    if peers == [] then Some(t) else
      match Attached(t, peers[0], ids[0])
      case None => None
      case Some(next) => AttachAll(next, peers[1..], ids[1..])
  }

  /** The profile still is what attaching made it. */
  predicate Attaches(profile: Profile, item: Staged) {
    item.profile == Some(profile.id) && profile.psk == Some(item.envelope)
  }

  /** A staged secret taken back: a created profile goes, another one gets its
      previous secret. */
  function Before(profile: Profile, item: Staged): Option<Profile> {
    if !Attaches(profile, item) then Some(profile)
    else if item.created then None
    else Some(profile.(psk := item.previous))
  }

  function Detached(profiles: map<Id, Profile>, staged: map<Id, Staged>): map<Id, Profile> {
    map p | p in profiles && (p in staged ==> Before(profiles[p], staged[p]).Some?) ::
      if p in staged then Before(profiles[p], staged[p]).value else profiles[p]
  }

  predicate Unattached(t: Tables, peers: seq<Id>) {
    && (forall i :: 0 <= i < |peers| ==> peers[i] in t.staged && t.staged[peers[i]].profile == None)
    && (forall i, j :: 0 <= i < j < |peers| ==> peers[i] != peers[j])
  }

  lemma PutDetached(profiles: map<Id, Profile>, staged: map<Id, Staged>, peer: Id, profile: Profile, item: Staged)
    requires peer in staged && staged[peer].profile == None
    requires Before(profile, item) == if peer in profiles then Some(profiles[peer]) else None
    ensures Detached(profiles[peer := profile], staged[peer := item]) == Detached(profiles, staged)
  {
    var next, before := Detached(profiles[peer := profile], staged[peer := item]), Detached(profiles, staged);
    assert forall p :: p in next <==> p in before;
  }

  lemma AttachedParts(t: Tables, peer: Id, newId: Id) returns (profile: Profile, item: Staged)
    requires peer in t.staged && Attached(t, peer, newId).Some?
    ensures Attached(t, peer, newId) ==
            Some(t.(profiles := t.profiles[peer := profile], staged := t.staged[peer := item]))
    ensures item.envelope == t.staged[peer].envelope
    ensures Before(profile, item) == if peer in t.profiles then Some(t.profiles[peer]) else None
  {
    var next := Attached(t, peer, newId).value;
    profile, item := next.profiles[peer], next.staged[peer];
  }

  lemma AttachDetached(t: Tables, peer: Id, newId: Id)
    requires peer in t.staged && t.staged[peer].profile == None && Attached(t, peer, newId).Some?
    ensures var next := Attached(t, peer, newId).value;
            && Detached(next.profiles, next.staged) == Detached(t.profiles, t.staged)
            && next.(profiles := t.profiles, staged := t.staged) == t
            && next.staged.Keys == t.staged.Keys
            && (forall p :: p in t.staged ==> next.staged[p].envelope == t.staged[p].envelope)
            && (forall p :: p in t.staged && p != peer ==> next.staged[p] == t.staged[p])
  {
    hide Attached, Detached, Before;
    var profile, item := AttachedParts(t, peer, newId);
    PutDetached(t.profiles, t.staged, peer, profile, item);
  }

  lemma {:induction false} AttachAllDetached(t: Tables, peers: seq<Id>, ids: seq<Id>)
    requires |ids| >= |peers| && Unattached(t, peers) && AttachAll(t, peers, ids).Some?
    ensures var next := AttachAll(t, peers, ids).value;
            && Detached(next.profiles, next.staged) == Detached(t.profiles, t.staged)
            && next.(profiles := t.profiles, staged := t.staged) == t
            && next.staged.Keys == t.staged.Keys
            && (forall p :: p in t.staged ==> next.staged[p].envelope == t.staged[p].envelope)
    decreases |peers|
  {
    if peers != [] {
      AttachDetached(t, peers[0], ids[0]);
      var next, rest := Attached(t, peers[0], ids[0]).value, peers[1..];
      assert Unattached(next, rest) by {
        assert forall i :: 0 <= i < |rest| ==> rest[i] == peers[i + 1];
      }
      AttachAllDetached(next, rest, ids[1..]);
    }
  }

  // ---- The transactions ----

  datatype Secret = Secret(peer: Id, id: Id, body: string)

  /** Stores the snapshot and stages the secrets of the peers, one for each at
      most; nothing if an identifier is in use or a peer comes twice. */
  function Snapshotted(t: Tables, id: Id, body: string, secrets: seq<Secret>): Option<Tables> {
    if id in t.envelopes then None else StagedAll(t.(envelopes := t.envelopes[id := body]), secrets)
  }

  function StagedAll(t: Tables, secrets: seq<Secret>): Option<Tables>
    decreases |secrets|
  {
    if secrets == [] then Some(t)
    else
      var s := secrets[0];
      if s.id in t.envelopes || s.peer in t.staged then None
      else StagedAll(t.(envelopes := t.envelopes[s.id := s.body],
                        staged := t.staged[s.peer := Staged(s.id, None, None, false)]), secrets[1..])
  }

  /** What the operation row says about the interface to adopt. */
  datatype Terms = Terms(operation: Id, expected: nat, fileHash: string)

  predicate Eligible(t: Tables, terms: Terms) {
    && t.interface.mode == Observed && t.interface.wgQuick && !t.interface.saveConfig
    && t.interface.revision == terms.expected && t.interface.fileHash == terms.fileHash
  }

  function WithRevision(t: Tables, terms: Terms, revisionId: Id): Tables {
    t.(revisions := t.revisions[terms.expected + 1 := Revision(revisionId, Some(terms.operation))],
       interface := t.interface.(mode := Adopted, revision := terms.expected + 1, last := Some(revisionId), drift := NoDrift))
  }

  /** New identifiers for the rows of one adoption. */
  datatype Fresh = Fresh(revision: Id, profiles: seq<Id>)

  /** The adopting transaction, for whatever imports and in whatever order. */
  function AdoptedTables(t: Tables, terms: Terms, imports: seq<Import>, peers: seq<Id>, ids: Fresh): Option<Tables>
    requires |ids.profiles| >= |peers|
  {
    if !Eligible(t, terms) || terms.expected + 1 in t.revisions then None
    else
      match DoImports(WithRevision(t, terms, ids.revision), imports)
      case None => None
      case Some(imported) => AttachAll(imported, peers, ids.profiles)
  }

  /** The revision before the adoption that another operation made. */
  function PreviousRevision(t: Tables, terms: Terms): Option<Id> {
    if terms.expected in t.revisions && t.revisions[terms.expected].operation.Some?
       && t.revisions[terms.expected].operation.value != terms.operation
    then Some(t.revisions[terms.expected].id) else None
  }

  /** The adoption's own revision is still the last one applied. */
  predicate OwnsLast(t: Tables, terms: Terms) {
    && terms.expected + 1 in t.revisions && t.interface.last == Some(t.revisions[terms.expected + 1].id)
    && t.revisions[terms.expected + 1].operation == Some(terms.operation)
  }

  function Envelopes(staged: map<Id, Staged>): set<Id> {
    set p | p in staged :: staged[p].envelope
  }

  /** Removing an envelope clears what refers to it. */
  function Cleared(profiles: map<Id, Profile>, gone: set<Id>): map<Id, Profile> {
    map p | p in profiles :: if profiles[p].psk.Some? && profiles[p].psk.value in gone then profiles[p].(psk := None) else profiles[p]
  }

  function WithoutEnvelopes(t: Tables, gone: set<Id>): Tables {
    t.(envelopes := map e | e in t.envelopes && e !in gone :: t.envelopes[e], profiles := Cleared(t.profiles, gone))
  }

  function WithoutStaged(t: Tables): Tables {
    WithoutEnvelopes(t, Envelopes(t.staged)).(staged := map[])
  }

  /** Staged secrets and imports taken back. */
  function Unwound(t: Tables): Tables {
    Undone(t.(profiles := Detached(t.profiles, t.staged)))
  }

  /** The rolling back transaction; nothing when it refuses. */
  function RolledBackTables(t: Tables, terms: Terms): Option<Tables> {
    var undone := Unwound(t);
    if t.interface.mode == Observed && t.interface.revision == terms.expected then Some(WithoutStaged(undone))
    else if t.interface.mode == Adopted && t.interface.revision == terms.expected + 1 && OwnsLast(t, terms) then
      Some(WithoutStaged(WithoutRevision(undone, terms)))
    else None
  }

  /** The interface as observed again, without the revision of the adoption. */
  function WithoutRevision(t: Tables, terms: Terms): Tables {
    t.(revisions := map n | n in t.revisions && n != terms.expected + 1 :: t.revisions[n],
       interface := t.interface.(mode := Observed, revision := terms.expected,
                                 last := PreviousRevision(t, terms), drift := UnknownDrift))
  }

  // ---- Rolling back undoes adopting ----

  /** Before the operation: nothing staged, nothing in its ledger. */
  predicate Untouched(t: Tables) {
    t.staged == map[] && t.ledger == map[]
  }

  /** The tables an operation started from, with the snapshot it leaves behind. */
  function Restored(start: Tables, snapshot: Id, body: string): Tables {
    start.(envelopes := start.envelopes[snapshot := body])
  }

  lemma {:induction false} StagedAllFacts(t: Tables, secrets: seq<Secret>)
    requires StagedAll(t, secrets).Some?
    ensures var next := StagedAll(t, secrets).value;
            && next.(envelopes := t.envelopes, staged := t.staged) == t
            && (forall e :: e in t.envelopes ==> e in next.envelopes && next.envelopes[e] == t.envelopes[e])
            && (forall e :: e in next.envelopes && e !in t.envelopes ==> e in Envelopes(next.staged))
            && (forall p :: p in next.staged ==> if p in t.staged then next.staged[p] == t.staged[p]
                                                 else next.staged[p].profile == None && next.staged[p].envelope !in t.envelopes)
            && (forall p :: p in t.staged ==> p in next.staged)
    decreases |secrets|
  {
    if secrets != [] {
      var s := secrets[0];
      var more := t.(envelopes := t.envelopes[s.id := s.body],
                     staged := t.staged[s.peer := Staged(s.id, None, None, false)]);
      StagedAllFacts(more, secrets[1..]);
      var next := StagedAll(t, secrets).value;
      assert next.staged[s.peer].envelope == s.id;
    }
  }

  lemma NothingToUndo(t: Tables)
    requires t.ledger == map[]
    ensures Undone(t) == t
  {
    assert UndoneAllowed(t.allowed, t.ledger) == t.allowed;
    assert UndoneAllocations(t.allocations, t.ledger) == t.allocations;
    assert UndoneProfiles(t.profiles, t.ledger) == t.profiles;
    assert UndonePools(t.pools, t.ledger) == t.pools;
  }

  lemma NothingToDetach(profiles: map<Id, Profile>, staged: map<Id, Staged>)
    requires forall p :: p in staged ==> staged[p].profile == None
    ensures Detached(profiles, staged) == profiles
  {
  }

  lemma SoundCleared(start: Tables, gone: set<Id>)
    requires Sound(start) && gone !! start.envelopes.Keys
    ensures Cleared(start.profiles, gone) == start.profiles
  {
    hide Cleared;
    NothingCleared(start.profiles, gone, start.envelopes.Keys);
  }

  /** What a snapshot adds, taken away again. */
  lemma WithoutStagedIs(start: Tables, t: Tables, snapshot: Id, body: string)
    requires Sound(start) && snapshot !in start.envelopes
    requires t.profiles == start.profiles
    requires forall e :: e in t.envelopes <==> e == snapshot || e in start.envelopes || e in Envelopes(t.staged)
    requires forall e :: e in start.envelopes ==> t.envelopes[e] == start.envelopes[e]
    requires t.envelopes[snapshot] == body
    requires forall p :: p in t.staged ==> t.staged[p].envelope != snapshot && t.staged[p].envelope !in start.envelopes
    ensures WithoutStaged(t) ==
            t.(envelopes := start.envelopes[snapshot := body], profiles := start.profiles, staged := map[])
  {
    hide Sound, Cleared;
    SoundCleared(start, Envelopes(t.staged));
    assert WithoutStaged(t).envelopes == start.envelopes[snapshot := body];
  }

  /** Envelopes that nothing refers to may go. */
  lemma NothingCleared(profiles: map<Id, Profile>, gone: set<Id>, kept: set<Id>)
    requires forall p :: p in profiles && profiles[p].psk.Some? ==> profiles[p].psk.value in kept
    requires gone !! kept
    ensures Cleared(profiles, gone) == profiles
  {
  }

  /** The envelopes and staged rows of a snapshot. */
  ghost predicate HasSnapshot(start: Tables, t: Tables, snapshot: Id, body: string) {
    && snapshot !in start.envelopes && snapshot in t.envelopes && t.envelopes[snapshot] == body
    && (forall e :: e in t.envelopes <==> e == snapshot || e in start.envelopes || e in Envelopes(t.staged))
    && (forall e :: e in start.envelopes ==> t.envelopes[e] == start.envelopes[e])
    && (forall p :: p in t.staged ==> t.staged[p].envelope != snapshot && t.staged[p].envelope !in start.envelopes)
  }

  lemma SnapshotHas(start: Tables, snapshot: Id, body: string, secrets: seq<Secret>)
    requires Untouched(start) && Snapshotted(start, snapshot, body, secrets).Some?
    ensures var t := Snapshotted(start, snapshot, body, secrets).value;
            && HasSnapshot(start, t, snapshot, body)
            && t.(envelopes := start.envelopes, staged := start.staged) == start
            && (forall p :: p in t.staged ==> t.staged[p].profile == None)
  {
    var base := start.(envelopes := start.envelopes[snapshot := body]);
    StagedAllFacts(base, secrets);
    var t := StagedAll(base, secrets).value;
    forall e | e in Envelopes(t.staged) ensures e in t.envelopes {
      StagedInEnvelopes(base, secrets);
    }
  }

  lemma {:induction false} StagedInEnvelopes(t: Tables, secrets: seq<Secret>)
    requires StagedAll(t, secrets).Some? && Envelopes(t.staged) <= t.envelopes.Keys
    ensures Envelopes(StagedAll(t, secrets).value.staged) <= StagedAll(t, secrets).value.envelopes.Keys
    decreases |secrets|
  {
    if secrets != [] {
      var s := secrets[0];
      StagedInEnvelopes(t.(envelopes := t.envelopes[s.id := s.body],
                           staged := t.staged[s.peer := Staged(s.id, None, None, false)]), secrets[1..]);
    }
  }

  /** Rolling back after the snapshot alone gives everything back. */
  lemma RollbackAfterSnapshot(start: Tables, t: Tables, terms: Terms, snapshot: Id, body: string, secrets: seq<Secret>)
    requires Sound(start) && Untouched(start)
    requires start.interface.mode == Observed && start.interface.revision == terms.expected
    requires Snapshotted(start, snapshot, body, secrets) == Some(t)
    ensures RolledBackTables(t, terms) == Some(Restored(start, snapshot, body))
  {
    SnapshotHas(start, snapshot, body, secrets);
    NothingToDetach(t.profiles, t.staged);
    NothingToUndo(t);
    WithoutStagedIs(start, t, snapshot, body);
  }

  lemma UndoneElsewhere(t: Tables, profiles: map<Id, Profile>, staged: map<Id, Staged>)
    requires profiles == t.profiles
    ensures Undone(t.(staged := staged)) == Undone(t).(staged := staged)
  {
  }

  /** Adopting, undone but for the staged rows and the interface. */
  lemma AdoptionUndone(t: Tables, terms: Terms, imports: seq<Import>, peers: seq<Id>, ids: Fresh)
    requires Sound(t) && t.ledger == map[] && AllReadRight(t, imports) && |ids.profiles| >= |peers|
    requires Unattached(t, peers) && forall p :: p in t.staged ==> t.staged[p].profile == None
    requires AdoptedTables(t, terms, imports, peers, ids).Some?
    ensures var next := AdoptedTables(t, terms, imports, peers, ids).value;
            && Unwound(next) == WithRevision(t, terms, ids.revision).(staged := next.staged)
            && next.interface == WithRevision(t, terms, ids.revision).interface
            && next.revisions == WithRevision(t, terms, ids.revision).revisions
            && next.envelopes == t.envelopes && Envelopes(next.staged) == Envelopes(t.staged)
            && next.staged.Keys == t.staged.Keys
            && (forall p :: p in t.staged ==> next.staged[p].envelope == t.staged[p].envelope)
  {
    var revised := WithRevision(t, terms, ids.revision);
    assert Sound(revised);
    assert AllReadRight(revised, imports) by {
      forall i | 0 <= i < |imports| ensures ReadsRight(revised, imports[i]) {
        assert ReadsRight(t, imports[i]);
      }
    }
    ImportsUndone(revised, imports);
    var imported := DoImports(revised, imports).value;
    AttachAllDetached(imported, peers, ids.profiles);
    var next := AttachAll(imported, peers, ids.profiles).value;
    NothingToDetach(imported.profiles, imported.staged);
    UndoneElsewhere(imported, imported.profiles, next.staged);
    NothingToUndo(revised);
    assert Envelopes(next.staged) == Envelopes(t.staged);
  }

  /** Rolling back is a left inverse of adopting, for any number of peers, pools
      and allocations.  It never refuses after an adoption, and gives back every
      table, the interface's mode and its revision; only the drift state becomes
      unknown, and the last applied revision is looked up again. */
  lemma RollbackAfterAdoption(start: Tables, t: Tables, adopted: Tables, terms: Terms, snapshot: Id, body: string,
                              secrets: seq<Secret>, imports: seq<Import>, peers: seq<Id>, ids: Fresh)
    requires Sound(start) && Untouched(start) && |ids.profiles| >= |peers|
    requires Snapshotted(start, snapshot, body, secrets) == Some(t)
    requires AllReadRight(t, imports) && Unattached(t, peers)
    requires AdoptedTables(t, terms, imports, peers, ids) == Some(adopted)
    ensures RolledBackTables(adopted, terms) ==
            Some(Restored(start, snapshot, body).(
              interface := start.interface.(last := PreviousRevision(start, terms), drift := UnknownDrift)))
  {
    SnapshotHas(start, snapshot, body, secrets);
    SoundSnapshot(start, t, snapshot, body);
    AdoptionUndone(t, terms, imports, peers, ids);
    RevisedRollback(start, t, adopted, terms, ids.revision, snapshot, body);
  }

  /** The revision applied before belongs to another operation. */
  predicate AppliedByOther(start: Tables, terms: Terms, id: Id) {
    && terms.expected in start.revisions && start.revisions[terms.expected].id == id
    && start.revisions[terms.expected].operation.Some? && start.revisions[terms.expected].operation != Some(terms.operation)
  }

  /** The last revision comes back exactly if another operation applied the one at
      the expected number, or none had been applied and none is there to find. */
  lemma LastRestoredIff(start: Tables, t: Tables, adopted: Tables, terms: Terms, snapshot: Id, body: string,
                        secrets: seq<Secret>, imports: seq<Import>, peers: seq<Id>, ids: Fresh)
    requires Sound(start) && Untouched(start) && |ids.profiles| >= |peers|
    requires Snapshotted(start, snapshot, body, secrets) == Some(t)
    requires AllReadRight(t, imports) && Unattached(t, peers)
    requires AdoptedTables(t, terms, imports, peers, ids) == Some(adopted)
    ensures RolledBackTables(adopted, terms).Some?
    ensures RolledBackTables(adopted, terms).value.interface.last == start.interface.last <==>
            match start.interface.last
            case Some(id) => AppliedByOther(start, terms, id)
            case None => forall id :: !AppliedByOther(start, terms, id)
  {
    hide Sound, Untouched, Snapshotted, AllReadRight, Unattached, AdoptedTables, RolledBackTables;
    RollbackAfterAdoption(start, t, adopted, terms, snapshot, body, secrets, imports, peers, ids);
    if PreviousRevision(start, terms).Some? {
      assert AppliedByOther(start, terms, PreviousRevision(start, terms).value);
    }
  }

  /** An observed interface as the inventory makes it: nothing was ever applied. */
  predicate NeverApplied(t: Tables) {
    t.interface.mode == Observed ==> t.interface.revision == 0 && t.interface.last == None && t.revisions == map[]
  }

  /** From such an interface only the drift and the snapshot differ after a
      rollback, and it is such an interface again. */
  lemma ObservedComesBack(start: Tables, t: Tables, adopted: Tables, terms: Terms, snapshot: Id, body: string,
                          secrets: seq<Secret>, imports: seq<Import>, peers: seq<Id>, ids: Fresh)
    requires NeverApplied(start) && start.interface.mode == Observed
    requires Sound(start) && Untouched(start) && |ids.profiles| >= |peers|
    requires Snapshotted(start, snapshot, body, secrets) == Some(t)
    requires AllReadRight(t, imports) && Unattached(t, peers)
    requires AdoptedTables(t, terms, imports, peers, ids) == Some(adopted)
    ensures RolledBackTables(adopted, terms) ==
            Some(Restored(start, snapshot, body).(interface := start.interface.(drift := UnknownDrift)))
    ensures NeverApplied(RolledBackTables(adopted, terms).value)
  {
    hide Sound, Untouched, Snapshotted, AllReadRight, Unattached, AdoptedTables, RolledBackTables;
    RollbackAfterAdoption(start, t, adopted, terms, snapshot, body, secrets, imports, peers, ids);
  }

  /** Tables at which the last revision is lost: its row names no operation. */
  lemma LastCanBeLost() returns (start: Tables, t: Tables, adopted: Tables, terms: Terms)
    ensures Sound(start) && Untouched(start) && Snapshotted(start, "s", "b", []) == Some(t)
    ensures AdoptedTables(t, terms, [], [], Fresh("n", [])) == Some(adopted)
    ensures RolledBackTables(adopted, terms).Some? && start.interface.last == Some("r")
    ensures RolledBackTables(adopted, terms).value.interface.last == None
  {
    terms := Terms("o", 1, "h");
    start := Tables(Interface(Observed, true, false, "h", 1, Some("r"), NoDrift), map[1 := Revision("r", None)],
                    map[], map[], map[], map[], map[], map[], map[]);
    t := start.(envelopes := start.envelopes["s" := "b"]);
    adopted := WithRevision(t, terms, "n");
    LastRestoredIff(start, t, adopted, terms, "s", "b", [], [], [], Fresh("n", []));
    RollbackAfterAdoption(start, t, adopted, terms, "s", "b", [], [], [], Fresh("n", []));
  }

  lemma RevisedRollback(start: Tables, t: Tables, adopted: Tables, terms: Terms, revisionId: Id, snapshot: Id, body: string)
    requires Sound(start) && Untouched(start) && HasSnapshot(start, t, snapshot, body)
    requires t.(envelopes := start.envelopes, staged := start.staged) == start
    requires Eligible(t, terms) && terms.expected + 1 !in t.revisions
    requires var revised := WithRevision(t, terms, revisionId);
             && Unwound(adopted) == revised.(staged := adopted.staged)
             && adopted.interface == revised.interface && adopted.revisions == revised.revisions
             && Envelopes(adopted.staged) == Envelopes(t.staged) && adopted.staged.Keys == t.staged.Keys
             && forall p :: p in t.staged ==> adopted.staged[p].envelope == t.staged[p].envelope
    ensures RolledBackTables(adopted, terms) ==
            Some(Restored(start, snapshot, body).(
              interface := start.interface.(last := PreviousRevision(start, terms), drift := UnknownDrift)))
  {
    RevisionTakenBack(t, terms, revisionId, adopted.staged);
    var revised := WithRevision(t, terms, revisionId).(staged := adopted.staged);
    assert OwnsLast(adopted, terms);
    WithoutStagedIs(start, WithoutRevision(revised, terms), snapshot, body);
  }

  lemma RevisionTakenBack(t: Tables, terms: Terms, revisionId: Id, staged: map<Id, Staged>)
    requires Eligible(t, terms) && terms.expected + 1 !in t.revisions
    ensures var revised := WithRevision(t, terms, revisionId).(staged := staged);
            && OwnsLast(revised, terms)
            && WithoutRevision(revised, terms) ==
               t.(staged := staged, interface := t.interface.(last := PreviousRevision(t, terms), drift := UnknownDrift))
  {
    var revised := WithRevision(t, terms, revisionId).(staged := staged);
    assert WithoutRevision(revised, terms).revisions == t.revisions;
  }

  lemma SoundSnapshot(start: Tables, t: Tables, snapshot: Id, body: string)
    requires Sound(start) && HasSnapshot(start, t, snapshot, body)
    requires t.(envelopes := start.envelopes, staged := start.staged) == start
    ensures Sound(t)
  {
  }

  lemma ProfilesRemoved(t: Tables, p: Id)
    requires p in t.profiles && p !in UndoneProfiles(Detached(t.profiles, t.staged), t.ledger)
    ensures LedgerKey(ClientProfile, t.profiles[p].id) in t.ledger || (p in t.staged && t.staged[p].created)
  {
    var detached := Detached(t.profiles, t.staged);
    if p in detached {
      assert detached[p].id == t.profiles[p].id;
    }
  }

  lemma StagedParts(t: Tables)
    ensures var end := WithoutStaged(t);
            && end.pools == t.pools && end.allocations == t.allocations && end.allowed == t.allowed
            && end.profiles.Keys == t.profiles.Keys && end.revisions == t.revisions
            && (forall e :: e in t.envelopes && e !in end.envelopes ==> e in Envelopes(t.staged))
  {
  }

  lemma RolledBackParts(t: Tables, terms: Terms)
    requires RolledBackTables(t, terms).Some?
    ensures var end := RolledBackTables(t, terms).value;
            && end.pools == UndonePools(t.pools, t.ledger)
            && end.allocations == UndoneAllocations(t.allocations, t.ledger)
            && end.profiles.Keys == UndoneProfiles(Detached(t.profiles, t.staged), t.ledger).Keys
            && (forall e :: e in t.envelopes && e !in end.envelopes ==> e in Envelopes(t.staged))
            && (forall n :: n in t.revisions && n !in end.revisions ==> t.revisions[n].operation == Some(terms.operation))
            && end.allowed == UndoneAllowed(t.allowed, t.ledger)
  {
    StagedParts(Unwound(t));
    StagedParts(WithoutRevision(Unwound(t), terms));
  }

  /** Whatever the tables, rolling back removes only rows its ledger lists, rows
      of pools its ledger lists, profiles it created for staged secrets, staged
      envelopes, and its own revision. */
  lemma RollbackRemovesOwned(t: Tables, terms: Terms)
    requires RolledBackTables(t, terms).Some?
    ensures var end := RolledBackTables(t, terms).value;
            && (forall id :: id in t.pools && id !in end.pools ==> LedgerKey(AddressPool, id) in t.ledger)
            && (forall id :: id in t.allocations && id !in end.allocations ==>
                  LedgerKey(AddressAllocation, id) in t.ledger || LedgerKey(AddressPool, t.allocations[id].pool) in t.ledger)
            && (forall p :: p in t.profiles && p !in end.profiles ==>
                  LedgerKey(ClientProfile, t.profiles[p].id) in t.ledger || (p in t.staged && t.staged[p].created))
            && (forall e :: e in t.envelopes && e !in end.envelopes ==> exists p :: p in t.staged && t.staged[p].envelope == e)
            && (forall n :: n in t.revisions && n !in end.revisions ==> t.revisions[n].operation == Some(terms.operation))
            && end.allowed.Keys == t.allowed.Keys
  {
    var end := RolledBackTables(t, terms).value;
    RolledBackParts(t, terms);
    forall p | p in t.profiles && p !in end.profiles
      ensures LedgerKey(ClientProfile, t.profiles[p].id) in t.ledger || (p in t.staged && t.staged[p].created)
    {
      ProfilesRemoved(t, p);
    }
    forall e | e in t.envelopes && e !in end.envelopes ensures exists p :: p in t.staged && t.staged[p].envelope == e {
      assert e in Envelopes(t.staged);
    }
  }
}
