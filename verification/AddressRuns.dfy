/** Whole histories of the rows of peers and of their addresses. */
module AddressRuns {
  // Create, update, disable, enable and revoke in any order.  What the database
  // ensures of allocations holds throughout; that active peers stay apart fails
  // exactly at an enable, which makes no check.

  import opened Prefixes
  import opened PeerAddresses

  datatype Change =
    | Create(id: Id, values: seq<Prefix>, row: Id)
    | Update(id: Id, values: seq<Prefix>)
    | Disable(id: Id)
    | Enable(id: Id)
    | Revoke(id: Id)

  /** An update of an active peer: its prefixes are checked against the others. */
  ghost predicate Updates(s: Registry, next: Registry, pools: seq<Pool>, id: Id, values: seq<Prefix>)
    requires ValidPools(pools) && ValidRows(s.peers)
  {
    && id in s.peers && s.peers[id].lifecycle == Active && values != [] && (forall p :: p in values ==> ValidPrefix(p))
    && (forall other :: other in s.peers && other != id && s.peers[other].lifecycle == Active ==>
          Apart(values, s.peers[other].prefixes))
    && next.peers == s.peers[id := PeerRow(Active, values)]
    && Synced(s.rows, next.rows, id, values, pools)
  }

  ghost predicate Revokes(s: Registry, next: Registry, id: Id) {
    && id in s.peers && s.peers[id].lifecycle == Active
    && next == Registry(s.peers[id := s.peers[id].(lifecycle := Revoked)], Quarantine(s.rows, id))
  }

  /** One completed change. */
  ghost predicate Makes(s: Registry, next: Registry, pools: seq<Pool>, c: Change)
    requires ValidPools(pools)
  {
    && ValidRows(s.peers)
    && match c
       case Create(id, values, row) => Creates(s, next, pools, id, values, row)
       case Update(id, values) => Updates(s, next, pools, id, values)
       case Disable(id) => Switches(s, next, id, Active, Disabled)
       case Enable(id) => Switches(s, next, id, Disabled, Active)
       case Revoke(id) => Revokes(s, next, id)
  }

  /** A history: the registries, and the changes between them. */
  ghost predicate IsRun(pools: seq<Pool>, states: seq<Registry>, changes: seq<Change>)
    requires ValidPools(pools)
  {
    && |states| == |changes| + 1 && ValidRows(states[0].peers) && Unique(states[0].rows)
    && forall k :: 0 <= k < |changes| ==> Makes(states[k], states[k + 1], pools, changes[k])
  }

  // ---- What every change keeps ----

  lemma CreateKeepsRows(s: Registry, next: Registry, pools: seq<Pool>, id: Id, values: seq<Prefix>, row: Id)
    requires ValidPools(pools) && ValidRows(s.peers) && Unique(s.rows) && Creates(s, next, pools, id, values, row)
    ensures ValidRows(next.peers) && Unique(next.rows)
  {
    var slot :| Admits(values[0], pools, s.rows, slot)
                && next == Registry(s.peers[id := PeerRow(Active, values)],
                                    s.rows[row := Row(slot.pool, id, slot.address, Allocated)]);
    InsertedHolds(s.rows, row, id, slot);
  }

  /** No change gives one address two live rows. */
  lemma ChangeKeepsRows(s: Registry, next: Registry, pools: seq<Pool>, c: Change)
    requires ValidPools(pools) && Unique(s.rows) && Makes(s, next, pools, c)
    ensures ValidRows(next.peers) && Unique(next.rows)
  {
    match c
    case Create(id, values, row) => CreateKeepsRows(s, next, pools, id, values, row);
    case Revoke(id) => QuarantineKeeps(s.rows, id);
    case _ =>
  }

  lemma {:induction false} RunKeepsRows(pools: seq<Pool>, states: seq<Registry>, changes: seq<Change>, k: nat)
    requires ValidPools(pools) && IsRun(pools, states, changes) && k < |states|
    ensures ValidRows(states[k].peers) && Unique(states[k].rows)
  {
    hide Makes, ValidRows, Unique;
    if k > 0 {
      RunKeepsRows(pools, states, changes, k - 1);
      assert Makes(states[k - 1], states[k - 1 + 1], pools, changes[k - 1]);
      ChangeKeepsRows(states[k - 1], states[k], pools, changes[k - 1]);
    }
  }

  // ---- Active peers stay apart, but for enabling ----

  /** The prefixes of the peer to be enabled are used by no active peer; other
      changes make sure by themselves. */
  ghost predicate Checked(s: Registry, c: Change)
    requires ValidRows(s.peers)
  {
    c.Enable? && c.id in s.peers ==> Unclaimed(s.peers[c.id].prefixes, s.peers)
  }

  /** Replacing one peer's prefixes by ones apart from the other active peers. */
  lemma ReplacedApart(peers: map<Id, PeerRow>, id: Id, values: seq<Prefix>)
    requires ValidRows(peers) && Disjoint(peers) && forall p :: p in values ==> ValidPrefix(p)
    requires forall other :: other in peers && other != id && peers[other].lifecycle == Active ==>
               Apart(values, peers[other].prefixes)
    ensures ValidRows(peers[id := PeerRow(Active, values)]) && Disjoint(peers[id := PeerRow(Active, values)])
  {
    hide Apart;
    var next := peers[id := PeerRow(Active, values)];
    forall a, b | a in next && b in next && a != b && next[a].lifecycle.Active? && next[b].lifecycle.Active?
      ensures Apart(next[a].prefixes, next[b].prefixes)
    {
      if b == id {
        ApartSymmetric(peers[a].prefixes, values);
      }
    }
  }

  lemma FewerApart(peers: map<Id, PeerRow>, id: Id, lifecycle: Lifecycle)
    requires ValidRows(peers) && Disjoint(peers) && id in peers && lifecycle != Active
    ensures ValidRows(peers[id := peers[id].(lifecycle := lifecycle)]) && Disjoint(peers[id := peers[id].(lifecycle := lifecycle)])
  {
    hide Apart;
  }

  /** Enabling keeps active peers apart exactly if it could have been checked. */
  lemma EnabledApart(s: Registry, next: Registry, id: Id)
    requires ValidRows(s.peers) && Disjoint(s.peers) && Switches(s, next, id, Disabled, Active)
    ensures ValidRows(next.peers) && (Disjoint(next.peers) <==> Unclaimed(s.peers[id].prefixes, s.peers))
  {
    hide Apart;
    var values := s.peers[id].prefixes;
    if Unclaimed(values, s.peers) {
      ReplacedApart(s.peers, id, values);
    }
    if Disjoint(next.peers) {
      forall other | other in s.peers && s.peers[other].lifecycle.Active? ensures Apart(values, s.peers[other].prefixes) {
        assert Apart(next.peers[id].prefixes, next.peers[other].prefixes);
      }
    }
  }

  lemma ChangeKeepsApartIff(s: Registry, next: Registry, pools: seq<Pool>, c: Change)
    requires ValidPools(pools) && Makes(s, next, pools, c) && Disjoint(s.peers) && ValidRows(next.peers)
    ensures Disjoint(next.peers) <==> Checked(s, c)
  {
    hide Apart, Disjoint, ValidRows, Synced;
    match c
    case Create(id, values, row) => ReplacedApart(s.peers, id, values);
    case Update(id, values) => ReplacedApart(s.peers, id, values);
    case Disable(id) => FewerApart(s.peers, id, Disabled);
    case Enable(id) => EnabledApart(s, next, id);
    case Revoke(id) => FewerApart(s.peers, id, Revoked);
  }

  /** Every enable up to a point found its prefixes unused. */
  ghost predicate AllChecked(states: seq<Registry>, changes: seq<Change>, n: nat)
    requires n <= |changes| <= |states| && forall k :: 0 <= k < n ==> ValidRows(states[k].peers)
  {
    forall k :: 0 <= k < n ==> Checked(states[k], changes[k])
  }

  /** Over every history that starts with active peers apart: they were apart at
      all times up to `n` if and only if every enable before found its prefixes
      used by no active peer. */
  lemma {:induction false} RunKeepsApartIff(pools: seq<Pool>, states: seq<Registry>, changes: seq<Change>, n: nat)
    requires ValidPools(pools) && IsRun(pools, states, changes) && n < |states| && Disjoint(states[0].peers)
    ensures forall k :: 0 <= k <= n ==> ValidRows(states[k].peers)
    ensures (forall k :: 0 <= k <= n ==> Disjoint(states[k].peers)) <==> AllChecked(states, changes, n)
  {
    hide Makes, ValidRows, Unique, Disjoint, Checked;
    forall k | 0 <= k <= n ensures ValidRows(states[k].peers) {
      RunKeepsRows(pools, states, changes, k);
    }
    if n > 0 {
      RunKeepsApartIff(pools, states, changes, n - 1);
      if Disjoint(states[n - 1].peers) {
        assert Makes(states[n - 1], states[n - 1 + 1], pools, changes[n - 1]);
        ChangeKeepsApartIff(states[n - 1], states[n], pools, changes[n - 1]);
      }
    }
  }

  // ---- Addresses are given once ----

  /** The row of an address is still there, for the same peer, and not released. */
  predicate Stays(before: Table, after: Table, row: Id) {
    row in before && Live(before[row]) ==>
      row in after && Live(after[row]) && after[row].peer == before[row].peer && SlotOf(after[row]) == SlotOf(before[row])
  }

  lemma ChangeKeepsAddress(s: Registry, next: Registry, pools: seq<Pool>, c: Change, row: Id)
    requires ValidPools(pools) && Makes(s, next, pools, c)
    ensures Stays(s.rows, next.rows, row)
  {
    match c
    case Update(id, values) =>
      var desired :| Kept(s.rows, next.rows, id, desired) && Added(s.rows, next.rows, id, desired);
    case _ =>
  }

  lemma {:induction false} AddressStays(pools: seq<Pool>, states: seq<Registry>, changes: seq<Change>, j: nat, k: nat, row: Id)
    requires ValidPools(pools) && IsRun(pools, states, changes) && j <= k < |states|
    ensures Stays(states[j].rows, states[k].rows, row)
  {
    hide Makes, ValidRows, Unique;
    if j < k {
      AddressStays(pools, states, changes, j, k - 1, row);
      assert Makes(states[k - 1], states[k - 1 + 1], pools, changes[k - 1]);
      ChangeKeepsAddress(states[k - 1], states[k], pools, changes[k - 1], row);
    }
  }

  /** In no history does an address go from one peer to another: whoever holds it
      at any time is the one who held it at any time before. */
  lemma AddressGivenOnce(pools: seq<Pool>, states: seq<Registry>, changes: seq<Change>, j: nat, k: nat, a: Id, b: Id, slot: Slot)
    requires ValidPools(pools) && IsRun(pools, states, changes) && j <= k < |states|
    requires HoldsSlot(states[j].rows, a, slot) && HoldsSlot(states[k].rows, b, slot)
    ensures a == b
  {
    hide IsRun, Makes;
    var row :| row in states[j].rows && Holds(states[j].rows[row], a) && SlotOf(states[j].rows[row]) == slot;
    var other :| other in states[k].rows && Holds(states[k].rows[other], b) && SlotOf(states[k].rows[other]) == slot;
    AddressStays(pools, states, changes, j, k, row);
    RunKeepsRows(pools, states, changes, k);
    assert row == other;
  }
}
