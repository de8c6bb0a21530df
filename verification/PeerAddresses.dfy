/** Which addresses peers hold: the prefixes of active peers stay apart, and an
    update keeps the allocation table in step with a peer's host prefixes. */
module PeerAddresses {
  import opened Text
  import opened Prefixes

  type Id = string

  // ---- Prefixes of active peers ----

  datatype Lifecycle = Active | Disabled | Revoked

  datatype PeerRow = PeerRow(lifecycle: Lifecycle, prefixes: seq<Prefix>)

  ghost predicate ValidRows(peers: map<Id, PeerRow>) {
    forall id, p :: id in peers && p in peers[id].prefixes ==> ValidPrefix(p)
  }

  ghost predicate Apart(a: seq<Prefix>, b: seq<Prefix>)
    requires forall p :: p in a || p in b ==> ValidPrefix(p)
  {
    forall p, q :: p in a && q in b ==> !Share(p, q)
  }

  /** No address belongs to two active peers. */
  ghost predicate Disjoint(peers: map<Id, PeerRow>)
    requires ValidRows(peers)
  {
    forall a, b :: a in peers && b in peers && a != b && peers[a].lifecycle.Active? && peers[b].lifecycle.Active? ==>
      Apart(peers[a].prefixes, peers[b].prefixes)
  }

  /** The rows the overlap check is given: every prefix of every active peer. */
  ghost predicate ListsActive(existing: seq<Owned>, peers: map<Id, PeerRow>) {
    forall o :: o in existing <==> o.peer in peers && peers[o.peer].lifecycle.Active? && o.prefix in peers[o.peer].prefixes
  }

  lemma ShareSymmetric(p: Prefix, q: Prefix)
    requires ValidPrefix(p) && ValidPrefix(q)
    ensures Share(p, q) == Share(q, p)
  {
  }

  lemma ApartSymmetric(a: seq<Prefix>, b: seq<Prefix>)
    requires forall p :: p in a || p in b ==> ValidPrefix(p)
    ensures Apart(a, b) == Apart(b, a)
  {
    forall p, q | p in a && q in b ensures Share(p, q) == Share(q, p) {
      ShareSymmetric(p, q);
    }
  }

  /** The check accepts exactly if the candidate is apart from every other
      active peer. */
  lemma ClearIsApart(peers: map<Id, PeerRow>, existing: seq<Owned>, candidate: seq<Prefix>, excluded: Id)
    requires ValidRows(peers) && ListsActive(existing, peers) && forall p :: p in candidate ==> ValidPrefix(p)
    ensures forall o :: o in existing ==> ValidPrefix(o.prefix)
    ensures Clear(candidate, existing, excluded) <==>
            forall id :: id in peers && id != excluded && peers[id].lifecycle.Active? ==> Apart(candidate, peers[id].prefixes)
  {
    if Clear(candidate, existing, excluded) {
      forall id, p, q | id in peers && id != excluded && peers[id].lifecycle.Active? && p in candidate && q in peers[id].prefixes
        ensures !Share(p, q)
      {
        var i :| 0 <= i < |candidate| && candidate[i] == p;
        assert Owned(id, q) in existing;
        var j :| 0 <= j < |existing| && existing[j] == Owned(id, q);
      }
    }
    if forall id :: id in peers && id != excluded && peers[id].lifecycle.Active? ==> Apart(candidate, peers[id].prefixes) {
      forall i, j | 0 <= i < |candidate| && 0 <= j < |existing| && existing[j].peer != excluded
        ensures !Share(candidate[i], existing[j].prefix)
      {
        assert existing[j] in existing;
        assert Apart(candidate, peers[existing[j].peer].prefixes);
        assert candidate[i] in candidate;
      }
    }
  }

  /** Creating or updating a peer with prefixes that pass the check keeps active
      peers apart. */
  lemma CheckedKeepsApart(peers: map<Id, PeerRow>, existing: seq<Owned>, id: Id, candidate: seq<Prefix>)
    requires ValidRows(peers) && Disjoint(peers) && ListsActive(existing, peers)
    requires forall p :: p in candidate ==> ValidPrefix(p)
    requires forall o :: o in existing ==> ValidPrefix(o.prefix)
    requires Clear(candidate, existing, id)
    ensures ValidRows(peers[id := PeerRow(Active, candidate)]) && Disjoint(peers[id := PeerRow(Active, candidate)])
  {
    ClearIsApart(peers, existing, candidate, id);
    var next := peers[id := PeerRow(Active, candidate)];
    forall a, b | a in next && b in next && a != b && next[a].lifecycle.Active? && next[b].lifecycle.Active?
      ensures Apart(next[a].prefixes, next[b].prefixes)
    {
      if b == id {
        ApartSymmetric(peers[a].prefixes, candidate);
      }
    }
  }

  /** Enabling makes no check: it keeps active peers apart exactly if the check
      would have passed. */
  lemma EnableKeepsApartIff(peers: map<Id, PeerRow>, existing: seq<Owned>, id: Id)
    requires ValidRows(peers) && Disjoint(peers) && ListsActive(existing, peers)
    requires id in peers && !peers[id].lifecycle.Active?
    ensures var next := peers[id := peers[id].(lifecycle := Active)];
            && ValidRows(next) && (forall o :: o in existing ==> ValidPrefix(o.prefix))
            && (Disjoint(next) <==> Clear(peers[id].prefixes, existing, id))
  {
    var next := peers[id := peers[id].(lifecycle := Active)];
    ClearIsApart(peers, existing, peers[id].prefixes, id);
    if Clear(peers[id].prefixes, existing, id) {
      CheckedKeepsApart(peers, existing, id, peers[id].prefixes);
    }
    if Disjoint(next) {
      forall other | other in peers && other != id && peers[other].lifecycle.Active?
        ensures Apart(peers[id].prefixes, peers[other].prefixes)
      {
        assert Apart(next[id].prefixes, next[other].prefixes);
      }
    }
  }

  // ---- Allocation rows ----

  datatype AllocationState = Allocated | Quarantined | Released

  datatype Row = Row(pool: Id, peer: Id, address: Addr, state: AllocationState)

  datatype Slot = Slot(pool: Id, address: Addr)

  type Table = map<Id, Row>

  datatype Pool = Pool(id: Id, cidr: Prefix)

  datatype Purpose = TunnelAddress | RoutedSubnet

  predicate Live(r: Row) {
    r.state != Released
  }

  function SlotOf(r: Row): Slot {
    Slot(r.pool, r.address)
  }

  /** At most one allocated or quarantined row for a pool and address. */
  ghost predicate Unique(t: Table) {
    forall i, j :: i in t && j in t && i != j && Live(t[i]) && Live(t[j]) ==> SlotOf(t[i]) != SlotOf(t[j])
  }

  predicate Holds(r: Row, peer: Id) {
    r.peer == peer && r.state == Allocated
  }

  ghost predicate HoldsSlot(t: Table, peer: Id, slot: Slot) {
    exists id :: id in t && Holds(t[id], peer) && SlotOf(t[id]) == slot
  }

  ghost predicate Taken(t: Table, slot: Slot) {
    exists id :: id in t && Live(t[id]) && SlotOf(t[id]) == slot
  }

  // ---- Classification ----

  predicate ValidPools(pools: seq<Pool>) {
    forall i :: 0 <= i < |pools| ==> ValidPrefix(pools[i].cidr)
  }

  /** The prefix is one host and lies in the pool. */
  predicate InPool(p: Prefix, pool: Pool)
    requires ValidPrefix(pool.cidr)
  {
    IsHost(p) && Contains(pool.cidr, p.addr)
  }

  predicate Ambiguous(p: Prefix, pools: seq<Pool>)
    requires ValidPools(pools)
  {
    exists i, j :: 0 <= i < j < |pools| && InPool(p, pools[i]) && InPool(p, pools[j])
  }

  /** The slots of a peer: its host prefixes that lie in a pool. */
  ghost predicate Wants(values: seq<Prefix>, pools: seq<Pool>, slot: Slot)
    requires ValidPools(pools) && forall v :: v in values ==> ValidPrefix(v)
  {
    exists v, pool :: v in values && pool in pools && InPool(Masked(v), pool) && slot == Slot(pool.id, Masked(v).addr)
  }

  method SelectPool(p: Prefix, pools: seq<Pool>) returns (ambiguous: bool, selected: Option<Pool>)
    requires ValidPools(pools)
    ensures ambiguous <==> Ambiguous(p, pools)
    ensures !ambiguous ==> forall pool :: pool in pools && InPool(p, pool) <==> selected == Some(pool)
  {
    ambiguous, selected := false, None;
    if !IsHost(p) {
      return;
    }
    ghost var at := 0;
    for index := 0 to |pools|
      invariant selected.None? ==> forall k :: 0 <= k < index ==> !InPool(p, pools[k])
      invariant selected.Some? ==>
                  && at < index && pools[at] == selected.value && InPool(p, selected.value)
                  && forall k :: 0 <= k < index && k != at ==> !InPool(p, pools[k])
    {
      if Contains(pools[index].cidr, p.addr) {
        if selected.Some? {
          assert InPool(p, pools[at]) && InPool(p, pools[index]);
          return true, None;
        }
        selected := Some(pools[index]);
        at := index;
      }
    }
  }

  /** Purposes of the prefixes and the slots they take; nothing if a host lies in
      two pools. */
  method ClassifyUpdatedAllowedIPs(values: seq<Prefix>, pools: seq<Pool>)
    returns (ok: bool, purposes: map<Prefix, Purpose>, slots: seq<Slot>)
    requires ValidPools(pools) && forall v :: v in values ==> ValidPrefix(v)
    ensures ok <==> forall v :: v in values ==> !Ambiguous(Masked(v), pools)
    ensures ok ==> |slots| <= |values| && forall slot :: slot in slots <==> Wants(values, pools, slot)
    ensures ok ==> forall v :: v in values ==> (
              && Masked(v) in purposes
              && (purposes[Masked(v)] == TunnelAddress <==> exists pool :: pool in pools && InPool(Masked(v), pool)))
  {
    ok, purposes, slots := true, map[], [];
    for i := 0 to |values|
      invariant ok && forall k :: 0 <= k < i ==> !Ambiguous(Masked(values[k]), pools)
      invariant |slots| <= i && forall slot :: slot in slots <==> Wants(values[..i], pools, slot)
      invariant forall k :: 0 <= k < i ==> (
                  && Masked(values[k]) in purposes
                  && (purposes[Masked(values[k])] == TunnelAddress <==>
                      exists pool :: pool in pools && InPool(Masked(values[k]), pool)))
    {
      var prefix := Masked(values[i]);
      var ambiguous, selected := SelectPool(prefix, pools);
      if ambiguous {
        assert values[i] in values;
        ok := false;
        return;
      }
      WantsMore(values, pools, i, selected);
      if selected.Some? {
        slots := slots + [Slot(selected.value.id, prefix.addr)];
        purposes := purposes[prefix := TunnelAddress];
      } else {
        purposes := purposes[prefix := RoutedSubnet];
      }
    }
    assert values[..|values|] == values;
  }

  lemma WantsMore(values: seq<Prefix>, pools: seq<Pool>, i: nat, selected: Option<Pool>)
    requires ValidPools(pools) && i < |values| && forall v :: v in values ==> ValidPrefix(v)
    requires forall pool :: pool in pools && InPool(Masked(values[i]), pool) <==> selected == Some(pool)
    ensures forall slot :: Wants(values[..i + 1], pools, slot) <==>
              Wants(values[..i], pools, slot) || (selected.Some? && slot == Slot(selected.value.id, Masked(values[i]).addr))
  {
    assert values[..i + 1] == values[..i] + [values[i]];
    forall slot
      ensures Wants(values[..i + 1], pools, slot) <==>
              Wants(values[..i], pools, slot) || (selected.Some? && slot == Slot(selected.value.id, Masked(values[i]).addr))
    {
      if selected.Some? && slot == Slot(selected.value.id, Masked(values[i]).addr) {
        assert selected.value in pools && InPool(Masked(values[i]), selected.value);
        assert values[i] in values[..i + 1];
      }
    }
  }

  // ---- Synchronisation ----

  /** The rows of a peer that are allocated, in some order. */
  method ListAllocated(t: Table, peer: Id) returns (rows: seq<Id>)
    ensures forall id :: id in rows <==> id in t && Holds(t[id], peer)
    ensures forall i, j :: 0 <= i < j < |rows| ==> rows[i] != rows[j]
  {
    rows := [];
    var left := t.Keys;
    while left != {}
      invariant left <= t.Keys
      invariant forall id :: id in rows <==> id in t && id !in left && Holds(t[id], peer)
      invariant forall i, j :: 0 <= i < j < |rows| ==> rows[i] != rows[j]
      decreases |left|
    {
      var id :| id in left;
      left := left - {id};
      if Holds(t[id], peer) {
        rows := rows + [id];
      }
    }
  }

  method IsTaken(t: Table, slot: Slot) returns (taken: bool)
    ensures taken <==> Taken(t, slot)
  {
    var left := t.Keys;
    taken := false;
    while left != {}
      invariant left <= t.Keys && !taken
      invariant forall id :: id in t && id !in left ==> !(Live(t[id]) && SlotOf(t[id]) == slot)
      decreases |left|
    {
      var id :| id in left;
      left := left - {id};
      if Live(t[id]) && SlotOf(t[id]) == slot {
        return true;
      }
    }
  }

  /** A row once the peer's desired slots are known. */
  function Dropped(r: Row, peer: Id, desired: set<Slot>): Row {
    if Holds(r, peer) && SlotOf(r) !in desired then r.(state := Quarantined) else r
  }

  /** The old rows stay, except that a peer's dropped allocations are quarantined. */
  ghost predicate Kept(before: Table, after: Table, peer: Id, desired: set<Slot>) {
    forall id :: id in before ==> id in after && after[id] == Dropped(before[id], peer, desired)
  }

  /** New rows are allocations of the peer in desired slots. */
  ghost predicate Added(before: Table, after: Table, peer: Id, desired: set<Slot>) {
    forall id :: id in after && id !in before ==> Holds(after[id], peer) && SlotOf(after[id]) in desired
  }

  /** Quarantines what is dropped; what remains pending is not held yet. */
  method DropAllocations(t: Table, peer: Id, desired: set<Slot>) returns (next: Table, pending: set<Slot>)
    requires Unique(t)
    ensures Kept(t, next, peer, desired) && next.Keys == t.Keys && Unique(next)
    ensures forall slot :: slot in pending <==> slot in desired && !HoldsSlot(t, peer, slot)
  {
    hide Unique, HoldsSlot;
    var rows := ListAllocated(t, peer);
    next, pending := t, desired;
    var i := 0;
    while i < |rows|
      invariant i <= |rows| && next.Keys == t.Keys
      invariant forall id :: id in t ==>
                  next[id] == (if id in rows[..i] then Dropped(t[id], peer, desired) else t[id])
      invariant forall slot :: slot in pending <==> slot in desired && forall id :: id in rows[..i] ==> SlotOf(t[id]) != slot
    {
      var id := rows[i];
      assert id in rows;
      assert forall other :: other in rows[..i + 1] <==> other in rows[..i] || other == id;
      var slot := SlotOf(t[id]);
      if slot in pending {
        pending := pending - {slot};
      } else {
        AlreadyKept(t, rows, i, peer, desired);
        next := next[id := next[id].(state := Quarantined)];
      }
      i := i + 1;
    }
    assert rows[..i] == rows;
    DroppedUnique(t, next, peer, desired);
    forall slot ensures HoldsSlot(t, peer, slot) <==> exists id :: id in rows && SlotOf(t[id]) == slot {
      HeldIn(t, peer, rows, slot);
    }
  }

  lemma DroppedUnique(t: Table, next: Table, peer: Id, desired: set<Slot>)
    requires Unique(t) && Kept(t, next, peer, desired) && next.Keys == t.Keys
    ensures Unique(next)
  {
    forall i, j | i in next && j in next && i != j && Live(next[i]) && Live(next[j])
      ensures SlotOf(next[i]) != SlotOf(next[j])
    {
      assert i in t && j in t && Live(t[i]) && Live(t[j]);
    }
  }

  lemma HeldIn(t: Table, peer: Id, rows: seq<Id>, slot: Slot)
    requires forall id :: id in rows <==> id in t && Holds(t[id], peer)
    ensures HoldsSlot(t, peer, slot) <==> exists id :: id in rows && SlotOf(t[id]) == slot
  {
  }

  /** A slot that is desired but no longer pending was met before: by this very
      peer and row, as long as slots are unique. */
  lemma AlreadyKept(t: Table, rows: seq<Id>, i: nat, peer: Id, desired: set<Slot>)
    requires Unique(t) && i < |rows| && forall id :: id in rows <==> id in t && Holds(t[id], peer)
    requires forall j, k :: 0 <= j < k < |rows| ==> rows[j] != rows[k]
    ensures rows[i] in t && forall id :: id in rows[..i] ==> id in t && SlotOf(t[id]) != SlotOf(t[rows[i]])
  {
    assert rows[i] in rows;
    forall id | id in rows[..i] ensures id in t && SlotOf(t[id]) != SlotOf(t[rows[i]]) {
      var j :| 0 <= j < i && rows[..i][j] == id;
      assert rows[j] in rows;
    }
  }

  /** Dropping allocations changes who holds what, not what is taken. */
  lemma DroppedHolds(t: Table, next: Table, peer: Id, desired: set<Slot>)
    requires Kept(t, next, peer, desired) && next.Keys == t.Keys
    ensures forall slot :: HoldsSlot(next, peer, slot) <==> slot in desired && HoldsSlot(t, peer, slot)
    ensures forall slot :: Taken(next, slot) <==> Taken(t, slot)
  {
    forall slot ensures HoldsSlot(next, peer, slot) <==> slot in desired && HoldsSlot(t, peer, slot) {
      if HoldsSlot(next, peer, slot) {
        var id :| id in next && Holds(next[id], peer) && SlotOf(next[id]) == slot;
        assert id in t;
      }
    }
    forall slot ensures Taken(next, slot) <==> Taken(t, slot) {
      if Taken(next, slot) {
        var id :| id in next && Live(next[id]) && SlotOf(next[id]) == slot;
        assert id in t;
      }
    }
  }

  lemma InsertedHolds(next: Table, id: Id, peer: Id, slot: Slot)
    requires Unique(next) && id !in next && !Taken(next, slot)
    ensures var after := next[id := Row(slot.pool, peer, slot.address, Allocated)];
            && Unique(after)
            && (forall other :: HoldsSlot(after, peer, other) <==> HoldsSlot(next, peer, other) || other == slot)
            && (forall other :: Taken(after, other) <==> Taken(next, other) || other == slot)
  {
    var after := next[id := Row(slot.pool, peer, slot.address, Allocated)];
    assert SlotOf(after[id]) == slot;
    forall other ensures HoldsSlot(after, peer, other) <==> HoldsSlot(next, peer, other) || other == slot {
      if HoldsSlot(next, peer, other) {
        var i :| i in next && Holds(next[i], peer) && SlotOf(next[i]) == other;
        assert after[i] == next[i];
      }
    }
    forall other ensures Taken(after, other) <==> Taken(next, other) || other == slot {
      if Taken(next, other) {
        var i :| i in next && Live(next[i]) && SlotOf(next[i]) == other;
        assert after[i] == next[i];
      }
    }
  }

  lemma SubsetSize<T>(a: set<T>, b: set<T>)
    requires a <= b
    ensures |a| <= |b|
  {
    if a != {} {
      var x :| x in a;
      SubsetSize(a - {x}, b - {x});
    }
  }

  /** Inserts a row for every pending slot, unless one is taken. */
  method InsertPending(t: Table, dropped: Table, peer: Id, desired: set<Slot>, pending: set<Slot>, ids: seq<Id>)
    returns (result: Option<Table>)
    requires Unique(dropped) && Kept(t, dropped, peer, desired) && dropped.Keys == t.Keys
    requires forall slot :: slot in pending <==> slot in desired && !HoldsSlot(t, peer, slot)
    requires |pending| <= |ids|
    ensures result.Some? ==>
              && Unique(result.value) && Kept(t, result.value, peer, desired) && Added(t, result.value, peer, desired)
              && (forall slot :: HoldsSlot(result.value, peer, slot) <==> slot in desired)
              && (forall slot :: slot in pending ==> !Taken(t, slot))
    ensures result.None? ==>
              || (exists slot :: slot in pending && Taken(t, slot))
              || (exists i :: 0 <= i < |ids| && (ids[i] in t || exists j :: 0 <= j < i && ids[j] == ids[i]))
  {
    hide Unique;
    DroppedHolds(t, dropped, peer, desired);
    var next, left, index := dropped, pending, 0;
    while left != {}
      invariant left <= pending && index + |left| == |pending|
      invariant Unique(next) && Kept(t, next, peer, desired) && Added(t, next, peer, desired)
      invariant forall id :: id in next <==> id in t || exists j :: 0 <= j < index && ids[j] == id
      invariant forall slot :: HoldsSlot(next, peer, slot) <==> slot in desired && slot !in left
      invariant forall slot :: slot in pending && slot !in left ==> !Taken(t, slot)
      invariant forall slot :: slot in left ==> (Taken(next, slot) <==> Taken(t, slot))
      decreases |left|
    {
      var slot :| slot in left;
      var taken := IsTaken(next, slot);
      if taken || ids[index] in next {
        return None;
      }
      InsertedHolds(next, ids[index], peer, slot);
      next := next[ids[index] := Row(slot.pool, peer, slot.address, Allocated)];
      left := left - {slot};
      index := index + 1;
    }
    return Some(next);
  }

  /** Makes a peer's allocations its desired slots.  It is refused exactly if a
      slot the peer does not hold yet is taken, by anyone, or an identifier is in
      use.  On success the peer holds exactly the desired slots, what it dropped
      is quarantined, the rows of others are untouched, and no slot has two live
      rows. */
  method SyncPeerAllocations(t: Table, peer: Id, desired: seq<Slot>, ids: seq<Id>) returns (result: Option<Table>)
    requires Unique(t) && |ids| >= |desired|
    ensures result.Some? ==> var after := result.value;
              && Unique(after)
              && (forall slot :: HoldsSlot(after, peer, slot) <==> slot in desired)
              && Kept(t, after, peer, set s | s in desired) && Added(t, after, peer, set s | s in desired)
    ensures result.None? ==>
              || (exists slot :: slot in desired && !HoldsSlot(t, peer, slot) && Taken(t, slot))
              || (exists i :: 0 <= i < |ids| && (ids[i] in t || exists j :: 0 <= j < i && ids[j] == ids[i]))
    ensures (exists slot :: slot in desired && !HoldsSlot(t, peer, slot) && Taken(t, slot)) ==> result.None?
  {
    var wanted := set s | s in desired;
    var next, pending := DropAllocations(t, peer, wanted);
    WantedSize(desired);
    assert pending <= wanted;
    SubsetSize(pending, wanted);
    result := InsertPending(t, next, peer, wanted, pending, ids);
  }

  lemma WantedSize(desired: seq<Slot>)
    ensures |set s | s in desired| <= |desired|
  {
    if desired != [] {
      var n := |desired| - 1;
      WantedSize(desired[..n]);
      assert (set s | s in desired) == (set s | s in desired[..n]) + {desired[n]} by {
        FrontAndLast(desired);
      }
    }
  }

  /** The rows after a peer's allocations were made its host prefixes in pools. */
  ghost predicate Synced(t: Table, next: Table, peer: Id, values: seq<Prefix>, pools: seq<Pool>)
    requires ValidPools(pools) && forall v :: v in values ==> ValidPrefix(v)
  {
    && Unique(next) && (forall slot :: HoldsSlot(next, peer, slot) <==> Wants(values, pools, slot))
    && exists desired :: Kept(t, next, peer, desired) && Added(t, next, peer, desired)
  }

  /** The allocation part of an update, end to end: afterwards the peer holds
      exactly its host prefixes that lie in a pool. */
  method UpdateAllocations(t: Table, peer: Id, values: seq<Prefix>, pools: seq<Pool>, ids: seq<Id>)
    returns (result: Option<Table>)
    requires Unique(t) && ValidPools(pools) && (forall v :: v in values ==> ValidPrefix(v))
    requires |ids| >= |values|
    ensures result.Some? ==>
              && Unique(result.value)
              && (forall slot :: HoldsSlot(result.value, peer, slot) <==> Wants(values, pools, slot))
              && (forall id :: id in t && t[id].peer != peer ==> id in result.value && result.value[id] == t[id])
              && (forall id :: id in t && Holds(t[id], peer) && !Wants(values, pools, SlotOf(t[id])) ==>
                    id in result.value && result.value[id] == t[id].(state := Quarantined))
    ensures result.Some? ==> Synced(t, result.value, peer, values, pools)
    ensures (exists v :: v in values && Ambiguous(Masked(v), pools)) ==> result.None?
    ensures (exists slot :: Wants(values, pools, slot) && !HoldsSlot(t, peer, slot) && Taken(t, slot)) ==> result.None?
    ensures result.None? ==>
              || (exists v :: v in values && Ambiguous(Masked(v), pools))
              || (exists slot :: Wants(values, pools, slot) && !HoldsSlot(t, peer, slot) && Taken(t, slot))
              || (exists i :: 0 <= i < |ids| && (ids[i] in t || exists j :: 0 <= j < i && ids[j] == ids[i]))
  {
    var ok, _, slots := ClassifyUpdatedAllowedIPs(values, pools);
    if !ok {
      return None;
    }
    result := SyncPeerAllocations(t, peer, slots, ids);
  }

  /** Revoking quarantines every address of the peer. */
  function Quarantine(t: Table, peer: Id): Table {
    map i | i in t :: if Holds(t[i], peer) then t[i].(state := Quarantined) else t[i]
  }

  lemma QuarantineKeeps(t: Table, peer: Id)
    requires Unique(t)
    ensures Unique(Quarantine(t, peer))
  {
    var next := Quarantine(t, peer);
    forall i, j | i in next && j in next && i != j && Live(next[i]) && Live(next[j])
      ensures SlotOf(next[i]) != SlotOf(next[j])
    {
      assert Live(t[i]) && Live(t[j]);
    }
  }

  // ---- Create, disable and enable ----

  /** The slot of a requested tunnel address: a host in the first pool around it,
      with no allocated or quarantined row. */
  ghost predicate Admits(p: Prefix, pools: seq<Pool>, t: Table, slot: Slot)
    requires ValidPools(pools)
  {
    && IsHost(p) && slot.address == p.addr && !Taken(t, slot)
    && exists k :: 0 <= k < |pools| && pools[k].id == slot.pool && FirstAround(p, pools, k)
  }

  ghost predicate Available(p: Prefix, pools: seq<Pool>, t: Table)
    requires ValidPools(pools)
  {
    exists slot :: Admits(p, pools, t, slot)
  }

  predicate FirstAround(p: Prefix, pools: seq<Pool>, k: nat)
    requires ValidPools(pools) && k < |pools|
  {
    Contains(pools[k].cidr, p.addr) && forall j :: 0 <= j < k ==> !Contains(pools[j].cidr, p.addr)
  }

  /** The check of a tunnel address: it finds the slot, if there is one. */
  method ValidateAddressCandidate(p: Prefix, pools: seq<Pool>, t: Table) returns (found: Option<Slot>)
    requires ValidPools(pools)
    ensures forall slot :: found == Some(slot) <==> Admits(p, pools, t, slot)
  {
    if !IsHost(p) {
      return None;
    }
    for k := 0 to |pools|
      invariant forall j :: 0 <= j < k ==> !Contains(pools[j].cidr, p.addr)
    {
      if Contains(pools[k].cidr, p.addr) {
        var slot := Slot(pools[k].id, p.addr);
        var taken := IsTaken(t, slot);
        assert FirstAround(p, pools, k);
        assert forall j :: 0 <= j < |pools| && FirstAround(p, pools, j) ==> j == k;
        return if taken then None else Some(slot);
      }
    }
    return None;
  }

  /** The rows of peers and of allocations. */
  datatype Registry = Registry(peers: map<Id, PeerRow>, rows: Table)

  ghost predicate Sound(s: Registry) {
    ValidRows(s.peers) && Disjoint(s.peers) && Unique(s.rows)
  }

  /** No address of the list belongs to an active peer. */
  ghost predicate Unclaimed(values: seq<Prefix>, peers: map<Id, PeerRow>)
    requires ValidRows(peers) && forall p :: p in values ==> ValidPrefix(p)
  {
    forall id :: id in peers && peers[id].lifecycle.Active? ==> Apart(values, peers[id].prefixes)
  }

  /** A new peer: its first prefix is checked as a tunnel address and allocated,
      all of them are checked against the active peers. */
  ghost predicate Creates(s: Registry, next: Registry, pools: seq<Pool>, id: Id, values: seq<Prefix>, row: Id)
    requires ValidPools(pools) && ValidRows(s.peers)
  {
    && id !in s.peers && row !in s.rows && values != [] && (forall p :: p in values ==> ValidPrefix(p))
    && Unclaimed(values, s.peers)
    && exists slot :: Admits(values[0], pools, s.rows, slot)
                      && next == Registry(s.peers[id := PeerRow(Active, values)],
                                          s.rows[row := Row(slot.pool, id, slot.address, Allocated)])
  }

  /** Enabling and disabling keep the prefixes and the allocations. */
  ghost predicate Switches(s: Registry, next: Registry, id: Id, from: Lifecycle, to: Lifecycle) {
    id in s.peers && s.peers[id].lifecycle == from && next == s.(peers := s.peers[id := s.peers[id].(lifecycle := to)])
  }

  /** What create checks keeps the registry sound. */
  lemma CreateKeepsSound(s: Registry, next: Registry, pools: seq<Pool>, id: Id, values: seq<Prefix>, row: Id)
    requires ValidPools(pools) && Sound(s) && Creates(s, next, pools, id, values, row)
    ensures Sound(next)
  {
    var slot :| Admits(values[0], pools, s.rows, slot)
                && next == Registry(s.peers[id := PeerRow(Active, values)],
                                    s.rows[row := Row(slot.pool, id, slot.address, Allocated)]);
    InsertedHolds(s.rows, row, id, slot);
    forall a, b | a in next.peers && b in next.peers && a != b && next.peers[a].lifecycle.Active? && next.peers[b].lifecycle.Active?
      ensures Apart(next.peers[a].prefixes, next.peers[b].prefixes)
    {
      if b == id {
        ApartSymmetric(s.peers[a].prefixes, values);
      }
    }
  }

  /** Nothing but the checks can refuse. */
  lemma Create(s: Registry, pools: seq<Pool>, id: Id, values: seq<Prefix>, row: Id) returns (next: Registry)
    requires ValidPools(pools) && ValidRows(s.peers) && id !in s.peers && row !in s.rows
    requires values != [] && (forall p :: p in values ==> ValidPrefix(p)) && Unclaimed(values, s.peers)
    requires Available(values[0], pools, s.rows)
    ensures Creates(s, next, pools, id, values, row) && next.peers == s.peers[id := PeerRow(Active, values)]
    ensures next.rows.Keys == s.rows.Keys + {row}
  {
    var slot :| Admits(values[0], pools, s.rows, slot);
    next := Registry(s.peers[id := PeerRow(Active, values)], s.rows[row := Row(slot.pool, id, slot.address, Allocated)]);
  }

  /** The new row takes one address only. */
  lemma StillAdmits(s: Registry, next: Registry, pools: seq<Pool>, id: Id, values: seq<Prefix>, row: Id, t: Prefix)
    requires ValidPools(pools) && Sound(s) && Creates(s, next, pools, id, values, row) && t.addr != values[0].addr
    requires Available(t, pools, s.rows)
    ensures Available(t, pools, next.rows)
  {
    var slot :| Admits(values[0], pools, s.rows, slot)
                && next == Registry(s.peers[id := PeerRow(Active, values)],
                                    s.rows[row := Row(slot.pool, id, slot.address, Allocated)]);
    var other :| Admits(t, pools, s.rows, other);
    InsertedHolds(s.rows, row, id, slot);
    assert Admits(t, pools, next.rows, other);
  }

  lemma DisableKeepsSound(s: Registry, s1: Registry, s2: Registry, id: Id, values: seq<Prefix>, others: seq<Prefix>)
    requires Sound(s) && Sound(s1) && id !in s.peers && s1.peers == s.peers[id := PeerRow(Active, values)]
    requires s2 == s1.(peers := s1.peers[id := PeerRow(Disabled, values)])
    requires (forall p :: p in others ==> ValidPrefix(p)) && Unclaimed(others, s.peers)
    ensures Switches(s1, s2, id, Active, Disabled) && Sound(s2) && Unclaimed(others, s2.peers)
    ensures s2.peers == s.peers[id := PeerRow(Disabled, values)]
  {
    assert s1.peers[id := PeerRow(Disabled, values)] == s.peers[id := PeerRow(Disabled, values)];
    assert forall other :: other in s2.peers && s2.peers[other].lifecycle.Active? ==> other in s1.peers && s1.peers[other] == s2.peers[other];
    assert forall other :: other in s2.peers && s2.peers[other].lifecycle.Active? ==> other in s.peers && s.peers[other] == s2.peers[other];
    SoundWithout(s1, s2, id);
  }

  lemma SoundWithout(s: Registry, next: Registry, id: Id)
    requires Sound(s) && Switches(s, next, id, Active, Disabled)
    ensures Sound(next)
  {
    forall a, b | a in next.peers && b in next.peers && a != b && next.peers[a].lifecycle.Active? && next.peers[b].lifecycle.Active?
      ensures Apart(next.peers[a].prefixes, next.peers[b].prefixes)
    {
      assert next.peers[a] == s.peers[a] && next.peers[b] == s.peers[b];
    }
  }

  /** A disabled peer is not looked at, and its row takes its own slot only. */
  lemma CreateBeside(s: Registry, pools: seq<Pool>, a: Id, b: Id, p: Prefix, t1: Prefix, t2: Prefix, rowA: Id, rowB: Id)
    returns (s1: Registry, s2: Registry, s3: Registry)
    requires ValidPools(pools) && Sound(s) && ValidPrefix(p) && ValidPrefix(t1) && ValidPrefix(t2)
    requires a !in s.peers && b !in s.peers && a != b && rowA !in s.rows && rowB !in s.rows && rowA != rowB
    requires t1.addr != t2.addr && Available(t1, pools, s.rows) && Available(t2, pools, s.rows)
    requires Unclaimed([t1, p], s.peers) && Unclaimed([t2, p], s.peers)
    ensures Creates(s, s1, pools, a, [t1, p], rowA) && Switches(s1, s2, a, Active, Disabled)
    ensures Sound(s1) && Sound(s2) && Creates(s2, s3, pools, b, [t2, p], rowB) && Sound(s3)
    ensures s3.peers == s.peers[a := PeerRow(Disabled, [t1, p])][b := PeerRow(Active, [t2, p])]
  {
    hide Apart, Unique, Unclaimed, Available, Creates, Switches, ValidPools, ValidRows, Disjoint, ValidPrefix;
    assert [t1, p][0] == t1 && [t2, p][0] == t2;
    s1 := Create(s, pools, a, [t1, p], rowA);
    CreateKeepsSound(s, s1, pools, a, [t1, p], rowA);
    StillAdmits(s, s1, pools, a, [t1, p], rowA, t2);
    s2 := s1.(peers := s1.peers[a := PeerRow(Disabled, [t1, p])]);
    DisableKeepsSound(s, s1, s2, a, [t1, p], [t2, p]);
    s3 := Create(s2, pools, b, [t2, p], rowB);
    CreateKeepsSound(s2, s3, pools, b, [t2, p], rowB);
  }

  /** And the check can be missing: in every sound registry and for every prefix
      that no active peer uses, create a peer with it, disable it, create another
      one with it, and enable the first again.  Two active peers share it. */
  lemma EnableCanCollide(s: Registry, pools: seq<Pool>, a: Id, b: Id, p: Prefix, t1: Prefix, t2: Prefix, rowA: Id, rowB: Id)
    returns (s1: Registry, s2: Registry, s3: Registry, s4: Registry)
    requires ValidPools(pools) && Sound(s) && ValidPrefix(p) && ValidPrefix(t1) && ValidPrefix(t2)
    requires a !in s.peers && b !in s.peers && a != b && rowA !in s.rows && rowB !in s.rows && rowA != rowB
    requires t1.addr != t2.addr && Available(t1, pools, s.rows) && Available(t2, pools, s.rows)
    requires Unclaimed([t1, p], s.peers) && Unclaimed([t2, p], s.peers)
    ensures Creates(s, s1, pools, a, [t1, p], rowA) && Switches(s1, s2, a, Active, Disabled)
    ensures Sound(s2) && Creates(s2, s3, pools, b, [t2, p], rowB) && Sound(s3)
    ensures Switches(s3, s4, a, Disabled, Active) && ValidRows(s4.peers) && !Disjoint(s4.peers)
    ensures p in s4.peers[a].prefixes && p in s4.peers[b].prefixes && s4.peers[a].lifecycle.Active? && s4.peers[b].lifecycle.Active?
  {
    s1, s2, s3 := CreateBeside(s, pools, a, b, p, t1, t2, rowA, rowB);
    s4 := s3.(peers := s3.peers[a := PeerRow(Active, [t1, p])]);
    assert Contains(p, p.addr);
    assert Share(p, p);
    assert p in [t1, p] && p in [t2, p];
    assert !Apart(s4.peers[a].prefixes, s4.peers[b].prefixes);
  }

  /** In particular from nothing, with one pool that holds two addresses. */
  lemma EnableCollidesFromEmpty(pool: Pool, p: Prefix, t1: Prefix, t2: Prefix)
    returns (s1: Registry, s2: Registry, s3: Registry, s4: Registry)
    requires ValidPrefix(pool.cidr) && ValidPrefix(p) && ValidPrefix(t1) && ValidPrefix(t2) && t1.addr != t2.addr
    requires InPool(t1, pool) && InPool(t2, pool)
    ensures Creates(Registry(map[], map[]), s1, [pool], "a", [t1, p], "r") && Switches(s1, s2, "a", Active, Disabled)
    ensures Sound(s2) && Creates(s2, s3, [pool], "b", [t2, p], "q") && Sound(s3)
    ensures Switches(s3, s4, "a", Disabled, Active) && ValidRows(s4.peers) && !Disjoint(s4.peers)
  {
    assert FirstAround(t1, [pool], 0) && FirstAround(t2, [pool], 0);
    assert Admits(t1, [pool], map[], Slot(pool.id, t1.addr)) && Admits(t2, [pool], map[], Slot(pool.id, t2.addr));
    assert "a" != "b" && "r" != "q" by {
      assert "a"[0] != "b"[0] && "r"[0] != "q"[0];
    }
    s1, s2, s3, s4 := EnableCanCollide(Registry(map[], map[]), [pool], "a", "b", p, t1, t2, "r", "q");
  }
  /** The addresses of a disabled peer pass the check and are not free: in every
      sound registry and for every free tunnel address, create a peer with it,
      disable it, and give the address to another one. */
  lemma UpdateCanBeRefused(s: Registry, pools: seq<Pool>, a: Id, b: Id, t: Prefix, row: Id)
    returns (s1: Registry, s2: Registry, slot: Slot)
    requires ValidPools(pools) && Sound(s) && ValidPrefix(t) && a !in s.peers && a != b && row !in s.rows
    requires Available(t, pools, s.rows) && Unclaimed([t], s.peers)
    ensures Creates(s, s1, pools, a, [t], row) && Switches(s1, s2, a, Active, Disabled) && Sound(s2)
    ensures Unclaimed([t], s2.peers)
    ensures Wants([t], pools, slot) && !HoldsSlot(s2.rows, b, slot) && Taken(s2.rows, slot)
  {
    hide Apart, Unclaimed, Disjoint;
    s1 := Create(s, pools, a, [t], row);
    CreateKeepsSound(s, s1, pools, a, [t], row);
    s2 := s1.(peers := s1.peers[a := PeerRow(Disabled, [t])]);
    DisableKeepsSound(s, s1, s2, a, [t], [t]);
    slot :| Admits(t, pools, s.rows, slot) && s1.rows == s.rows[row := Row(slot.pool, a, slot.address, Allocated)];
    var k :| 0 <= k < |pools| && pools[k].id == slot.pool && FirstAround(t, pools, k);
    assert Masked(t) == t;
    assert pools[k] in pools && InPool(Masked(t), pools[k]) && t in [t];
    assert s2.rows[row] == Row(slot.pool, a, slot.address, Allocated) && SlotOf(s2.rows[row]) == slot;
    forall id | id in s2.rows && Holds(s2.rows[id], b) ensures SlotOf(s2.rows[id]) != slot {
      assert id != row && Live(s2.rows[id]) && Live(s2.rows[row]);
    }
  }
}
