/** The adoption transactions, row by row: planning the import, importing,
    attaching staged secrets and rolling back.  Each loop is proved to compute
    the function of the tables that AdoptionTables.dfy reasons about. */
module AdoptionStore {
  import opened Text
  import opened Prefixes
  import opened AdoptionTables

  // ---- Planning ----

  datatype Assignment = Assignment(allowedId: Id, peer: Id, pool: Option<Prefix>, address: Addr,
                                   previous: Purpose, purpose: Purpose)

  datatype Plan = Plan(pools: seq<PoolRow>, assignments: seq<Assignment>)

  predicate ValidPools(pools: seq<PoolRow>) {
    forall i :: 0 <= i < |pools| ==> ValidPrefix(pools[i].cidr)
  }

  predicate InPool(p: Prefix, pool: PoolRow)
    requires ValidPrefix(pool.cidr)
  {
    IsHost(p) && Contains(pool.cidr, p.addr)
  }

  predicate InSome(p: Prefix, pools: seq<PoolRow>)
    requires ValidPools(pools)
  {
    exists i :: 0 <= i < |pools| && InPool(p, pools[i])
  }

  /** What a prefix is for, once the pools are known. */
  function PurposeIn(p: Prefix, pools: seq<PoolRow>): Purpose
    requires ValidPools(pools)
  {
    if InSome(p, pools) then TunnelAddress else RoutedSubnet
  }

  predicate Ambiguous(p: Prefix, pools: seq<PoolRow>)
    requires ValidPools(pools)
  {
    exists i, j :: 0 <= i < j < |pools| && InPool(p, pools[i]) && InPool(p, pools[j])
  }

  function PoolFor(address: Prefix): PoolRow
    requires ValidPrefix(address)
  {
    PoolRow(Masked(address), address.addr)
  }

  predicate TwoGateways(addresses: seq<Option<Prefix>>)
    requires forall i :: 0 <= i < |addresses| && addresses[i].Some? ==> ValidPrefix(addresses[i].value)
  {
    exists i, j :: 0 <= i < j < |addresses| && addresses[i].Some? && addresses[j].Some? && (
      var a, b := PoolFor(addresses[i].value), PoolFor(addresses[j].value);
      a.cidr == b.cidr && a.gateway != b.gateway)
  }

  predicate HasPool(addresses: seq<Option<Prefix>>, pool: PoolRow)
    requires forall i :: 0 <= i < |addresses| && addresses[i].Some? ==> ValidPrefix(addresses[i].value)
  {
    exists i :: 0 <= i < |addresses| && addresses[i].Some? && PoolFor(addresses[i].value) == pool
  }

  /** One pool for every network the interface has an address in; nothing if an
      address is invalid or a network has two addresses. */
  method PlanPools(addresses: seq<Option<Prefix>>) returns (ok: bool, pools: seq<PoolRow>)
    requires forall i :: 0 <= i < |addresses| && addresses[i].Some? ==> ValidPrefix(addresses[i].value)
    ensures ok ==> ValidPools(pools) && pools != []
    ensures ok ==> forall i, j :: 0 <= i < j < |pools| ==> pools[i].cidr != pools[j].cidr
    ensures ok ==> forall i :: 0 <= i < |addresses| ==> addresses[i].Some? && PoolFor(addresses[i].value) in pools
    ensures ok ==> forall pool :: pool in pools ==> HasPool(addresses, pool)
    ensures ok <==> addresses != [] && (forall i :: 0 <= i < |addresses| ==> addresses[i].Some?) && !TwoGateways(addresses)
  {
    ok, pools := false, [];
    var byCidr: map<Prefix, Addr> := map[];
    for i := 0 to |addresses|
      invariant forall k :: 0 <= k < i ==> addresses[k].Some? && Masked(addresses[k].value) in byCidr
                                           && byCidr[Masked(addresses[k].value)] == addresses[k].value.addr
      invariant forall cidr :: cidr in byCidr ==>
                  exists k :: 0 <= k < i && addresses[k].Some? && Masked(addresses[k].value) == cidr
                              && byCidr[cidr] == addresses[k].value.addr
      invariant i > 0 ==> byCidr != map[]
    {
      if addresses[i].None? {
        return;
      }
      var cidr, address := Masked(addresses[i].value), addresses[i].value.addr;
      if cidr in byCidr && byCidr[cidr] != address {
        return;
      }
      byCidr := byCidr[cidr := address];
    }
    if byCidr == map[] {
      return;
    }
    pools := ListPools(byCidr);
    PlannedPools(addresses, byCidr, pools);
    ok := true;
  }

  /** The pools listed are those of the addresses. */
  lemma PlannedPools(addresses: seq<Option<Prefix>>, byCidr: map<Prefix, Addr>, pools: seq<PoolRow>)
    requires forall i :: 0 <= i < |addresses| ==> addresses[i].Some? && ValidPrefix(addresses[i].value)
    requires forall k :: 0 <= k < |addresses| ==> Masked(addresses[k].value) in byCidr
                                                  && byCidr[Masked(addresses[k].value)] == addresses[k].value.addr
    requires forall cidr :: cidr in byCidr ==>
               exists k :: 0 <= k < |addresses| && Masked(addresses[k].value) == cidr
                           && byCidr[cidr] == addresses[k].value.addr
    requires forall pool :: pool in pools <==> pool.cidr in byCidr && byCidr[pool.cidr] == pool.gateway
    ensures ValidPools(pools) && !TwoGateways(addresses)
    ensures forall i :: 0 <= i < |addresses| ==> PoolFor(addresses[i].value) in pools
    ensures forall pool :: pool in pools ==> HasPool(addresses, pool)
  {
    hide Masked, ValidPrefix;
    forall pool | pool in pools ensures ValidPrefix(pool.cidr) && HasPool(addresses, pool) {
      var k :| 0 <= k < |addresses| && Masked(addresses[k].value) == pool.cidr
               && byCidr[pool.cidr] == addresses[k].value.addr;
      MaskedSame(addresses[k].value);
      assert PoolFor(addresses[k].value) == pool;
    }
  }

  method ListPools(byCidr: map<Prefix, Addr>) returns (pools: seq<PoolRow>)
    ensures forall pool :: pool in pools <==> pool.cidr in byCidr && byCidr[pool.cidr] == pool.gateway
    ensures forall i, j :: 0 <= i < j < |pools| ==> pools[i].cidr != pools[j].cidr
    ensures byCidr != map[] ==> pools != []
  {
    pools := [];
    var left := byCidr.Keys;
    while left != {}
      invariant left <= byCidr.Keys
      invariant forall pool :: pool in pools <==> pool.cidr in byCidr && pool.cidr !in left && byCidr[pool.cidr] == pool.gateway
      invariant forall i, j :: 0 <= i < j < |pools| ==> pools[i].cidr != pools[j].cidr
      decreases |left|
    {
      var cidr :| cidr in left;
      assert forall i :: 0 <= i < |pools| ==> pools[i] in pools;
      pools := pools + [PoolRow(cidr, byCidr[cidr])];
      left := left - {cidr};
    }
    if byCidr != map[] {
      var cidr :| cidr in byCidr;
      assert PoolRow(cidr, byCidr[cidr]) in pools;
    }
  }

  /** The only pool a host lies in. */
  method FindPool(p: Prefix, pools: seq<PoolRow>) returns (ambiguous: bool, cidr: Option<Prefix>)
    requires ValidPools(pools)
    ensures ambiguous <==> Ambiguous(p, pools)
    ensures !ambiguous ==> (cidr.Some? <==> InSome(p, pools))
    ensures !ambiguous && cidr.Some? ==> exists i :: 0 <= i < |pools| && InPool(p, pools[i]) && pools[i].cidr == cidr.value
  {
    ambiguous, cidr := false, None;
    if !IsHost(p) {
      return;
    }
    for i := 0 to |pools|
      invariant cidr.Some? <==> exists k :: 0 <= k < i && InPool(p, pools[k])
      invariant forall j, k :: 0 <= j < k < i ==> !(InPool(p, pools[j]) && InPool(p, pools[k]))
      invariant cidr.Some? ==> exists k :: 0 <= k < i && InPool(p, pools[k]) && pools[k].cidr == cidr.value
    {
      if Contains(pools[i].cidr, p.addr) {
        assert InPool(p, pools[i]);
        if cidr.Some? {
          return true, None;
        }
        cidr := Some(pools[i].cidr);
      }
    }
  }

  /** What is planned for one row: its purpose from the pools, read against the
      row as it is, and an allocation if it is a host of a pool. */
  ghost predicate Planned(a: Assignment, t: Tables, pools: seq<PoolRow>)
    requires ValidPools(pools)
  {
    && a.allowedId in t.allowed
    && var row := t.allowed[a.allowedId];
       && a.peer == row.peer && a.previous == row.purpose && a.purpose == PurposeIn(row.cidr, pools)
       && (a.pool.Some? <==> InSome(row.cidr, pools))
       && (a.pool.Some? ==> a.address == row.cidr.addr
                            && exists i :: 0 <= i < |pools| && pools[i].cidr == a.pool.value && InPool(row.cidr, pools[i]))
  }

  ghost predicate PlannedAll(assignments: seq<Assignment>, t: Tables, pools: seq<PoolRow>, rows: seq<Id>)
    requires ValidPools(pools)
  {
    && (forall k :: 0 <= k < |assignments| ==> Planned(assignments[k], t, pools) && assignments[k].allowedId in rows)
    && (forall j, k :: 0 <= j < k < |assignments| ==> assignments[j].allowedId != assignments[k].allowedId)
    && (forall id :: id in rows ==> id in t.allowed)
    && (forall id :: id in rows && (InSome(t.allowed[id].cidr, pools) || t.allowed[id].purpose != RoutedSubnet) ==>
          exists k :: 0 <= k < |assignments| && assignments[k].allowedId == id)
  }

  /** Two rows claim one address of one pool for different peers. */
  predicate Contested(t: Tables, pools: seq<PoolRow>, rows: seq<Id>, j: nat, i: nat)
    requires ValidPools(pools) && j < i < |rows| && rows[j] in t.allowed && rows[i] in t.allowed
  {
    var a, b := t.allowed[rows[j]], t.allowed[rows[i]];
    && a.cidr.addr == b.cidr.addr && a.peer != b.peer
    && exists k :: 0 <= k < |pools| && InPool(a.cidr, pools[k]) && InPool(b.cidr, pools[k])
  }

  predicate Plannable(t: Tables, pools: seq<PoolRow>, rows: seq<Id>)
    requires ValidPools(pools) && (forall id :: id in rows ==> id in t.allowed)
  {
    && (forall i :: 0 <= i < |rows| ==> !Ambiguous(t.allowed[rows[i]].cidr, pools))
    && (forall j, i :: 0 <= j < i < |rows| ==> !Contested(t, pools, rows, j, i))
  }

  /** Plans the rows of active peers; refuses a host in two pools and an address
      two peers claim, and nothing else. */
  method PlanAssignments(t: Tables, pools: seq<PoolRow>, rows: seq<Id>) returns (ok: bool, assignments: seq<Assignment>)
    requires ValidPools(pools) && (forall id :: id in rows ==> id in t.allowed)
    requires forall i, j :: 0 <= i < j < |rows| ==> rows[i] != rows[j]
    ensures ok ==> PlannedAll(assignments, t, pools, rows)
    ensures ok <==> Plannable(t, pools, rows)
  {
    ok, assignments := false, [];
    var used: map<(Prefix, Addr), Id> := map[];
    for i := 0 to |rows|
      invariant PlannedAll(assignments, t, pools, rows[..i])
      invariant UsedBy(t, pools, rows[..i], used)
    {
      assert rows[i] in rows;
      var row := t.allowed[rows[i]];
      var ambiguous, cidr := FindPool(row.cidr, pools);
      if ambiguous {
        return;
      }
      if cidr.Some? {
        var key := (cidr.value, row.cidr.addr);
        if key in used && used[key] != row.peer {
          UsedContested(t, pools, rows, i, used, key);
          return;
        }
        UsedMore(t, pools, rows, i, used, key);
        used := used[key := row.peer];
      } else {
        UsedStill(t, pools, rows, i, used);
      }
      var purpose := if cidr.Some? then TunnelAddress else RoutedSubnet;
      PlanOne(assignments, t, pools, rows, i, Assignment(rows[i], row.peer, cidr, row.cidr.addr, row.purpose, purpose));
      if cidr.Some? || row.purpose != purpose {
        assignments := assignments + [Assignment(rows[i], row.peer, cidr, row.cidr.addr, row.purpose, purpose)];
      }
    }
    assert rows[..|rows|] == rows;
    UsedPlannable(t, pools, rows, used);
    ok := true;
  }

  /** The addresses claimed so far, by pool, and who claims them. */
  ghost predicate UsedBy(t: Tables, pools: seq<PoolRow>, rows: seq<Id>, used: map<(Prefix, Addr), Id>)
    requires ValidPools(pools)
  {
    && (forall id :: id in rows ==> id in t.allowed && !Ambiguous(t.allowed[id].cidr, pools))
    && (forall id, k :: id in rows && 0 <= k < |pools| && InPool(t.allowed[id].cidr, pools[k]) ==>
          Claim(t.allowed[id], pools[k]) in used && used[Claim(t.allowed[id], pools[k])] == t.allowed[id].peer)
    && (forall key :: key in used ==> ClaimedBy(t, pools, rows, key, used[key]))
  }

  function Claim(row: AllowedRow, pool: PoolRow): (Prefix, Addr) {
    (pool.cidr, row.cidr.addr)
  }

  ghost predicate ClaimedBy(t: Tables, pools: seq<PoolRow>, rows: seq<Id>, key: (Prefix, Addr), peer: Id)
    requires ValidPools(pools)
  {
    exists j, k :: 0 <= j < |rows| && rows[j] in t.allowed && 0 <= k < |pools| && InPool(t.allowed[rows[j]].cidr, pools[k])
                   && key == Claim(t.allowed[rows[j]], pools[k]) && t.allowed[rows[j]].peer == peer
  }

  lemma UsedContested(t: Tables, pools: seq<PoolRow>, rows: seq<Id>, i: nat, used: map<(Prefix, Addr), Id>, key: (Prefix, Addr))
    requires ValidPools(pools) && i < |rows| && (forall id :: id in rows ==> id in t.allowed)
    requires UsedBy(t, pools, rows[..i], used) && key in used && used[key] != t.allowed[rows[i]].peer
    requires key.1 == t.allowed[rows[i]].cidr.addr
    requires exists k :: 0 <= k < |pools| && InPool(t.allowed[rows[i]].cidr, pools[k]) && pools[k].cidr == key.0
    ensures !Plannable(t, pools, rows)
  {
    assert ClaimedBy(t, pools, rows[..i], key, used[key]);
    var j, k :| 0 <= j < i && rows[..i][j] in t.allowed && 0 <= k < |pools| && InPool(t.allowed[rows[..i][j]].cidr, pools[k])
                && key == Claim(t.allowed[rows[..i][j]], pools[k]) && t.allowed[rows[..i][j]].peer == used[key];
    assert Contested(t, pools, rows, j, i);
  }

  lemma ClaimedMore(t: Tables, pools: seq<PoolRow>, rows: seq<Id>, i: nat, key: (Prefix, Addr), peer: Id)
    requires ValidPools(pools) && i < |rows| && ClaimedBy(t, pools, rows[..i], key, peer)
    ensures ClaimedBy(t, pools, rows[..i + 1], key, peer)
  {
    var j, k :| 0 <= j < i && rows[..i][j] in t.allowed && 0 <= k < |pools| && InPool(t.allowed[rows[..i][j]].cidr, pools[k])
                && key == Claim(t.allowed[rows[..i][j]], pools[k]) && t.allowed[rows[..i][j]].peer == peer;
    assert rows[..i + 1][j] == rows[..i][j];
  }

  lemma UsedStill(t: Tables, pools: seq<PoolRow>, rows: seq<Id>, i: nat, used: map<(Prefix, Addr), Id>)
    requires ValidPools(pools) && i < |rows| && rows[i] in t.allowed && UsedBy(t, pools, rows[..i], used)
    requires !InSome(t.allowed[rows[i]].cidr, pools)
    ensures UsedBy(t, pools, rows[..i + 1], used)
  {
    assert rows[..i + 1] == rows[..i] + [rows[i]];
    forall key | key in used ensures ClaimedBy(t, pools, rows[..i + 1], key, used[key]) {
      ClaimedMore(t, pools, rows, i, key, used[key]);
    }
  }

  lemma UsedMore(t: Tables, pools: seq<PoolRow>, rows: seq<Id>, i: nat, used: map<(Prefix, Addr), Id>, key: (Prefix, Addr))
    requires ValidPools(pools) && i < |rows| && rows[i] in t.allowed && UsedBy(t, pools, rows[..i], used)
    requires !Ambiguous(t.allowed[rows[i]].cidr, pools)
    requires key in used ==> used[key] == t.allowed[rows[i]].peer
    requires key.1 == t.allowed[rows[i]].cidr.addr
    requires exists k :: 0 <= k < |pools| && InPool(t.allowed[rows[i]].cidr, pools[k]) && pools[k].cidr == key.0
    ensures UsedBy(t, pools, rows[..i + 1], used[key := t.allowed[rows[i]].peer])
  {
    hide InPool, Contains;
    var row, more := t.allowed[rows[i]], rows[..i + 1];
    var next := used[key := row.peer];
    assert more == rows[..i] + [rows[i]] && more[i] == rows[i];
    var k :| 0 <= k < |pools| && InPool(row.cidr, pools[k]) && pools[k].cidr == key.0;
    assert forall m :: 0 <= m < |pools| && InPool(row.cidr, pools[m]) ==> m == k;
    assert key == Claim(row, pools[k]);
    forall other | other in next ensures ClaimedBy(t, pools, more, other, next[other]) {
      if other != key {
        ClaimedMore(t, pools, rows, i, other, used[other]);
      } else {
        assert more[i] in t.allowed;
      }
    }
  }

  lemma UsedPlannable(t: Tables, pools: seq<PoolRow>, rows: seq<Id>, used: map<(Prefix, Addr), Id>)
    requires ValidPools(pools) && (forall id :: id in rows ==> id in t.allowed) && UsedBy(t, pools, rows, used)
    ensures Plannable(t, pools, rows)
  {
    forall j, i, k | 0 <= j < i < |rows| && 0 <= k < |pools| && t.allowed[rows[j]].cidr.addr == t.allowed[rows[i]].cidr.addr
                     && InPool(t.allowed[rows[j]].cidr, pools[k]) && InPool(t.allowed[rows[i]].cidr, pools[k])
      ensures t.allowed[rows[j]].peer == t.allowed[rows[i]].peer
    {
      assert rows[j] in rows && rows[i] in rows;
    }
  }

  lemma PlanOne(assignments: seq<Assignment>, t: Tables, pools: seq<PoolRow>, rows: seq<Id>, i: nat, a: Assignment)
    requires ValidPools(pools) && i < |rows| && rows[i] in t.allowed
    requires PlannedAll(assignments, t, pools, rows[..i])
    requires forall j, k :: 0 <= j < k < |rows| ==> rows[j] != rows[k]
    requires a.allowedId == rows[i] && Planned(a, t, pools)
    ensures PlannedAll(assignments + [a], t, pools, rows[..i + 1])
    ensures a.pool.None? && a.previous == RoutedSubnet ==> PlannedAll(assignments, t, pools, rows[..i + 1])
  {
    var more, some := rows[..i + 1], rows[..i];
    assert more == some + [rows[i]];
    forall k | 0 <= k < |assignments| ensures assignments[k].allowedId != rows[i] {
      assert assignments[k].allowedId in some;
      var j :| 0 <= j < i && some[j] == assignments[k].allowedId;
      assert rows[j] != rows[i];
    }
    assert (assignments + [a])[|assignments|] == a;
    forall id | id in some && (InSome(t.allowed[id].cidr, pools) || t.allowed[id].purpose != RoutedSubnet)
      ensures exists k :: 0 <= k < |assignments + [a]| && (assignments + [a])[k].allowedId == id
    {
      var k :| 0 <= k < |assignments| && assignments[k].allowedId == id;
      assert (assignments + [a])[k] == assignments[k];
    }
  }

  // ---- Importing ----

  /** The identifiers a transaction makes up, by number. */
  type Ids = nat -> Id

  function ProfileImports(missing: seq<Id>, ids: Ids): seq<Import> {
    seq(|missing|, i requires 0 <= i < |missing| => CreateProfile(missing[i], ids(i + 100)))
  }

  function PoolImports(pools: seq<PoolRow>, ids: Ids): seq<Import> {
    seq(|pools|, i requires 0 <= i < |pools| => CreatePool(ids(i + 1000), pools[i]))
  }

  function PoolIds(pools: seq<PoolRow>, ids: Ids): map<Prefix, Id> {
    if pools == [] then map[]
    else PoolIds(pools[..|pools| - 1], ids)[pools[|pools| - 1].cidr := ids(|pools| - 1 + 1000)]
  }

  function AssignmentImport(a: Assignment, index: nat, poolIds: map<Prefix, Id>, ids: Ids): seq<Import> {
    (if a.previous != a.purpose then [SetPurpose(a.allowedId, a.previous, a.purpose)] else [])
    + (if a.pool.Some? && a.pool.value in poolIds
       then [CreateAllocation(ids(index + 2000), AllocationRow(poolIds[a.pool.value], a.peer, a.address))] else [])
  }

  function AssignmentImports(assignments: seq<Assignment>, poolIds: map<Prefix, Id>, ids: Ids): seq<Import> {
    if assignments == [] then []
    else
      var n := |assignments| - 1;
      AssignmentImports(assignments[..n], poolIds, ids) + AssignmentImport(assignments[n], n, poolIds, ids)
  }

  /** All imports of a plan, in order. */
  function ImportList(plan: Plan, missing: seq<Id>, ids: Ids): seq<Import> {
    ProfileImports(missing, ids) + PoolImports(plan.pools, ids)
    + AssignmentImports(plan.assignments, PoolIds(plan.pools, ids), ids)
  }

  /** Makes one import, as far as the transaction has not failed yet. */
  method MakeImport(t: Option<Tables>, i: Import, ghost start: Tables, ghost done: seq<Import>)
    returns (next: Option<Tables>)
    requires t == DoImports(start, done)
    ensures next == DoImports(start, done + [i])
  {
    DoImportsMore(start, done, i);
    match t {
      case None => next := None;
      case Some(tables) => next := DoImport(tables, i);
    }
  }

  lemma AssignmentMore(assignments: seq<Assignment>, i: nat, poolIds: map<Prefix, Id>, ids: Ids)
    requires i < |assignments|
    ensures AssignmentImports(assignments[..i + 1], poolIds, ids) ==
            AssignmentImports(assignments[..i], poolIds, ids) + AssignmentImport(assignments[i], i, poolIds, ids)
  {
    assert assignments[..i + 1][..i] == assignments[..i];
  }

  /** The loops over missing profiles, pools and assignments. */
  method ImportMetadata(start: Tables, plan: Plan, missing: seq<Id>, ids: Ids) returns (t: Option<Tables>)
    ensures t == DoImports(start, ImportList(plan, missing, ids))
  {
    t := Some(start);
    ghost var done: seq<Import> := [];
    for i := 0 to |missing|
      invariant t == DoImports(start, done) && done == ProfileImports(missing[..i], ids)
    {
      t := MakeImport(t, CreateProfile(missing[i], ids(i + 100)), start, done);
      done := done + [CreateProfile(missing[i], ids(i + 100))];
    }
    assert missing[..|missing|] == missing;
    t, done := ImportPools(start, t, done, plan.pools, ids);
    t, done := ImportAssignments(start, t, done, plan.assignments, PoolIds(plan.pools, ids), ids);
  }

  method ImportPools(ghost start: Tables, before: Option<Tables>, ghost made: seq<Import>, pools: seq<PoolRow>, ids: Ids)
    returns (t: Option<Tables>, ghost done: seq<Import>)
    requires before == DoImports(start, made)
    ensures t == DoImports(start, done) && done == made + PoolImports(pools, ids)
  {
    t, done := before, made;
    for i := 0 to |pools|
      invariant t == DoImports(start, done) && done == made + PoolImports(pools[..i], ids)
    {
      t := MakeImport(t, CreatePool(ids(i + 1000), pools[i]), start, done);
      assert PoolImports(pools[..i + 1], ids) == PoolImports(pools[..i], ids) + [CreatePool(ids(i + 1000), pools[i])];
      done := done + [CreatePool(ids(i + 1000), pools[i])];
    }
    assert pools[..|pools|] == pools;
  }

  method ImportAssignments(ghost start: Tables, before: Option<Tables>, ghost made: seq<Import>,
                           assignments: seq<Assignment>, poolIds: map<Prefix, Id>, ids: Ids)
    returns (t: Option<Tables>, ghost done: seq<Import>)
    requires before == DoImports(start, made)
    ensures t == DoImports(start, done) && done == made + AssignmentImports(assignments, poolIds, ids)
  {
    hide DoImports;
    t, done := before, made;
    for i := 0 to |assignments|
      invariant t == DoImports(start, done) && done == made + AssignmentImports(assignments[..i], poolIds, ids)
    {
      var a := assignments[i];
      AssignmentMore(assignments, i, poolIds, ids);
      if a.previous != a.purpose {
        t := MakeImport(t, SetPurpose(a.allowedId, a.previous, a.purpose), start, done);
        done := done + [SetPurpose(a.allowedId, a.previous, a.purpose)];
      }
      if a.pool.Some? && a.pool.value in poolIds {
        var i' := CreateAllocation(ids(i + 2000), AllocationRow(poolIds[a.pool.value], a.peer, a.address));
        t := MakeImport(t, i', start, done);
        done := done + [i'];
      }
    }
    assert assignments[..|assignments|] == assignments;
  }

  // ---- What an import leaves ----

  /** The imports of a plan read purposes as they are and each row once. */
  lemma PlanReadsRight(t: Tables, plan: Plan, rows: seq<Id>, missing: seq<Id>, ids: Ids)
    requires ValidPools(plan.pools) && PlannedAll(plan.assignments, t, plan.pools, rows)
    ensures AllReadRight(t, ImportList(plan, missing, ids))
  {
    AssignmentsReadRight(t, plan.assignments, plan.pools, PoolIds(plan.pools, ids), ids);
    NoPurposes(ProfileImports(missing, ids) + PoolImports(plan.pools, ids),
               AssignmentImports(plan.assignments, PoolIds(plan.pools, ids), ids), t);
  }

  lemma NoPurposes(a: seq<Import>, b: seq<Import>, t: Tables)
    requires (forall i :: 0 <= i < |a| ==> !a[i].SetPurpose?) && AllReadRight(t, b)
    ensures AllReadRight(t, a + b)
  {
  }

  /** Purposes set by assignments, by position. */
  ghost predicate SetBy(imports: seq<Import>, assignments: seq<Assignment>) {
    forall i :: 0 <= i < |imports| && imports[i].SetPurpose? ==>
      exists k :: 0 <= k < |assignments| && imports[i] ==
        SetPurpose(assignments[k].allowedId, assignments[k].previous, assignments[k].purpose)
  }

  lemma {:induction false} AssignmentsReadRight(t: Tables, assignments: seq<Assignment>, pools: seq<PoolRow>,
                                                poolIds: map<Prefix, Id>, ids: Ids)
    requires ValidPools(pools) && forall k :: 0 <= k < |assignments| ==> Planned(assignments[k], t, pools)
    requires forall j, k :: 0 <= j < k < |assignments| ==> assignments[j].allowedId != assignments[k].allowedId
    ensures AllReadRight(t, AssignmentImports(assignments, poolIds, ids))
    ensures SetBy(AssignmentImports(assignments, poolIds, ids), assignments)
  {
    if assignments != [] {
      var n := |assignments| - 1;
      AssignmentsReadRight(t, assignments[..n], pools, poolIds, ids);
      var front, last := AssignmentImports(assignments[..n], poolIds, ids), AssignmentImport(assignments[n], n, poolIds, ids);
      SetByMore(front, last, assignments);
      forall i | 0 <= i < |front| && front[i].SetPurpose? ensures front[i].id != assignments[n].allowedId {
        var k :| 0 <= k < n && front[i] ==
          SetPurpose(assignments[..n][k].allowedId, assignments[..n][k].previous, assignments[..n][k].purpose);
      }
    }
  }

  lemma SetByMore(front: seq<Import>, last: seq<Import>, assignments: seq<Assignment>)
    requires assignments != [] && SetBy(front, assignments[..|assignments| - 1])
    requires var a := assignments[|assignments| - 1];
             forall i :: 0 <= i < |last| && last[i].SetPurpose? ==> last[i] == SetPurpose(a.allowedId, a.previous, a.purpose)
    ensures SetBy(front + last, assignments)
  {
    var all, n := front + last, |assignments| - 1;
    forall i | 0 <= i < |all| && all[i].SetPurpose?
      ensures exists k :: 0 <= k < |assignments| && all[i] ==
                SetPurpose(assignments[k].allowedId, assignments[k].previous, assignments[k].purpose)
    {
      if i < |front| {
        var k :| 0 <= k < n && front[i] ==
          SetPurpose(assignments[..n][k].allowedId, assignments[..n][k].previous, assignments[..n][k].purpose);
        assert all[i] == SetPurpose(assignments[k].allowedId, assignments[k].previous, assignments[k].purpose);
      } else {
        assert all[i] == last[i - |front|];
      }
    }
  }

  lemma {:induction false} AssignmentIn(assignments: seq<Assignment>, k: nat, poolIds: map<Prefix, Id>, ids: Ids, i: Import)
    requires k < |assignments| && i in AssignmentImport(assignments[k], k, poolIds, ids)
    ensures i in AssignmentImports(assignments, poolIds, ids)
  {
    var n := |assignments| - 1;
    if k < n {
      assert assignments[..n][k] == assignments[k];
      AssignmentIn(assignments[..n], k, poolIds, ids, i);
    }
  }

  lemma {:induction false} PoolIdIs(pools: seq<PoolRow>, ids: Ids, k: nat)
    requires k < |pools| && forall i, j :: 0 <= i < j < |pools| ==> pools[i].cidr != pools[j].cidr
    ensures pools[k].cidr in PoolIds(pools, ids) && PoolIds(pools, ids)[pools[k].cidr] == ids(k + 1000)
  {
    var n := |pools| - 1;
    if k < n {
      PoolIdIs(pools[..n], ids, k);
    }
  }

  lemma SetPurposesOf(plan: Plan, missing: seq<Id>, ids: Ids, t: Tables, rows: seq<Id>, id: Id)
    requires ValidPools(plan.pools) && PlannedAll(plan.assignments, t, plan.pools, rows)
    requires forall k :: 0 <= k < |plan.assignments| ==>
               plan.assignments[k].allowedId != id || plan.assignments[k].previous == plan.assignments[k].purpose
    ensures forall i :: i in ImportList(plan, missing, ids) ==> !(i.SetPurpose? && i.id == id)
  {
    var list := AssignmentImports(plan.assignments, PoolIds(plan.pools, ids), ids);
    NoIdlePurpose(plan.assignments, PoolIds(plan.pools, ids), ids, id);
  }

  lemma {:induction false} NoIdlePurpose(assignments: seq<Assignment>, poolIds: map<Prefix, Id>, ids: Ids, id: Id)
    requires forall k :: 0 <= k < |assignments| ==>
               assignments[k].allowedId != id || assignments[k].previous == assignments[k].purpose
    ensures forall i :: i in AssignmentImports(assignments, poolIds, ids) ==> !(i.SetPurpose? && i.id == id)
  {
    if assignments != [] {
      NoIdlePurpose(assignments[..|assignments| - 1], poolIds, ids, id);
    }
  }

  /** After the import every planned row has the purpose its pools give it. */
  lemma ImportedPurpose(t: Tables, plan: Plan, rows: seq<Id>, missing: seq<Id>, ids: Ids, next: Tables, id: Id)
    requires ValidPools(plan.pools) && PlannedAll(plan.assignments, t, plan.pools, rows) && id in rows
    requires DoImports(t, ImportList(plan, missing, ids)) == Some(next)
    ensures id in next.allowed && next.allowed[id].purpose == PurposeIn(t.allowed[id].cidr, plan.pools)
  {
    var list := ImportList(plan, missing, ids);
    AllowedKept(t, list);
    if k :| 0 <= k < |plan.assignments| && plan.assignments[k].allowedId == id
            && plan.assignments[k].previous != plan.assignments[k].purpose {
      var a := plan.assignments[k];
      var i := SetPurpose(a.allowedId, a.previous, a.purpose);
      AssignmentIn(plan.assignments, k, PoolIds(plan.pools, ids), ids, i);
      ImportsPresent(t, list, i);
    } else {
      SetPurposesOf(plan, missing, ids, t, rows, id);
    }
  }

  lemma PlannedPool(t: Tables, plan: Plan, rows: seq<Id>, id: Id) returns (k: nat, i: nat)
    requires ValidPools(plan.pools) && PlannedAll(plan.assignments, t, plan.pools, rows) && id in rows
    requires InSome(t.allowed[id].cidr, plan.pools)
    ensures k < |plan.assignments| && i < |plan.pools|
    ensures var a := plan.assignments[k];
            && a.allowedId == id && a.peer == t.allowed[id].peer && a.address == t.allowed[id].cidr.addr
            && a.pool == Some(plan.pools[i].cidr) && InPool(t.allowed[id].cidr, plan.pools[i])
  {
    k :| 0 <= k < |plan.assignments| && plan.assignments[k].allowedId == id;
    var a := plan.assignments[k];
    assert Planned(a, t, plan.pools);
    i :| 0 <= i < |plan.pools| && plan.pools[i].cidr == a.pool.value && InPool(t.allowed[id].cidr, plan.pools[i]);
  }

  /** And every host that lies in a pool has its allocation, in that pool. */
  lemma ImportedAllocation(t: Tables, plan: Plan, rows: seq<Id>, missing: seq<Id>, ids: Ids, next: Tables, id: Id)
    returns (allocation: Id)
    requires ValidPools(plan.pools) && PlannedAll(plan.assignments, t, plan.pools, rows) && id in rows
    requires forall i, j :: 0 <= i < j < |plan.pools| ==> plan.pools[i].cidr != plan.pools[j].cidr
    requires DoImports(t, ImportList(plan, missing, ids)) == Some(next)
    requires InSome(t.allowed[id].cidr, plan.pools)
    ensures allocation in next.allocations
    ensures var row := next.allocations[allocation];
            && row.peer == t.allowed[id].peer && row.address == t.allowed[id].cidr.addr
            && row.pool in next.pools && next.pools[row.pool] in plan.pools
            && InPool(t.allowed[id].cidr, next.pools[row.pool])
  {
    var list := ImportList(plan, missing, ids);
    var k, i := PlannedPool(t, plan, rows, id);
    var made, pool := AllocationListed(plan, missing, ids, k, i);
    allocation := made.id;
    ImportsPresent(t, list, made);
    ImportsPresent(t, list, pool);
  }

  lemma AllocationListed(plan: Plan, missing: seq<Id>, ids: Ids, k: nat, i: nat) returns (made: Import, pool: Import)
    requires forall i, j :: 0 <= i < j < |plan.pools| ==> plan.pools[i].cidr != plan.pools[j].cidr
    requires k < |plan.assignments| && i < |plan.pools|
    requires plan.assignments[k].pool == Some(plan.pools[i].cidr)
    ensures made in ImportList(plan, missing, ids) && pool in ImportList(plan, missing, ids)
    ensures pool.CreatePool? && pool.pool == plan.pools[i]
    ensures var a := plan.assignments[k];
            made == CreateAllocation(made.id, AllocationRow(pool.id, a.peer, a.address))
  {
    var poolIds, a := PoolIds(plan.pools, ids), plan.assignments[k];
    PoolIdIs(plan.pools, ids, i);
    made := CreateAllocation(ids(k + 2000), AllocationRow(poolIds[a.pool.value], a.peer, a.address));
    assert made in AssignmentImport(a, k, poolIds, ids);
    AssignmentIn(plan.assignments, k, poolIds, ids, made);
    pool := CreatePool(ids(i + 1000), plan.pools[i]);
    assert PoolImports(plan.pools, ids)[i] == pool;
  }

  // ---- Rolling back, row by row ----

  method ListPeers(staged: map<Id, Staged>) returns (peers: seq<Id>)
    ensures forall p :: p in peers <==> p in staged
    ensures forall i, j :: 0 <= i < j < |peers| ==> peers[i] != peers[j]
  {
    peers := [];
    var left := staged.Keys;
    while left != {}
      invariant left <= staged.Keys
      invariant forall p :: p in peers <==> p in staged && p !in left
      invariant forall i, j :: 0 <= i < j < |peers| ==> peers[i] != peers[j]
      decreases |left|
    {
      var p :| p in left;
      peers := peers + [p];
      left := left - {p};
    }
  }

  function Restrict<K, V>(m: map<K, V>, keys: seq<K>): map<K, V> {
    map k | k in m && k in keys :: m[k]
  }

  lemma RestrictMore<K, V>(m: map<K, V>, keys: seq<K>, i: nat)
    requires i < |keys| && keys[i] in m
    ensures Restrict(m, keys[..i + 1]) == Restrict(m, keys[..i])[keys[i] := m[keys[i]]]
  {
    assert keys[..i + 1] == keys[..i] + [keys[i]];
  }

  lemma RestrictAll<K, V>(m: map<K, V>, keys: seq<K>)
    requires forall k :: k in m ==> k in keys
    ensures Restrict(m, keys) == m
  {
  }

  /** Attaches the staged secrets, one peer after the other. */
  method AttachStaged(start: Tables, peers: seq<Id>, ids: seq<Id>) returns (t: Option<Tables>)
    requires |ids| >= |peers|
    ensures t == AttachAll(start, peers, ids)
  {
    var next := start;
    for i := 0 to |peers|
      invariant AttachAll(next, peers[i..], ids[i..]) == AttachAll(start, peers, ids)
    {
      assert peers[i..][1..] == peers[i + 1..] && ids[i..][1..] == ids[i + 1..];
      var attached := Attached(next, peers[i], ids[i]);
      if attached.None? {
        return None;
      }
      next := attached.value;
    }
    return Some(next);
  }

  lemma DetachOne(profiles: map<Id, Profile>, staged: map<Id, Staged>, p: Id, item: Staged)
    requires p !in staged
    ensures var before := Detached(profiles, staged);
            Detached(profiles, staged[p := item]) ==
            (if p in before && Attaches(before[p], item)
             then if item.created then before - {p} else before[p := before[p].(psk := item.previous)]
             else before)
  {
    var before := Detached(profiles, staged);
    assert p in profiles ==> p in before && before[p] == profiles[p];
  }

  lemma NoneDetached(profiles: map<Id, Profile>, staged: map<Id, Staged>)
    ensures Detached(profiles, Restrict(staged, [])) == profiles
  {
  }

  /** Takes the staged secrets back. */
  method DetachStaged(t: Tables) returns (profiles: map<Id, Profile>)
    ensures profiles == Detached(t.profiles, t.staged)
  {
    hide Detached;
    var peers := ListPeers(t.staged);
    profiles := t.profiles;
    NoneDetached(t.profiles, t.staged);
    assert peers[..0] == [];
    for i := 0 to |peers|
      invariant profiles == Detached(t.profiles, Restrict(t.staged, peers[..i]))
    {
      var p := peers[i];
      assert p in peers;
      var item := t.staged[p];
      RestrictMore(t.staged, peers, i);
      DetachOne(t.profiles, Restrict(t.staged, peers[..i]), p, item);
      if p in profiles && Attaches(profiles[p], item) {
        if item.created {
          profiles := profiles - {p};
        } else {
          profiles := profiles[p := profiles[p].(psk := item.previous)];
        }
      }
    }
    assert peers[..|peers|] == peers;
    RestrictAll(t.staged, peers);
  }

  method ListLedger(ledger: Ledger, kind: Kind) returns (keys: seq<LedgerKey>)
    ensures forall k :: k in keys <==> k in ledger && k.kind == kind
    ensures forall i, j :: 0 <= i < j < |keys| ==> keys[i] != keys[j]
  {
    keys := [];
    var left := ledger.Keys;
    while left != {}
      invariant left <= ledger.Keys
      invariant forall k :: k in keys <==> k in ledger && k !in left && k.kind == kind
      invariant forall i, j :: 0 <= i < j < |keys| ==> keys[i] != keys[j]
      decreases |left|
    {
      var k :| k in left;
      left := left - {k};
      if k.kind == kind {
        keys := keys + [k];
      }
    }
  }

  /** One line of the ledger taken back. */
  function UndoRow(t: Tables, key: LedgerKey, previous: Option<Purpose>): Tables {
    match key.kind
    case AllowedIpPurpose =>
      if key.id in t.allowed && previous.Some? then t.(allowed := t.allowed[key.id := t.allowed[key.id].(purpose := previous.value)])
      else t
    case AddressAllocation => t.(allocations := t.allocations - {key.id})
    case ClientProfile => t.(profiles := map p | p in t.profiles && t.profiles[p].id != key.id :: t.profiles[p])
    case AddressPool =>
      t.(pools := t.pools - {key.id},
         allocations := map a | a in t.allocations && t.allocations[a].pool != key.id :: t.allocations[a])
  }

  /** `u` is `t` with the lines of `ledger` taken back. */
  predicate UndoneBy(t: Tables, u: Tables, ledger: Ledger) {
    u == t.(allowed := UndoneAllowed(t.allowed, ledger), allocations := UndoneAllocations(t.allocations, ledger),
            profiles := UndoneProfiles(t.profiles, ledger), pools := UndonePools(t.pools, ledger))
  }

  lemma UndoRowAllowed(allowed: map<Id, AllowedRow>, ledger: Ledger, id: Id, previous: Option<Purpose>)
    requires LedgerKey(AllowedIpPurpose, id) !in ledger
    ensures UndoneAllowed(allowed, ledger[LedgerKey(AllowedIpPurpose, id) := previous]) ==
            if id in allowed && previous.Some?
            then UndoneAllowed(allowed, ledger)[id := UndoneAllowed(allowed, ledger)[id].(purpose := previous.value)]
            else UndoneAllowed(allowed, ledger)
  {
  }

  lemma UndoRowGone(t: Tables, ledger: Ledger, id: Id)
    ensures UndoneAllocations(t.allocations, ledger[LedgerKey(AddressAllocation, id) := None]) ==
            UndoneAllocations(t.allocations, ledger) - {id}
    ensures UndonePools(t.pools, ledger[LedgerKey(AddressPool, id) := None]) == UndonePools(t.pools, ledger) - {id}
  {
  }

  lemma UndoRowFiltered(t: Tables, ledger: Ledger, id: Id)
    ensures UndoneProfiles(t.profiles, ledger[LedgerKey(ClientProfile, id) := None]) ==
            var before := UndoneProfiles(t.profiles, ledger);
            map p | p in before && before[p].id != id :: before[p]
    ensures UndoneAllocations(t.allocations, ledger[LedgerKey(AddressPool, id) := None]) ==
            var before := UndoneAllocations(t.allocations, ledger);
            map a | a in before && before[a].pool != id :: before[a]
  {
  }

  lemma ValueOfKey(t: Tables, ledger: Ledger, key: LedgerKey, previous: Option<Purpose>)
    requires key.kind != AllowedIpPurpose
    ensures UndoneAllocations(t.allocations, ledger[key := previous]) == UndoneAllocations(t.allocations, ledger[key := None])
    ensures UndoneProfiles(t.profiles, ledger[key := previous]) == UndoneProfiles(t.profiles, ledger[key := None])
    ensures UndonePools(t.pools, ledger[key := previous]) == UndonePools(t.pools, ledger[key := None])
  {
  }

  /** Each line takes back its part, in whatever order the lines come. */
  lemma UndoRowStep(t: Tables, u: Tables, ledger: Ledger, key: LedgerKey, previous: Option<Purpose>)
    requires UndoneBy(t, u, ledger) && key !in ledger
    ensures UndoneBy(t, UndoRow(u, key, previous), ledger[key := previous])
  {
    OtherKinds(t.(ledger := ledger), key, previous);
    match key.kind
    case AllowedIpPurpose => UndoRowAllowed(t.allowed, ledger, key.id, previous);
    case _ =>
      ValueOfKey(t, ledger, key, previous);
      UndoRowGone(t, ledger, key.id);
      UndoRowFiltered(t, ledger, key.id);
  }

  function OfKinds(ledger: Ledger, kinds: set<Kind>): Ledger {
    map k | k in ledger && k.kind in kinds :: ledger[k]
  }

  method UndoKind(ghost t: Tables, before: Tables, kind: Kind, ghost kinds: set<Kind>) returns (u: Tables)
    requires kind !in kinds && UndoneBy(t, before, OfKinds(t.ledger, kinds)) && before.ledger == t.ledger
    ensures UndoneBy(t, u, OfKinds(t.ledger, kinds + {kind})) && u.ledger == t.ledger
  {
    hide UndoneBy, UndoRow;
    u := before;
    var keys := ListLedger(before.ledger, kind);
    ghost var done := OfKinds(t.ledger, kinds);
    for i := 0 to |keys|
      invariant UndoneBy(t, u, done) && u.ledger == t.ledger
      invariant forall k :: k in done <==> k in t.ledger && (k.kind in kinds || k in keys[..i])
      invariant forall k :: k in done ==> done[k] == t.ledger[k]
    {
      assert keys[i] in keys && keys[..i + 1] == keys[..i] + [keys[i]];
      UndoRowStep(t, u, done, keys[i], t.ledger[keys[i]]);
      u := UndoRow(u, keys[i], before.ledger[keys[i]]);
      done := done[keys[i] := t.ledger[keys[i]]];
    }
    assert done == OfKinds(t.ledger, kinds + {kind});
  }

  lemma NothingUndone(t: Tables)
    ensures UndoneBy(t, t, map[])
  {
    NothingToUndo(t.(ledger := map[]));
  }

  lemma AllKinds(ledger: Ledger, kinds: set<Kind>)
    requires AllowedIpPurpose in kinds && AddressAllocation in kinds && ClientProfile in kinds && AddressPool in kinds
    ensures OfKinds(ledger, kinds) == ledger
  {
    forall k: LedgerKey ensures k.kind in kinds {
      match k.kind case AllowedIpPurpose => case AddressAllocation => case ClientProfile => case AddressPool =>
    }
  }

  /** Takes the ledger back: first the purposes, then allocations, profiles and
      pools. */
  method UndoLedger(t: Tables) returns (u: Tables)
    ensures u == Undone(t)
  {
    ghost var kinds: set<Kind> := {};
    NothingUndone(t);
    assert OfKinds(t.ledger, kinds) == map[];
    u := UndoKind(t, t, AllowedIpPurpose, kinds);
    kinds := kinds + {AllowedIpPurpose};
    u := UndoKind(t, u, AddressAllocation, kinds);
    kinds := kinds + {AddressAllocation};
    u := UndoKind(t, u, ClientProfile, kinds);
    kinds := kinds + {ClientProfile};
    u := UndoKind(t, u, AddressPool, kinds);
    kinds := kinds + {AddressPool};
    AllKinds(t.ledger, kinds);
    u := u.(ledger := map[]);
  }

  lemma WithoutMore(t: Tables, gone: set<Id>, e: Id)
    ensures WithoutEnvelopes(WithoutEnvelopes(t, gone), {e}) == WithoutEnvelopes(t, gone + {e})
  {
    assert Cleared(Cleared(t.profiles, gone), {e}) == Cleared(t.profiles, gone + {e});
    assert WithoutEnvelopes(WithoutEnvelopes(t, gone), {e}).envelopes == WithoutEnvelopes(t, gone + {e}).envelopes;
  }

  lemma WithoutNone(t: Tables)
    ensures WithoutEnvelopes(t, {}) == t
  {
    assert Cleared(t.profiles, {}) == t.profiles;
    assert WithoutEnvelopes(t, {}).envelopes == t.envelopes;
  }

  lemma EnvelopesMore(staged: map<Id, Staged>, peers: seq<Id>, i: nat)
    requires i < |peers| && peers[i] in staged
    ensures Envelopes(Restrict(staged, peers[..i + 1])) == Envelopes(Restrict(staged, peers[..i])) + {staged[peers[i]].envelope}
  {
    var some, more := Restrict(staged, peers[..i]), Restrict(staged, peers[..i + 1]);
    RestrictMore(staged, peers, i);
    forall e | e in Envelopes(some) ensures e in Envelopes(more) {
      var p :| p in some && some[p].envelope == e;
      assert more[p].envelope == e;
    }
    assert more[peers[i]].envelope == staged[peers[i]].envelope;
  }

  /** Removes the staged envelopes, clearing what refers to them. */
  method RemoveStaged(t: Tables) returns (u: Tables)
    ensures u == WithoutStaged(t)
  {
    var peers := ListPeers(t.staged);
    u := t;
    WithoutNone(t);
    assert Envelopes(Restrict(t.staged, peers[..0])) == {};
    for i := 0 to |peers|
      invariant u == WithoutEnvelopes(t, Envelopes(Restrict(t.staged, peers[..i])))
    {
      assert peers[i] in peers;
      EnvelopesMore(t.staged, peers, i);
      WithoutMore(t, Envelopes(Restrict(t.staged, peers[..i])), t.staged[peers[i]].envelope);
      u := WithoutEnvelopes(u, {t.staged[peers[i]].envelope});
    }
    assert peers[..|peers|] == peers;
    RestrictAll(t.staged, peers);
    u := u.(staged := map[]);
  }

  /** The rolling back transaction: staged secrets, imports, the interface and its
      revision, and the staged envelopes, or nothing at all. */
  method RollBack(t: Tables, terms: Terms) returns (result: Option<Tables>)
    ensures result == RolledBackTables(t, terms)
  {
    var profiles := DetachStaged(t);
    var u := UndoLedger(t.(profiles := profiles));
    var observed := t.interface.mode == Observed && t.interface.revision == terms.expected;
    var adopted := t.interface.mode == Adopted && t.interface.revision == terms.expected + 1;
    if !observed && !adopted {
      return None;
    }
    if adopted {
      if !OwnsLast(t, terms) {
        return None;
      }
      u := WithoutRevision(u, terms);
    }
    u := RemoveStaged(u);
    return Some(u);
  }
}
