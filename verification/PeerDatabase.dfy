/** The transactions that complete the operations on peers. */
module PeerDatabase {
  // Each is a row of statements in one transaction: the first that fails, at a
  // check or at a uniqueness constraint, takes all of it back.

  import opened Text
  import opened ConfigSyntax
  import opened ConfigDocument
  import opened ConfigPeers
  import opened ManagedConfig
  import opened PeerRecords
  import A = PeerAddresses
  import F = Prefixes
  import P = PeerProtocol

  /** Some identifier given for new rows is not new. */
  ghost predicate Stale(table: A.Table, ids: seq<A.Id>) {
    exists i :: 0 <= i < |ids| && (ids[i] in table || exists j :: 0 <= j < i && ids[j] == ids[i])
  }

  /** Inserts texts under one owner, for whom they are unique. */
  method InsertTexts(values: seq<string>) returns (stored: Option<set<string>>)
    ensures stored == if Repeats(values) then None else Some(Texts(values))
  {
    var texts: set<string> := {};
    for i := 0 to |values|
      invariant texts == Texts(values[..i]) && !Repeats(values[..i])
    {
      TextsMore(values, i);
      if values[i] in texts {
        return None;
      }
      texts := texts + {values[i]};
    }
    assert values[..|values|] == values;
    return Some(texts);
  }

  lemma TextsMore(values: seq<string>, i: nat)
    requires i < |values| && !Repeats(values[..i])
    ensures Texts(values[..i + 1]) == Texts(values[..i]) + {values[i]}
    ensures Repeats(values[..i + 1]) <==> values[i] in Texts(values[..i])
    ensures Repeats(values[..i + 1]) ==> Repeats(values)
  {
    var front, more := values[..i], values[..i + 1];
    assert more == front + [values[i]];
    forall text ensures text in Texts(more) <==> text in Texts(front) || text == values[i] {
      if text in Texts(front) {
        var k :| 0 <= k < i && front[k] == text;
        assert more[k] == text;
      }
      assert more[i] == values[i];
    }
    if values[i] in Texts(front) {
      var k :| 0 <= k < i && front[k] == values[i];
      assert 0 <= k < i < |more| && more[k] == more[i];
    }
    forall j, k | 0 <= j < k < i ensures values[j] != values[k] {
      assert front[j] != front[k];
    }
  }

  /** Reads prefixes, if all of them can be read. */
  method ReadPrefixes(net: Net, listed: seq<string>) returns (values: Option<seq<F.Prefix>>)
    ensures values == if Readable(net, listed) then Some(ReadAll(net, listed)) else None
  {
    var read: seq<F.Prefix> := [];
    for i := 0 to |listed|
      invariant |read| == i && forall k :: 0 <= k < i ==> net.read(listed[k]) == Some(read[k])
    {
      var value := net.read(listed[i]);
      if value.None? {
        return None;
      }
      read := read + [value.value];
    }
    assert read == ReadAll(net, listed);
    return Some(read);
  }

  class Database {
    const x: Syntax
    const net: Net
    var rows: Rows
    var table: A.Table

    constructor (x: Syntax, net: Net, rows: Rows, table: A.Table)
      ensures this.x == x && this.net == net && this.rows == rows && this.table == table
    {
      this.x, this.net, this.rows, this.table := x, net, rows, table;
    }

    ghost function Content(): Data
      reads this
    {
      Data(rows, table)
    }

    /** A new row for the key, its prefixes and routes, and its address. */
    method CompletePeerCreate(key: string, listed: seq<string>, routes: seq<string>, keepalive: nat, slot: A.Slot, id: A.Id)
      returns (ok: bool)
      modifies this
      ensures ok <==> && key !in old(rows) && !Repeats(listed) && !Repeats(routes)
                      && id !in old(table) && !A.Taken(old(table), slot)
      ensures ok ==> rows == old(rows)[key := Row(A.Active, Texts(listed), "", keepalive, None)]
      ensures ok ==> table == old(table)[id := A.Row(slot.pool, key, slot.address, A.Allocated)]
      ensures !ok ==> rows == old(rows) && table == old(table)
    {
      if key in rows {
        return false;
      }
      var allowed := InsertTexts(listed);
      if allowed.None? {
        return false;
      }
      var taken := A.IsTaken(table, slot);
      if taken || id in table {
        return false;
      }
      var stored := InsertTexts(routes);
      if stored.None? {
        return false;
      }
      rows := rows[key := Row(A.Active, allowed.value, "", keepalive, None)];
      table := table[id := A.Row(slot.pool, key, slot.address, A.Allocated)];
      return true;
    }

    /** New values for an active peer, and the addresses among them. */
    method CompletePeerUpdate(key: string, listed: seq<string>, endpoint: string, keepalive: nat, ids: seq<A.Id>)
      returns (ok: bool)
      requires Fits(x, net) && A.Unique(table) && |ids| >= |listed|
      modifies this
      ensures ok ==> key in old(rows) && old(rows)[key].lifecycle == A.Active && Updatable(x, net, old(table), key, listed)
      ensures ok ==> rows == old(rows)[key := old(rows)[key].(allowed := Texts(Normalised(x, listed)), endpoint := endpoint,
                                                              keepalive := keepalive)]
      ensures ok ==> forall v :: v in ReadAll(net, listed) ==> F.ValidPrefix(v)
      ensures ok ==> A.Synced(old(table), table, key, ReadAll(net, listed), net.pools)
      ensures !ok ==> rows == old(rows) && table == old(table)
      ensures !ok ==> || key !in rows || rows[key].lifecycle != A.Active || !Updatable(x, net, table, key, listed)
                      || Stale(table, ids)
    {
      if key !in rows || rows[key].lifecycle != A.Active {
        return false;
      }
      var values := ReadPrefixes(net, listed);
      if values.None? {
        return false;
      }
      ReadValid(x, net, listed);
      var synced := A.UpdateAllocations(table, key, values.value, net.pools, ids);
      if synced.None? {
        return false;
      }
      var allowed := InsertTexts(Normalised(x, listed));
      if allowed.None? {
        return false;
      }
      rows := rows[key := rows[key].(allowed := allowed.value, endpoint := endpoint, keepalive := keepalive)];
      table := synced.value;
      return true;
    }

    /** Keeps the block of a peer that left the file, or drops that of one that came
        back.  A revoked peer's addresses are quarantined. */
    method CompletePeerLifecycle(key: string, mutation: P.Kind, archived: Option<string>) returns (ok: bool)
      modifies this
      ensures ok <==> key in old(rows) && if mutation == P.Enable then old(rows)[key].archive.Some?
                                          else archived.Some? && old(rows)[key].archive.None?
      ensures ok ==> rows == old(rows)[key := old(rows)[key].(
                               lifecycle := match mutation case Enable => A.Active case Revoke => A.Revoked case _ => A.Disabled,
                               archive := if mutation == P.Enable then None else archived)]
      ensures ok ==> table == if mutation == P.Revoke then A.Quarantine(old(table), key) else old(table)
      ensures !ok ==> rows == old(rows) && table == old(table)
    {
      if key !in rows {
        return false;
      }
      var kept: Option<string> := None;
      if mutation == P.Enable {
        if rows[key].archive.None? {
          return false;
        }
      } else {
        if archived.None? || rows[key].archive.Some? {
          return false;
        }
        kept := archived;
      }
      var target := A.Disabled;
      if mutation == P.Enable {
        target := A.Active;
      } else if mutation == P.Revoke {
        target := A.Revoked;
      }
      rows := rows[key := rows[key].(lifecycle := target, archive := kept)];
      if mutation == P.Revoke {
        table := A.Quarantine(table, key);
      }
      return true;
    }

    /** The transaction an operation ends with, given what it found: it commits what
        it should, or takes everything back because it has to. */
    method Complete(kind: P.Kind, edit: Edit, asked: Asked, before: Store, ids: seq<A.Id>) returns (ok: bool)
      requires Fits(x, net) && A.Unique(table) && |ids| > |asked.listed|
      modifies this
      ensures ok ==> Commits(x, net, old(Content()), Content(), kind, edit, asked, before) && A.Unique(table)
      ensures !ok ==> rows == old(rows) && table == old(table)
      ensures !ok ==> !CanCommit(x, net, Content(), kind, edit, asked, before) || Stale(table, ids)
    {
      hide RemoveText, Configured, Canonicals, Patched, Updatable, Normalised, Texts, Fits, A.Unique, A.Synced, A.Taken;
      ghost var first := Content();
      ok := false;
      match edit {
        case Add(peer) =>
          ok := CompletePeerCreate(peer.publicKey, asked.listed, asked.routes, peer.keepalive, asked.slot, ids[0]);
        case Patch(key, patch) =>
          var configured := Configured(x, before.raw, key);
          if configured.Some? && (patch.allowedIPs.None? || Canonicals(x, patch.allowedIPs.value).Some?) {
            var view := Patched(x, configured.value, patch);
            ok := CompletePeerUpdate(key, asked.listed, view.endpoint, view.keepalive, ids);
          }
        case Remove(key) =>
          var removed := RemoveText(x, before.raw, key);
          if removed.Ok? {
            ok := CompletePeerLifecycle(key, if kind == P.Revoke then P.Revoke else P.Disable, Some(removed.value.archived));
          }
        case Restore(k) =>
          if k < |before.archives| {
            ok := CompletePeerLifecycle(before.archives[k].publicKey, P.Enable, None);
          }
      }
      if ok {
        CommitKeepsUnique(x, net, first, Content(), kind, edit, asked, before);
      }
    }
  }
}
