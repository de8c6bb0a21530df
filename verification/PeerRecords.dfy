/** The database's rows of peers, and the file and archives they describe. */
module PeerRecords {
  // The transaction that completes an operation writes the row of its peer from the
  // request, the file from an edit of text.  Over every history of operations the
  // rows say what the file and the archived blocks say.

  import opened Text
  import opened ConfigSyntax
  import opened ConfigMeaning
  import opened ConfigAnalysis
  import opened ConfigDocument
  import opened ConfigPeers
  import opened ManagedConfig
  import opened PeerOperations
  import A = PeerAddresses
  import F = Prefixes
  import P = PeerProtocol

  type Lifecycle = A.Lifecycle

  /** A row: the AllowedIPs as they were written, of which create keeps the request's
      own text, and the block kept while the peer is not in the file. */
  datatype Row = Row(lifecycle: Lifecycle, allowed: set<string>, endpoint: string, keepalive: nat, archive: Option<string>)

  /** One row for every public key. */
  type Rows = map<string, Row>

  function Texts(values: seq<string>): set<string> {
    set i | 0 <= i < |values| :: values[i]
  }

  function Configured(x: Syntax, raw: string, publicKey: string): Option<PeerView> {
    match Find(AnalysisOf(x, raw).peers, publicKey) case Some(peer) => Some(peer.view) case None => None
  }

  predicate Repeats(values: seq<string>) {
    exists i, j :: 0 <= i < j < |values| && values[i] == values[j]
  }

  /** The texts in canonical form. */
  function Normalised(x: Syntax, values: seq<string>): (normal: seq<string>)
    ensures |normal| == |values|
  {
    seq(|values|, i requires 0 <= i < |values| => match x.canon(values[i]) case Some(prefix) => prefix case None => values[i])
  }

  /** The address pools, and the prefix a text stands for. */
  datatype Net = Net(pools: seq<A.Pool>, read: string -> Option<F.Prefix>)

  /** What has a canonical text is a prefix. */
  ghost predicate Fits(x: Syntax, net: Net) {
    && A.ValidPools(net.pools)
    && (forall text {:trigger net.read(text)} :: net.read(text).Some? ==> F.ValidPrefix(net.read(text).value))
    && (forall text {:trigger net.read(text)} :: net.read(text).Some? <==> x.canon(text).Some?)
  }

  /** What an operation keeps beside its edit: the AllowedIPs to be stored, a
      client's routes, and the address allocated to a new peer. */
  datatype Asked = Asked(listed: seq<string>, routes: seq<string>, slot: A.Slot)

  /** What the service makes sure of before anything is changed.  A create stores the
      request as it is.  An update, of an active peer, stores the canonical prefixes
      requested, also if the file has the same ones and is left alone, or those of
      the file.  An enable restores the block of a disabled peer's row. */
  ghost predicate Intends(x: Syntax, rows: Rows, edit: Edit, asked: Asked, before: Store) {
    match edit
    case Add(peer) => peer.endpoint == "" && asked.listed == peer.allowedIPs
    case Patch(key, patch) =>
      && patch.psk == None && key in rows && rows[key].lifecycle == A.Active
      && var configured := Configured(x, before.raw, key);
         configured.Some? ==> Lists(x, configured.value, patch, asked.listed)
    case Remove(key) => key in rows && rows[key].lifecycle == A.Active
    case Restore(k) =>
      k < |before.archives| ==>
        var Archive(key, text) := before.archives[k];
        key in rows && rows[key].lifecycle == A.Disabled && rows[key].archive == Some(text)
  }

  ghost predicate Lists(x: Syntax, view: PeerView, patch: PeerPatch, listed: seq<string>) {
    match patch.allowedIPs
    case Some(values) => listed == values && Canonical(x, listed) && !Repeats(listed)
    case None =>
      listed == view.allowed || (Canonical(x, listed) && !Repeats(listed) && Texts(listed) == Texts(view.allowed))
  }

  // ---- The completing transaction ----

  /** What the transaction makes of the rows, or that it refuses for the sake of the
      peer's own row; `before` is the document and the archives the operation found. */
  function Transacted(x: Syntax, rows: Rows, kind: P.Kind, edit: Edit, asked: Asked, before: Store): Option<Rows> {
    match edit
    case Add(peer) =>
      if peer.publicKey in rows then None
      else Some(rows[peer.publicKey := Row(A.Active, Texts(asked.listed), "", peer.keepalive, None)])
    case Patch(key, patch) => UpdatedRow(x, rows, key, patch, asked.listed, Configured(x, before.raw, key))
    case Remove(key) => (
      match RemoveText(x, before.raw, key)
      case Err(_) => None
      case Ok(removed) =>
        if key !in rows || rows[key].archive.Some? then None
        else Some(rows[key := rows[key].(lifecycle := if kind == P.Revoke then A.Revoked else A.Disabled,
                                         archive := Some(removed.archived))]))
    case Restore(k) =>
      if k >= |before.archives| then None
      else
        var Archive(key, text) := before.archives[k];
        if key !in rows || rows[key].archive == None then None
        else Some(rows[key := rows[key].(lifecycle := A.Active, archive := None)])
  }

  /** An update writes the requested values and otherwise those of the file. */
  function UpdatedRow(x: Syntax, rows: Rows, key: string, patch: PeerPatch, listed: seq<string>,
                      configured: Option<PeerView>): Option<Rows> {
    if key !in rows || rows[key].lifecycle != A.Active || configured.None? then None
    else if patch.allowedIPs.Some? && Canonicals(x, patch.allowedIPs.value).None? then None
    else
      var view := Patched(x, configured.value, patch);
      Some(rows[key := rows[key].(allowed := Texts(Normalised(x, listed)), endpoint := view.endpoint, keepalive := view.keepalive)])
  }

  /** Rows of peers and of addresses.  A peer is named by its key. */
  datatype Data = Data(rows: Rows, table: A.Table)

  function ReadAll(net: Net, listed: seq<string>): (values: seq<F.Prefix>)
    requires forall i :: 0 <= i < |listed| ==> net.read(listed[i]).Some?
    ensures |values| == |listed|
  {
    seq(|listed|, i requires 0 <= i < |listed| => net.read(listed[i]).value)
  }

  predicate Readable(net: Net, listed: seq<string>) {
    forall i :: 0 <= i < |listed| ==> net.read(listed[i]).Some?
  }

  lemma ReadValid(x: Syntax, net: Net, listed: seq<string>)
    requires Fits(x, net) && Readable(net, listed)
    ensures forall v :: v in ReadAll(net, listed) ==> F.ValidPrefix(v)
  {
  }

  /** A host that lies in two pools. */
  ghost predicate Crowded(x: Syntax, net: Net, listed: seq<string>)
    requires Fits(x, net) && Readable(net, listed)
  {
    ReadValid(x, net, listed);
    exists v :: v in ReadAll(net, listed) && A.Ambiguous(F.Masked(v), net.pools)
  }

  /** A host of a pool that the peer does not hold, allocated or quarantined already,
      for whatever peer and whatever has become of it. */
  ghost predicate Unavailable(x: Syntax, net: Net, table: A.Table, key: string, listed: seq<string>)
    requires Fits(x, net) && Readable(net, listed)
  {
    ReadValid(x, net, listed);
    exists slot :: A.Wants(ReadAll(net, listed), net.pools, slot) && !A.HoldsSlot(table, key, slot) && A.Taken(table, slot)
  }

  /** The prefixes of an update can be stored and allocated. */
  ghost predicate Updatable(x: Syntax, net: Net, table: A.Table, key: string, listed: seq<string>)
    requires Fits(x, net)
  {
    && Readable(net, listed) && !Crowded(x, net, listed) && !Unavailable(x, net, table, key, listed)
    && !Repeats(Normalised(x, listed))
  }

  /** Every condition of the completing transaction. */
  ghost predicate CanCommit(x: Syntax, net: Net, d: Data, kind: P.Kind, edit: Edit, asked: Asked, before: Store)
    requires Fits(x, net)
  {
    && Transacted(x, d.rows, kind, edit, asked, before).Some?
    && match edit
       case Add(_) => !Repeats(asked.listed) && !Repeats(asked.routes) && !A.Taken(d.table, asked.slot)
       case Patch(key, _) => Updatable(x, net, d.table, key, asked.listed)
       case _ => true
  }

  /** What it makes of the addresses. */
  ghost predicate Allocates(x: Syntax, net: Net, t: A.Table, next: A.Table, kind: P.Kind, edit: Edit, asked: Asked)
    requires Fits(x, net)
  {
    match edit
    case Add(peer) =>
      exists id :: id !in t && next == t[id := A.Row(asked.slot.pool, peer.publicKey, asked.slot.address, A.Allocated)]
    case Patch(key, _) =>
      Readable(net, asked.listed) && (
        ReadValid(x, net, asked.listed);
        A.Synced(t, next, key, ReadAll(net, asked.listed), net.pools))
    case Remove(key) => next == if kind == P.Revoke then A.Quarantine(t, key) else t
    case Restore(_) => next == t
  }

  ghost predicate Commits(x: Syntax, net: Net, d: Data, next: Data, kind: P.Kind, edit: Edit, asked: Asked, before: Store)
    requires Fits(x, net)
  {
    && CanCommit(x, net, d, kind, edit, asked, before)
    && Transacted(x, d.rows, kind, edit, asked, before) == Some(next.rows)
    && Allocates(x, net, d.table, next.table, kind, edit, asked)
  }

  /** No address gets two live rows. */
  lemma CommitKeepsUnique(x: Syntax, net: Net, d: Data, next: Data, kind: P.Kind, edit: Edit, asked: Asked, before: Store)
    requires Fits(x, net) && A.Unique(d.table) && Commits(x, net, d, next, kind, edit, asked, before)
    ensures A.Unique(next.table)
  {
    hide Transacted, Updatable, A.Unique;
    match edit
    case Add(peer) =>
      var id :| id !in d.table
                && next.table == d.table[id := A.Row(asked.slot.pool, peer.publicKey, asked.slot.address, A.Allocated)];
      A.InsertedHolds(d.table, id, peer.publicKey, asked.slot);
    case Remove(key) => A.QuarantineKeeps(d.table, key);
    case _ =>
  }

  // ---- Rows and the file ----

  /** One of the texts is a way of writing the prefix. */
  ghost predicate Stands(x: Syntax, texts: set<string>, prefix: string) {
    exists text :: text in texts && x.canon(Trim(text)) == Some(prefix)
  }

  /** The row says of the peer what the block says, preshared key aside. */
  ghost predicate Describes(x: Syntax, row: Row, view: PeerView) {
    && row.endpoint == view.endpoint && row.keepalive == view.keepalive
    && forall prefix :: prefix in view.allowed <==> Stands(x, row.allowed, prefix)
  }

  /** The block the row keeps is an archive of the peer it describes. */
  ghost predicate Keeps(x: Syntax, s: Store, r: Registry, key: string, row: Row) {
    exists i :: && 0 <= i < |s.archives| && i < |r.archived|
                && s.archives[i].publicKey == key && row.archive == Some(s.archives[i].text)
                && Describes(x, row, r.archived[i])
  }

  /** Active rows are the peers of the file. */
  ghost predicate Rowed(x: Syntax, peers: seq<PeerView>, rows: Rows) {
    && (forall key :: key in rows && rows[key].lifecycle == A.Active <==> Listed(peers, key))
    && (forall i :: 0 <= i < |peers| ==> peers[i].publicKey in rows && Describes(x, rows[peers[i].publicKey], peers[i]))
  }

  /** All others keep a block. */
  ghost predicate Kept(x: Syntax, s: Store, r: Registry, rows: Rows) {
    && (forall key :: key in rows ==> (rows[key].lifecycle == A.Active <==> rows[key].archive == None))
    && (forall key :: key in rows && rows[key].archive.Some? ==> Keeps(x, s, r, key, rows[key]))
  }

  ghost predicate Mirrors(x: Syntax, s: Store, r: Registry, rows: Rows) {
    Rowed(x, r.peers, rows) && Kept(x, s, r, rows)
  }

  // ---- Canonical prefixes ----

  lemma {:induction false} PrefixesCanonical(x: Syntax, items: seq<string>)
    requires x.Lawful()
    ensures Canonical(x, Prefixes(x, items))
  {
    if items != [] {
      PrefixesCanonical(x, items[1..]);
    }
  }

  lemma {:induction false} AllowedCanonical(x: Syntax, values: seq<string>)
    requires x.Lawful()
    ensures Canonical(x, Allowed(x, values))
  {
    if values != [] {
      AllowedCanonical(x, values[..|values| - 1]);
      PrefixesCanonical(x, SplitComma(values[|values| - 1]));
    }
  }

  /** Canonical texts stand for themselves and for nothing else. */
  lemma CanonicalStands(x: Syntax, values: seq<string>)
    requires Canonical(x, values)
    ensures forall prefix :: prefix in values <==> Stands(x, Texts(values), prefix)
  {
    forall prefix ensures prefix in values <==> Stands(x, Texts(values), prefix) {
      forall i | 0 <= i < |values| ensures x.canon(Trim(values[i])) == Some(values[i]) && values[i] in Texts(values) {
        TrimTight(values[i]);
      }
      if prefix in values {
        assert x.canon(Trim(prefix)) == Some(prefix) && prefix in Texts(values);
      }
    }
  }

  /** What is requested stands for its canonical prefixes. */
  lemma RequestStands(x: Syntax, values: seq<string>)
    requires x.Lawful() && Canonicals(x, values).Some?
    ensures forall prefix :: prefix in Canonicals(x, values).value <==> Stands(x, Texts(values), prefix)
  {
    hide Canonicals;
    CanonicalsAre(x, values);
    forall prefix ensures Writes(x, values, prefix) <==> Stands(x, Texts(values), prefix) {
      if Writes(x, values, prefix) {
        var i :| 0 <= i < |values| && x.canon(Trim(values[i])) == Some(prefix);
        assert values[i] in Texts(values);
      }
    }
  }

  // ---- One transaction ----

  lemma KeepsLater(x: Syntax, s: Store, r: Registry, next: Store, after: Registry, key: string, row: Row)
    requires row.archive.Some? && Keeps(x, s, r, key, row)
    requires s.archives <= next.archives && r.archived <= after.archived
    ensures Keeps(x, next, after, key, row)
  {
    hide Describes;
    var i :| && 0 <= i < |s.archives| && i < |r.archived|
             && s.archives[i].publicKey == key && row.archive == Some(s.archives[i].text)
             && Describes(x, row, r.archived[i]);
    assert next.archives[i] == s.archives[i] && after.archived[i] == r.archived[i];
  }

  /** Rows other than one stay as they are; so does what they keep. */
  lemma OthersKept(x: Syntax, s: Store, r: Registry, rows: Rows, next: Store, after: Registry, key: string, row: Row)
    requires Kept(x, s, r, rows) && s.archives <= next.archives && r.archived <= after.archived
    requires row.lifecycle == A.Active <==> row.archive == None
    requires row.archive.Some? ==> Keeps(x, next, after, key, row)
    ensures Kept(x, next, after, rows[key := row])
  {
    hide Keeps;
    forall other | other in rows && other != key && rows[other].archive.Some? ensures Keeps(x, next, after, other, rows[other]) {
      KeepsLater(x, s, r, next, after, other, rows[other]);
    }
  }

  lemma ListedMore(peers: seq<PeerView>, view: PeerView)
    ensures forall key :: Listed(peers + [view], key) <==> Listed(peers, key) || key == view.publicKey
  {
    var all := peers + [view];
    forall key ensures Listed(all, key) <==> Listed(peers, key) || key == view.publicKey {
      assert all[|peers|] == view;
      if Listed(peers, key) {
        var i :| 0 <= i < |peers| && peers[i].publicKey == key;
        assert all[i] == peers[i];
      }
    }
  }

  /** One more active row, one more peer. */
  lemma RowedMore(x: Syntax, peers: seq<PeerView>, rows: Rows, view: PeerView, row: Row)
    requires Rowed(x, peers, rows) && !Listed(peers, view.publicKey)
    requires row.lifecycle == A.Active && Describes(x, row, view)
    ensures Rowed(x, peers + [view], rows[view.publicKey := row])
  {
    hide Describes, Listed;
    ListedMore(peers, view);
    forall i | 0 <= i < |peers| ensures Listed(peers, peers[i].publicKey) {
      ListedAt(peers, i);
    }
  }

  lemma ListedAt(peers: seq<PeerView>, i: nat)
    requires i < |peers|
    ensures Listed(peers, peers[i].publicKey)
  {
  }

  lemma ListedLess(peers: seq<PeerView>, k: nat)
    requires Distinct(peers) && k < |peers|
    ensures forall key :: Listed(peers[..k] + peers[k + 1..], key) <==> Listed(peers, key) && key != peers[k].publicKey
  {
    var rest := peers[..k] + peers[k + 1..];
    forall key ensures Listed(rest, key) <==> Listed(peers, key) && key != peers[k].publicKey {
      if Listed(peers, key) && key != peers[k].publicKey {
        var i :| 0 <= i < |peers| && peers[i].publicKey == key;
        assert rest[if i < k then i else i - 1] == peers[i];
      }
      if Listed(rest, key) {
        var i :| 0 <= i < |rest| && rest[i].publicKey == key;
        assert rest[i] == peers[if i < k then i else i + 1];
      }
    }
  }

  /** A row that is no longer active, a peer less. */
  lemma RowedLess(x: Syntax, peers: seq<PeerView>, rows: Rows, k: nat, row: Row)
    requires Rowed(x, peers, rows) && Distinct(peers) && k < |peers| && row.lifecycle != A.Active
    ensures Rowed(x, peers[..k] + peers[k + 1..], rows[peers[k].publicKey := row])
  {
    hide Describes, Listed;
    var rest := peers[..k] + peers[k + 1..];
    ListedLess(peers, k);
    forall i | 0 <= i < |rest|
      ensures rest[i].publicKey != peers[k].publicKey && rest[i].publicKey in rows && Describes(x, rows[rest[i].publicKey], rest[i])
    {
      assert rest[i] == peers[if i < k then i else i + 1];
    }
  }

  /** A row and its peer are changed together. */
  lemma RowedSwap(x: Syntax, peers: seq<PeerView>, rows: Rows, k: nat, view: PeerView, row: Row)
    requires Rowed(x, peers, rows) && Distinct(peers) && k < |peers| && view.publicKey == peers[k].publicKey
    requires row.lifecycle == A.Active && Describes(x, row, view)
    ensures Rowed(x, peers[k := view], rows[view.publicKey := row])
  {
    hide Describes;
    var next := peers[k := view];
    forall key ensures Listed(next, key) <==> Listed(peers, key) {
      SameListed(peers, k, view, key);
    }
    ListedAt(peers, k);
  }

  lemma SameListed(peers: seq<PeerView>, k: nat, view: PeerView, key: string)
    requires k < |peers| && view.publicKey == peers[k].publicKey
    ensures Listed(peers[k := view], key) <==> Listed(peers, key)
  {
    var next := peers[k := view];
    if Listed(peers, key) {
      var i :| 0 <= i < |peers| && peers[i].publicKey == key;
      assert next[i].publicKey == key;
    }
    if Listed(next, key) {
      var i :| 0 <= i < |next| && next[i].publicKey == key;
      assert peers[i].publicKey == key;
    }
  }

  lemma AddMirrored(x: Syntax, s: Store, r: Registry, rows: Rows, peer: NewPeer, raw: string)
    requires x.Lawful() && Mirrors(x, s, r, rows) && peer.endpoint == "" && Tight(peer.publicKey)
    requires Canonicals(x, peer.allowedIPs).Some? && peer.publicKey !in rows
    ensures Mirrors(x, s.(raw := raw), r.(peers := r.peers + [NewView(peer, Canonicals(x, peer.allowedIPs).value)]),
                    rows[peer.publicKey := Row(A.Active, Texts(peer.allowedIPs), "", peer.keepalive, None)])
  {
    hide Canonicals, Texts, Stands, Keeps, Listed;
    var view := NewView(peer, Canonicals(x, peer.allowedIPs).value);
    var row := Row(A.Active, Texts(peer.allowedIPs), "", peer.keepalive, None);
    TrimTight(peer.publicKey);
    TrimTight("");
    RequestStands(x, peer.allowedIPs);
    RowedMore(x, r.peers, rows, view, row);
    OthersKept(x, s, r, rows, s.(raw := raw), r.(peers := r.peers + [view]), peer.publicKey, row);
  }

  lemma PatchMirrored(x: Syntax, s: Store, r: Registry, rows: Rows, k: nat, view: PeerView, raw: string)
    requires Mirrors(x, s, r, rows) && Distinct(r.peers) && k < |r.peers| && view.publicKey == r.peers[k].publicKey
    requires Canonical(x, view.allowed)
    ensures view.publicKey in rows && rows[view.publicKey].lifecycle == A.Active && rows[view.publicKey].archive == None
    ensures Mirrors(x, s.(raw := raw), r.(peers := r.peers[k := view]),
                    rows[view.publicKey := Row(A.Active, Texts(view.allowed), view.endpoint, view.keepalive, None)])
  {
    hide Texts, Stands, Keeps, Listed, Canonical;
    var row := Row(A.Active, Texts(view.allowed), view.endpoint, view.keepalive, None);
    ListedAt(r.peers, k);
    CanonicalStands(x, view.allowed);
    RowedSwap(x, r.peers, rows, k, view, row);
    OthersKept(x, s, r, rows, s.(raw := raw), r.(peers := r.peers[k := view]), view.publicKey, row);
  }

  lemma RemoveMirrored(x: Syntax, s: Store, r: Registry, rows: Rows, k: nat, lifecycle: Lifecycle, removed: Removed)
    requires Mirrors(x, s, r, rows) && Distinct(r.peers) && k < |r.peers| && |s.archives| == |r.archived| && lifecycle != A.Active
    ensures var key := r.peers[k].publicKey;
            && key in rows
            && Mirrors(x, Store(removed.text, s.archives + [Archive(key, removed.archived)]),
                       Registry(r.peers[..k] + r.peers[k + 1..], r.archived + [r.peers[k]]),
                       rows[key := rows[key].(lifecycle := lifecycle, archive := Some(removed.archived))])
  {
    hide Stands, Listed;
    var key := r.peers[k].publicKey;
    var row := rows[key].(lifecycle := lifecycle, archive := Some(removed.archived));
    var next := Store(removed.text, s.archives + [Archive(key, removed.archived)]);
    var after := Registry(r.peers[..k] + r.peers[k + 1..], r.archived + [r.peers[k]]);
    assert Describes(x, row, after.archived[|r.archived|]) && next.archives[|s.archives|] == Archive(key, row.archive.value);
    RowedLess(x, r.peers, rows, k, row);
    OthersKept(x, s, r, rows, next, after, key, row);
  }

  /** Two views of one archived text are the same. */
  lemma RestoreMirrored(x: Syntax, s: Store, r: Registry, rows: Rows, k: nat, raw: string)
    requires Mirrors(x, s, r, rows) && Reflects(x, s, r) && k < |s.archives|
    requires s.archives[k].publicKey in rows && rows[s.archives[k].publicKey].archive == Some(s.archives[k].text)
    requires !Listed(r.peers, s.archives[k].publicKey)
    ensures var key := s.archives[k].publicKey;
            Mirrors(x, s.(raw := raw), r.(peers := r.peers + [r.archived[k]]),
                    rows[key := rows[key].(lifecycle := A.Active, archive := None)])
  {
    hide Stands, Listed, StartsText, Meant;
    var key := s.archives[k].publicKey;
    var row := rows[key].(lifecycle := A.Active, archive := None);
    assert Keeps(x, s, r, key, rows[key]);
    var i :| && 0 <= i < |s.archives| && i < |r.archived|
             && s.archives[i].publicKey == key && rows[key].archive == Some(s.archives[i].text)
             && Describes(x, rows[key], r.archived[i]);
    assert OnePeer(r.archived[i]) == OnePeer(r.archived[k]);
    assert Describes(x, row, r.archived[k]);
    RowedMore(x, r.peers, rows, r.archived[k], row);
    OthersKept(x, s, r, rows, s.(raw := raw), r.(peers := r.peers + [r.archived[k]]), key, row);
  }

  /** What the editor configures for a listed key is the registry's peer. */
  lemma ConfiguredIs(x: Syntax, raw: string, peers: seq<PeerView>, k: nat)
    requires Meant(x, raw).peers == peers && Distinct(peers) && k < |peers|
    ensures Configured(x, raw, peers[k].publicKey) == Some(peers[k])
  {
    hide Meant, Safe, AnalysisOf, Refusal;
    RefusalIsUnsafe(x, raw);
    var found := AnalysisOf(x, raw).peers;
    FindIs(found, peers[k].publicKey);
    assert Views(found)[k] == found[k].view;
    var i :| 0 <= i < |found| && found[i] == Find(found, peers[k].publicKey).value;
    assert Views(found)[i] == found[i].view;
  }

  /** Every peer a file lists has canonical prefixes. */
  lemma ListedCanonical(x: Syntax, raw: string, k: nat)
    requires x.Lawful() && k < |Meant(x, raw).peers|
    ensures Canonical(x, Meant(x, raw).peers[k].allowed)
  {
    hide Meant, AnalysisOf, Canonical;
    RefusalIsUnsafe(x, raw);
    var peer := AnalysisOf(x, raw).peers[k];
    assert Views(AnalysisOf(x, raw).peers)[k] == peer.view;
    var body := Located(x, raw, peer);
    AllowedCanonical(x, Values(body, AllowedIPs));
  }

  lemma PatchedCanonical(x: Syntax, view: PeerView, patch: PeerPatch)
    requires x.Lawful() && Canonical(x, view.allowed)
    requires patch.allowedIPs.Some? ==> Canonicals(x, patch.allowedIPs.value).Some?
    ensures Canonical(x, Patched(x, view, patch).allowed)
  {
    hide Canonical;
    if patch.allowedIPs.Some? {
      CanonicalsAre(x, patch.allowedIPs.value);
    }
  }

  lemma {:induction false} DistinctCanonicals(x: Syntax, values: seq<string>)
    requires x.Lawful() && Canonical(x, values)
    ensures Canonicals(x, values).Some? && Texts(Canonicals(x, values).value) == Texts(values)
  {
    CanonicalsSome(x, values);
    CanonicalsAre(x, values);
    CanonicalStands(x, values);
    RequestStands(x, values);
    TextsIn(values);
    TextsIn(Canonicals(x, values).value);
  }

  lemma {:induction false} CanonicalsSome(x: Syntax, values: seq<string>)
    requires Canonical(x, values)
    ensures Canonicals(x, values).Some?
  {
    if values != [] {
      var n := |values| - 1;
      CanonicalsSome(x, values[..n]);
      TrimTight(values[n]);
    }
  }

  lemma TextsIn(values: seq<string>)
    ensures forall text :: text in Texts(values) <==> text in values
  {
  }

  lemma PrintedIs(x: Syntax, values: seq<string>)
    requires Canonical(x, values)
    ensures Normalised(x, values) == values
  {
  }

  /** An update stores the prefixes the file will have. */
  lemma ListedIs(x: Syntax, view: PeerView, patch: PeerPatch, listed: seq<string>)
    requires x.Lawful() && Canonical(x, view.allowed) && Lists(x, view, patch, listed)
    requires patch.allowedIPs.Some? ==> Canonicals(x, patch.allowedIPs.value).Some?
    ensures Canonical(x, listed) && Normalised(x, listed) == listed
    ensures Texts(listed) == Texts(Patched(x, view, patch).allowed)
  {
    hide Canonical, Texts, Canonicals;
    if patch.allowedIPs.Some? {
      DistinctCanonicals(x, listed);
    }
    PrintedIs(x, listed);
  }

  /** One committed operation: the row is changed as the file and the archives are. */
  lemma OperationMirrored(x: Syntax, s: Store, r: Registry, rows: Rows, kind: P.Kind, edit: Edit, asked: Asked, next: Rows)
    requires x.Lawful() && GoodStore(x, s) && Reflects(x, s, r) && Mirrors(x, s, r, rows)
    requires CleanEdit(edit) && EditText(x, s, edit).Ok? && Intends(x, rows, edit, asked, s)
    requires Transacted(x, rows, kind, edit, asked, s) == Some(next)
    ensures Permitted(x, r, edit) && Mirrors(x, EditText(x, s, edit).value, Register(x, r, edit), next)
  {
    hide Mirrors, Reflects, GoodStore, AddText, PatchText, RemoveText, RestoreText, Configured, Patched, Acceptable, ValidPatch, Lists;
    EditIsRegistered(x, s, r, edit);
    GoodFacts(x, s, r);
    DistinctPeers(x, s, r);
    match edit
    case Add(peer) => AddOperation(x, s, r, rows, peer);
    case Patch(key, patch) => PatchOperation(x, s, r, rows, key, patch, asked, next);
    case Remove(key) => RemoveOperation(x, s, r, rows, kind, key, asked, next);
    case Restore(k) => RestoreOperation(x, s, r, rows, kind, k, asked, next);
  }

  lemma DistinctPeers(x: Syntax, s: Store, r: Registry)
    requires GoodStore(x, s) && Reflects(x, s, r)
    ensures Distinct(r.peers) && |s.archives| == |r.archived|
  {
    hide Meant, GoodArchive, Archived;
  }

  lemma AddOperation(x: Syntax, s: Store, r: Registry, rows: Rows, peer: NewPeer)
    requires x.Lawful() && Mirrors(x, s, r, rows) && CleanEdit(Add(peer)) && peer.endpoint == ""
    requires EditText(x, s, Add(peer)).Ok? && Permitted(x, r, Add(peer)) && peer.publicKey !in rows
    ensures Mirrors(x, EditText(x, s, Add(peer)).value, Register(x, r, Add(peer)),
                    rows[peer.publicKey := Row(A.Active, Texts(peer.allowedIPs), "", peer.keepalive, None)])
  {
    hide Mirrors, AddText, Canonicals, ValidPeer, Texts;
    AddMirrored(x, s, r, rows, peer, EditText(x, s, Add(peer)).value.raw);
  }

  lemma PatchOperation(x: Syntax, s: Store, r: Registry, rows: Rows, key: string, patch: PeerPatch, asked: Asked, next: Rows)
    requires x.Lawful() && Mirrors(x, s, r, rows) && Distinct(r.peers) && Meant(x, s.raw).peers == r.peers
    requires EditText(x, s, Patch(key, patch)).Ok? && Permitted(x, r, Patch(key, patch))
    requires Intends(x, rows, Patch(key, patch), asked, s)
    requires UpdatedRow(x, rows, key, patch, asked.listed, Configured(x, s.raw, key)) == Some(next)
    ensures Mirrors(x, EditText(x, s, Patch(key, patch)).value, Register(x, r, Patch(key, patch)), next)
  {
    hide Mirrors, PatchText, Canonicals, Configured, Texts, Meant, Canonical, Lists, Normalised;
    var k := Position(r.peers, key);
    ConfiguredIs(x, s.raw, r.peers, k);
    ListedCanonical(x, s.raw, k);
    PatchedCanonical(x, r.peers[k], patch);
    ListedIs(x, r.peers[k], patch, asked.listed);
    var view := Patched(x, r.peers[k], patch);
    PatchMirrored(x, s, r, rows, k, view, EditText(x, s, Patch(key, patch)).value.raw);
    assert next == rows[key := Row(A.Active, Texts(view.allowed), view.endpoint, view.keepalive, None)];
  }

  lemma RemoveOperation(x: Syntax, s: Store, r: Registry, rows: Rows, kind: P.Kind, key: string, asked: Asked, next: Rows)
    requires Mirrors(x, s, r, rows) && Distinct(r.peers) && |s.archives| == |r.archived|
    requires EditText(x, s, Remove(key)).Ok? && Permitted(x, r, Remove(key))
    requires Transacted(x, rows, kind, Remove(key), asked, s) == Some(next)
    ensures Mirrors(x, EditText(x, s, Remove(key)).value, Register(x, r, Remove(key)), next)
  {
    hide Mirrors, RemoveText;
    var k := Position(r.peers, key);
    RemoveMirrored(x, s, r, rows, k, if kind == P.Revoke then A.Revoked else A.Disabled, RemoveText(x, s.raw, key).value);
  }

  lemma RestoreOperation(x: Syntax, s: Store, r: Registry, rows: Rows, kind: P.Kind, k: nat, asked: Asked, next: Rows)
    requires Mirrors(x, s, r, rows) && Reflects(x, s, r)
    requires EditText(x, s, Restore(k)).Ok? && Permitted(x, r, Restore(k)) && Intends(x, rows, Restore(k), asked, s)
    requires Transacted(x, rows, kind, Restore(k), asked, s) == Some(next)
    ensures Mirrors(x, EditText(x, s, Restore(k)).value, Register(x, r, Restore(k)), next)
  {
    hide Mirrors, RestoreText, Meant, Archived;
    RestoreMirrored(x, s, r, rows, k, EditText(x, s, Restore(k)).value.raw);
  }

  // ---- When the transaction refuses ----

  lemma CanonicalReads(x: Syntax, net: Net, listed: seq<string>)
    requires Fits(x, net) && Canonical(x, listed)
    ensures Readable(net, listed)
  {
  }

  /** What the transaction refuses although the service intended it and the document
      accepted it: a create whose key a peer outside the file has, that repeats a
      text of its prefixes or of its routes, or whose address is taken; an update
      whose prefixes repeat, or name a host of two pools or an address some row has;
      and nothing else. */
  lemma RefusedExactly(x: Syntax, net: Net, s: Store, r: Registry, d: Data, kind: P.Kind, edit: Edit, asked: Asked)
    requires x.Lawful() && Fits(x, net) && GoodStore(x, s) && Reflects(x, s, r) && Mirrors(x, s, r, d.rows)
    requires CleanEdit(edit) && EditText(x, s, edit).Ok? && Intends(x, d.rows, edit, asked, s)
    ensures edit.Patch? ==> Readable(net, asked.listed)
    ensures !CanCommit(x, net, d, kind, edit, asked, s) <==>
            match edit
            case Add(peer) =>
              || peer.publicKey in d.rows || Repeats(peer.allowedIPs) || Repeats(asked.routes)
              || A.Taken(d.table, asked.slot)
            case Patch(key, _) =>
              || Repeats(asked.listed) || Crowded(x, net, asked.listed)
              || Unavailable(x, net, d.table, key, asked.listed)
            case _ => false
    ensures edit.Add? && edit.peer.publicKey in d.rows ==> d.rows[edit.peer.publicKey].lifecycle != A.Active
  {
    hide Mirrors, Reflects, GoodStore, EditText, Permitted, Transacted, Updatable, Crowded, Unavailable, Canonical, Canonicals;
    EditIsRegistered(x, s, r, edit);
    GoodFacts(x, s, r);
    DistinctPeers(x, s, r);
    match edit
    case Add(peer) => AddRefused(x, s, r, d.rows, kind, peer, asked);
    case Patch(key, patch) => PatchRefused(x, net, s, r, d, kind, key, patch, asked);
    case Remove(key) => RemoveAccepted(x, s, r, d.rows, kind, key, asked);
    case Restore(k) => RestoreAccepted(x, s, d.rows, kind, k, asked);
  }

  lemma AddRefused(x: Syntax, s: Store, r: Registry, rows: Rows, kind: P.Kind, peer: NewPeer, asked: Asked)
    requires Mirrors(x, s, r, rows) && Permitted(x, r, Add(peer))
    ensures Transacted(x, rows, kind, Add(peer), asked, s).None? <==> peer.publicKey in rows
    ensures peer.publicKey in rows ==> rows[peer.publicKey].lifecycle != A.Active
  {
    hide Kept, Describes, Acceptable, Listed;
  }

  lemma PatchRefused(x: Syntax, net: Net, s: Store, r: Registry, d: Data, kind: P.Kind, key: string, patch: PeerPatch, asked: Asked)
    requires x.Lawful() && Fits(x, net) && Mirrors(x, s, r, d.rows) && Distinct(r.peers) && Meant(x, s.raw).peers == r.peers
    requires Permitted(x, r, Patch(key, patch)) && Intends(x, d.rows, Patch(key, patch), asked, s)
    ensures Transacted(x, d.rows, kind, Patch(key, patch), asked, s).Some? && Readable(net, asked.listed)
    ensures Updatable(x, net, d.table, key, asked.listed) <==>
            && !Repeats(asked.listed) && !Crowded(x, net, asked.listed)
            && !Unavailable(x, net, d.table, key, asked.listed)
  {
    hide Mirrors, Configured, Texts, Meant, Canonical, Canonicals, Lists, Normalised, Crowded, Unavailable, Repeats, Fits;
    var k := Position(r.peers, key);
    ConfiguredIs(x, s.raw, r.peers, k);
    ListedCanonical(x, s.raw, k);
    ListedIs(x, r.peers[k], patch, asked.listed);
    CanonicalReads(x, net, asked.listed);
  }

  lemma RemoveAccepted(x: Syntax, s: Store, r: Registry, rows: Rows, kind: P.Kind, key: string, asked: Asked)
    requires Mirrors(x, s, r, rows) && EditText(x, s, Remove(key)).Ok? && Intends(x, rows, Remove(key), asked, s)
    ensures Transacted(x, rows, kind, Remove(key), asked, s).Some?
  {
    hide Rowed, Keeps, RemoveText;
  }

  lemma RestoreAccepted(x: Syntax, s: Store, rows: Rows, kind: P.Kind, k: nat, asked: Asked)
    requires EditText(x, s, Restore(k)).Ok? && Intends(x, rows, Restore(k), asked, s)
    ensures Transacted(x, rows, kind, Restore(k), asked, s).Some?
  {
    hide RestoreText;
  }

  /** In particular an address that another peer has, were it disabled or revoked
      long ago, cannot be given to this one. */
  lemma HeldElsewhere(x: Syntax, net: Net, table: A.Table, key: string, listed: seq<string>, slot: A.Slot, id: A.Id)
    requires Fits(x, net) && Readable(net, listed) && A.Unique(table)
    requires forall v :: v in ReadAll(net, listed) ==> F.ValidPrefix(v)
    requires A.Wants(ReadAll(net, listed), net.pools, slot)
    requires id in table && A.Live(table[id]) && A.SlotOf(table[id]) == slot && table[id].peer != key
    ensures Unavailable(x, net, table, key, listed)
  {
    forall other | other in table && A.Holds(table[other], key) ensures A.SlotOf(table[other]) != slot {
      assert other != id;
    }
    assert A.Taken(table, slot);
  }

  // ---- Histories ----

  /** The databases of a history: every committed operation was intended and made its
      transaction, no other changed anything. */
  ghost predicate Recorded(x: Syntax, net: Net, s: Store, first: Data, history: seq<Episode>, asked: seq<Asked>, last: Data)
    requires Fits(x, net)
  {
    && |asked| == |history|
    && if history == [] then last == first else
         var n := |history| - 1;
         exists d :: Recorded(x, net, s, first, history[..n], asked[..n], d) && Records(x, net, s, d, history, asked[n], last)
  }

  /** The last operation of a history. */
  ghost predicate Records(x: Syntax, net: Net, s: Store, d: Data, history: seq<Episode>, asked: Asked, last: Data)
    requires Fits(x, net) && history != []
  {
    var e := history[|history| - 1];
    var before := Run(x, s, CommittedEdits(history[..|history| - 1]));
    if !IsCommitted(e) then last == d
    else Intends(x, d.rows, e.edit, asked, before) && Commits(x, net, d, last, e.plan.kind, e.edit, asked, before)
  }

  lemma CommittedSucceeds(x: Syntax, s: Store, revision: nat, history: seq<Episode>)
    requires history != [] && History(EditorOf(x), s, revision, history)
    ensures var n := |history| - 1;
            var before := Run(x, s, CommittedEdits(history[..n]));
            EditText(x, before, history[n].edit).Ok? && CleanEdit(history[n].edit)
  {
    hide EditText, Ends;
    var n := |history| - 1;
    HistoryIsRun(EditorOf(x), s, revision, history[..n]);
    RunOfEditor(x, s, CommittedEdits(history[..n]));
  }

  lemma RegisteredMore(x: Syntax, s: Store, r: Registry, edits: seq<Edit>, edit: Edit)
    requires Registered(x, s, r, edits).Some? && EditText(x, Run(x, s, edits), edit).Ok?
    requires Permitted(x, Registered(x, s, r, edits).value, edit)
    ensures Registered(x, s, r, edits + [edit]) == Some(Register(x, Registered(x, s, r, edits).value, edit))
    ensures Run(x, s, edits + [edit]) == EditText(x, Run(x, s, edits), edit).value
  {
    hide EditText, Permitted, Register;
    assert (edits + [edit])[..|edits|] == edits;
  }

  /** Rows and addresses after a history, and the registry its file stands for. */
  ghost predicate Agrees(x: Syntax, s: Store, r: Registry, history: seq<Episode>, d: Data) {
    var edits := CommittedEdits(history);
    && Registered(x, s, r, edits).Some? && Mirrors(x, Run(x, s, edits), Registered(x, s, r, edits).value, d.rows)
    && A.Unique(d.table)
  }

  lemma AgreesAtFirst(x: Syntax, s: Store, r: Registry, d: Data)
    requires Mirrors(x, s, r, d.rows) && A.Unique(d.table)
    ensures Agrees(x, s, r, [], d)
  {
    hide Mirrors, A.Unique;
  }

  /** The last operation of a history, after what the earlier ones left. */
  lemma LastAgrees(x: Syntax, net: Net, s: Store, r: Registry, revision: nat, history: seq<Episode>, d: Data, asked: Asked, last: Data)
    requires x.Lawful() && Fits(x, net) && GoodStore(x, s) && Reflects(x, s, r) && History(EditorOf(x), s, revision, history)
    requires history != [] && Agrees(x, s, r, history[..|history| - 1], d) && Records(x, net, s, d, history, asked, last)
    ensures Agrees(x, s, r, history, last)
  {
    hide History, CommittedEdits, Mirrors, Reflects, GoodStore, EditText, Transacted, Registered, Run, Register, Permitted,
         CanCommit, Allocates, Intends, A.Unique;
    var n := |history| - 1;
    var e, edits := history[n], CommittedEdits(history[..n]);
    HistoryFront(EditorOf(x), s, revision, history);
    CommittedClean(EditorOf(x), s, revision, history[..n]);
    if IsCommitted(e) {
      var before := Run(x, s, edits);
      CommittedSucceeds(x, s, revision, history);
      RunIsRegistered(x, s, r, edits);
      ManagedConfig.RunKeeps(x, s, edits);
      OperationMirrored(x, before, Registered(x, s, r, edits).value, d.rows, e.plan.kind, e.edit, asked, last.rows);
      CommitKeepsUnique(x, net, d, last, e.plan.kind, e.edit, asked, before);
      RegisteredMore(x, s, r, edits, e.edit);
    }
  }

  lemma {:induction false} HistoryAgrees(x: Syntax, net: Net, s: Store, r: Registry, revision: nat, history: seq<Episode>,
                                         first: Data, asked: seq<Asked>, last: Data)
    requires x.Lawful() && Fits(x, net) && GoodStore(x, s) && Reflects(x, s, r) && Mirrors(x, s, r, first.rows)
    requires A.Unique(first.table) && History(EditorOf(x), s, revision, history)
    requires Recorded(x, net, s, first, history, asked, last)
    ensures Agrees(x, s, r, history, last)
  {
    hide History, Mirrors, Reflects, GoodStore, Agrees, Records, A.Unique;
    if history == [] {
      AgreesAtFirst(x, s, r, first);
    } else {
      var n := |history| - 1;
      var d: Data :| Recorded(x, net, s, first, history[..n], asked[..n], d) && Records(x, net, s, d, history, asked[n], last);
      HistoryFront(EditorOf(x), s, revision, history);
      HistoryAgrees(x, net, s, r, revision, history[..n], first, asked[..n], d);
      LastAgrees(x, net, s, r, revision, history, d, asked[n], last);
    }
  }

  /** Over every history of operations, whatever crashed or was taken back: the
      active rows are exactly the peers of the file left, with the same prefixes,
      endpoint and keepalive, every other row keeps a block that means the peer it
      describes, and no address has two live rows. */
  lemma DatabaseIsRegistered(x: Syntax, net: Net, s: Store, r: Registry, revision: nat, history: seq<Episode>,
                             first: Data, asked: seq<Asked>, last: Data) returns (left: Found)
    requires x.Lawful() && Fits(x, net) && GoodStore(x, s) && Reflects(x, s, r) && Mirrors(x, s, r, first.rows)
    requires A.Unique(first.table) && History(EditorOf(x), s, revision, history)
    requires Recorded(x, net, s, first, history, asked, last)
    ensures left == Left(Seen(s, revision), history)
    ensures Rowed(x, Meant(x, left.file).peers, last.rows) && A.Unique(last.table)
    ensures forall key :: key in last.rows && last.rows[key].lifecycle != A.Active ==>
              last.rows[key].archive.Some? && exists view ::
                Archived(x, last.rows[key].archive.value, view) && view.publicKey == key && Describes(x, last.rows[key], view)
  {
    hide History, Describes, Archived, Left, Recorded, Rowed, A.Unique;
    var edits := CommittedEdits(history);
    left := Left(Seen(s, revision), history);
    HistoryLeft(EditorOf(x), s, revision, history, edits);
    RunOfEditor(x, s, edits);
    RunIsRegistered(x, s, r, edits);
    HistoryAgrees(x, net, s, r, revision, history, first, asked, last);
    forall key | key in last.rows && last.rows[key].lifecycle != A.Active
      ensures last.rows[key].archive.Some? && exists view ::
                Archived(x, last.rows[key].archive.value, view) && view.publicKey == key && Describes(x, last.rows[key], view)
    {
      KeptMeans(x, Run(x, s, edits), Registered(x, s, r, edits).value, last.rows, key);
    }
  }

  lemma KeptMeans(x: Syntax, s: Store, r: Registry, rows: Rows, key: string)
    requires Kept(x, s, r, rows) && Reflects(x, s, r) && key in rows && rows[key].lifecycle != A.Active
    ensures rows[key].archive.Some? && exists view ::
              Archived(x, rows[key].archive.value, view) && view.publicKey == key && Describes(x, rows[key], view)
  {
    hide Describes, Archived;
    assert Keeps(x, s, r, key, rows[key]);
    var i :| && 0 <= i < |s.archives| && i < |r.archived|
             && s.archives[i].publicKey == key && rows[key].archive == Some(s.archives[i].text)
             && Describes(x, rows[key], r.archived[i]);
    assert Archived(x, s.archives[i].text, r.archived[i]) && r.archived[i].publicKey == key;
  }
}
