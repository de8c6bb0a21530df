/** The inventory's own reader of the same files, which never keeps a secret, and
    its agreement with the document's analysis. */
module ConfigRedacted {
  import opened Text
  import opened ConfigSyntax
  import opened ConfigMeaning
  import opened ConfigAnalysis
  import opened ConfigDocument

  const LINE_LIMIT := 1048576

  // ---- Scanning lines ----

  function DropCr(s: string): string {
    if s != "" && s[|s| - 1] == '\r' then s[..|s| - 1] else s
  }

  /** The tokens of a line scanner: up to each line feed, without one carriage
      return before it.  It gives up at a line that fills its buffer. */
  function ScanTokens(body: string): seq<string>
    decreases |body|
  {
    if body == "" then [] else
      var i := IndexOf(body, '\n');
      if Bytes(body[..i]) >= LINE_LIMIT then []
      else [DropCr(body[..i])] + (if i < |body| then ScanTokens(body[i + 1..]) else [])
  }

  /** The length of a line without its line feed, in bytes. */
  function LineBytes(line: string): nat {
    if line != "" && line[|line| - 1] == '\n' then Bytes(line[..|line| - 1]) else Bytes(line)
  }

  predicate FitsScanner(raw: string) {
    forall i :: 0 <= i < |Lines(raw)| ==> LineBytes(Lines(raw)[i]) < LINE_LIMIT
  }

  function Stripped(lines: seq<string>): (r: seq<string>)
    ensures |r| == |lines|
  {
    seq(|lines|, i requires 0 <= i < |lines| => TrimNewline(lines[i]))
  }

  lemma EndedToken(s: string)
    ensures TrimNewline(s + "\n") == DropCr(s) && LineBytes(s + "\n") == Bytes(s)
  {
    hide Bytes;
    assert (s + "\n")[..|s|] == s;
  }

  lemma OpenToken(s: string)
    requires s != "" && s[|s| - 1] != '\n'
    ensures TrimNewline(s) == DropCr(s) && LineBytes(s) == Bytes(s)
  {
    hide Bytes;
  }

  lemma LineParts(raw: string, i: nat)
    requires i < |raw| && raw[i] == '\n'
    ensures raw[..i + 1] == raw[..i] + "\n"
  {
  }

  lemma FirstToken(raw: string)
    requires raw != ""
    ensures var i := IndexOf(raw, '\n');
            var line := raw[..LineLength(raw)];
            && TrimNewline(line) == DropCr(raw[..i]) && LineBytes(line) == Bytes(raw[..i])
            && raw[LineLength(raw)..] == (if i < |raw| then raw[i + 1..] else "")
  {
    hide Bytes, DropCr, TrimNewline, LineBytes, IndexOf;
    var i := IndexOf(raw, '\n');
    if i < |raw| {
      EndedToken(raw[..i]);
      LineParts(raw, i);
      assert raw[..LineLength(raw)] == raw[..i] + "\n";
    } else {
      assert raw[|raw| - 1] != '\n';
      OpenToken(raw);
      assert raw[..i] == raw && raw[i..] == "";
    }
  }

  lemma RestFits(raw: string)
    requires raw != "" && FitsScanner(raw)
    ensures LineBytes(raw[..LineLength(raw)]) < LINE_LIMIT && FitsScanner(raw[LineLength(raw)..])
  {
    var rest := Lines(raw[LineLength(raw)..]);
    assert Lines(raw)[0] == raw[..LineLength(raw)];
    forall i | 0 <= i < |rest| ensures LineBytes(rest[i]) < LINE_LIMIT {
      assert rest[i] == Lines(raw)[i + 1];
    }
  }

  lemma StrippedCons(line: string, rest: seq<string>)
    ensures Stripped([line] + rest) == [TrimNewline(line)] + Stripped(rest)
  {
  }

  /** Both readers see the same lines, if none is too long for the scanner. */
  lemma {:induction false} TokensAreLines(raw: string)
    requires FitsScanner(raw)
    ensures ScanTokens(raw) == Stripped(Lines(raw))
    decreases |raw|
  {
    if raw != "" {
      var n := LineLength(raw);
      FirstToken(raw);
      RestFits(raw);
      TokensAreLines(raw[n..]);
      StrippedCons(raw[..n], Lines(raw[n..]));
    }
  }

  // ---- Numbers ----

  /** A signed decimal in the range of a 16-bit number. */
  function ParseSigned(s: string): Option<nat> {
    if s != "" && s[0] == '+' then ParseUint16(s[1..])
    else if s != "" && s[0] == '-' then (if ParseUint16(s[1..]) == Some(0) then Some(0) else None)
    else ParseUint16(s)
  }

  /** A sign that the inventory accepts and the document does not. */
  predicate SignedNumber(s: string) {
    s != "" && ((s[0] == '+' && ParseUint16(s[1..]).Some?) || (s[0] == '-' && ParseUint16(s[1..]) == Some(0)))
  }

  lemma SignsDiffer(s: string)
    ensures ParseSigned(s) == ParseUint16(s) <==> !SignedNumber(s)
  {
    if s != "" && s[0] in {'+', '-'} {
      assert ParseUint16(s) == None;
    }
  }

  // ---- Reading ----

  datatype RedactedPeer = RedactedPeer(publicKey: string, allowed: seq<string>, endpoint: string, keepalive: nat)

  const NO_PEER := RedactedPeer("", [], "", 0)

  datatype Reading = Reading(section: string, peer: Option<RedactedPeer>, seen: set<string>, peers: seq<RedactedPeer>)

  const UNREAD := Reading("", None, {}, [])

  function Flush(r: Reading): Reading {
    match r.peer
    case None => r
    case Some(peer) =>
      if peer.publicKey == "" || peer.publicKey in r.seen then r.(peer := None)
      else Reading(r.section, None, r.seen + {peer.publicKey}, r.peers + [peer])
  }

  function ReadKey(x: Syntax, peer: RedactedPeer, key: Key, value: string): RedactedPeer {
    match key
    case PublicKey => if x.validKey(value) then peer.(publicKey := value) else peer
    case AllowedIPs => peer.(allowed := peer.allowed + Items(x, value))
    case Endpoint => peer.(endpoint := value)
    case PersistentKeepalive => (match ParseSigned(value) case Some(n) => peer.(keepalive := n) case None => peer)
    case _ => peer
  }

  function ReadToken(x: Syntax, r: Reading, token: string): Reading {
    var line := Trim(token);
    if line == "" || line[0] == '#' || line[0] == ';' then r
    else if line[0] == '[' && line[|line| - 1] == ']' then
      var section := Lower(Trim(line[1..|line| - 1]));
      Flush(r).(section := section, peer := if SectionOf(section) == PeerSection then Some(NO_PEER) else None)
    else
      var equal := IndexOf(line, '=');
      if equal == |line| then r
      else if SectionOf(r.section) == PeerSection && r.peer.Some? then
        r.(peer := Some(ReadKey(x, r.peer.value, KeyOf(Lower(Trim(line[..equal]))), Trim(line[equal + 1..]))))
      else r
  }

  function ReadTokens(x: Syntax, tokens: seq<string>): Reading {
    if tokens == [] then UNREAD
    else ReadToken(x, ReadTokens(x, tokens[..|tokens| - 1]), tokens[|tokens| - 1])
  }

  /** The peers the inventory lists for a file. */
  function RedactedPeers(x: Syntax, raw: string): seq<RedactedPeer> {
    Flush(ReadTokens(x, ScanTokens(raw))).peers
  }

  lemma ReadOne(x: Syntax, tokens: seq<string>, i: nat)
    requires i < |tokens|
    ensures ReadTokens(x, tokens[..i + 1]) == ReadToken(x, ReadTokens(x, tokens[..i]), tokens[i])
  {
    assert tokens[..i + 1][..i] == tokens[..i];
  }

  /** The loop of the reader, over its changing section, peer and seen keys. */
  method ParseRedacted(x: Syntax, raw: string) returns (peers: seq<RedactedPeer>)
    ensures peers == RedactedPeers(x, raw)
  {
    var tokens := ScanTokens(raw);
    var section := "";
    var peer: Option<RedactedPeer> := None;
    var seen: set<string> := {};
    peers := [];
    var i := 0;
    while i < |tokens|
      invariant i <= |tokens|
      invariant Reading(section, peer, seen, peers) == ReadTokens(x, tokens[..i])
    {
      ReadOne(x, tokens, i);
      section, peer, seen, peers := ReadLine(x, tokens[i], section, peer, seen, peers);
      i := i + 1;
    }
    assert tokens[..i] == tokens;
    peers, seen := FlushPeer(peer, seen, peers, section);
  }

  method ReadLine(x: Syntax, token: string, section: string, peer: Option<RedactedPeer>, seen: set<string>,
                  peers: seq<RedactedPeer>)
    returns (section': string, peer': Option<RedactedPeer>, seen': set<string>, peers': seq<RedactedPeer>)
    ensures Reading(section', peer', seen', peers') == ReadToken(x, Reading(section, peer, seen, peers), token)
  {
    section', peer', seen', peers' := section, peer, seen, peers;
    var line := Trim(token);
    if line == "" || line[0] == '#' || line[0] == ';' {
      return;
    }
    if line[0] == '[' && line[|line| - 1] == ']' {
      peers', seen' := FlushPeer(peer, seen, peers, section);
      section' := Lower(Trim(line[1..|line| - 1]));
      peer' := if SectionOf(section') == PeerSection then Some(NO_PEER) else None;
      return;
    }
    var equal := IndexOf(line, '=');
    if equal < |line| && SectionOf(section) == PeerSection && peer.Some? {
      peer' := Some(ReadKey(x, peer.value, KeyOf(Lower(Trim(line[..equal]))), Trim(line[equal + 1..])));
    }
  }

  method FlushPeer(peer: Option<RedactedPeer>, seen: set<string>, peers: seq<RedactedPeer>, ghost section: string)
    returns (peers': seq<RedactedPeer>, seen': set<string>)
    ensures Flush(Reading(section, peer, seen, peers)) == Reading(section, None, seen', peers')
  {
    peers', seen' := peers, seen;
    if peer.Some? && peer.value.publicKey != "" && peer.value.publicKey !in seen {
      seen' := seen + {peer.value.publicKey};
      peers' := peers + [peer.value];
    }
  }

  // ---- Agreement with the document ----

  /** The peers without those whose key was seen before. */
  function Firsts(peers: seq<PeerView>): seq<PeerView> {
    if peers == [] then [] else
      var n := |peers| - 1;
      Firsts(peers[..n]) + (if Listed(peers[..n], peers[n].publicKey) then [] else [peers[n]])
  }

  lemma {:induction false} FirstsOfDistinct(peers: seq<PeerView>)
    requires Distinct(peers)
    ensures Firsts(peers) == peers
  {
    if peers != [] {
      var n := |peers| - 1;
      FirstsOfDistinct(peers[..n]);
      assert !Listed(peers[..n], peers[n].publicKey);
    }
  }

  /** The same peer, up to the preshared key that the inventory does not keep;
      `exact` says that the keepalive agrees as well. */
  predicate Like(peer: RedactedPeer, view: PeerView, exact: bool) {
    && peer.publicKey == view.publicKey && peer.allowed == view.allowed && peer.endpoint == view.endpoint
    && (exact ==> peer.keepalive == view.keepalive)
  }

  predicate AllLike(peers: seq<RedactedPeer>, views: seq<PeerView>, exact: bool) {
    |peers| == |views| && forall i :: 0 <= i < |peers| ==> Like(peers[i], views[i], exact)
  }

  predicate SignedStmt(t: Stmt) {
    t.Assign? && t.key == PersistentKeepalive && SignedNumber(t.value)
  }

  predicate Unsigned(s: seq<Stmt>) {
    forall i :: 0 <= i < |s| ==> !SignedStmt(s[i])
  }

  /** The last value that is a number to the inventory, or 0. */
  function SignedKeepalive(values: seq<string>): nat {
    if values == [] then 0
    else match ParseSigned(values[|values| - 1])
         case Some(n) => n
         case None => SignedKeepalive(values[..|values| - 1])
  }

  /** A block as the inventory reads it: only the keepalive may be another. */
  function InventoryView(x: Syntax, body: seq<Stmt>): PeerView {
    ViewOf(x, body).(keepalive := SignedKeepalive(Values(body, PersistentKeepalive)))
  }

  function KeyOfBody(x: Syntax, body: seq<Stmt>): string {
    PeerKey(x, Values(body, PublicKey))
  }

  /** The peer blocks that hold a valid key, in order. */
  function PeerBodies(x: Syntax, blocks: seq<Open>): seq<seq<Stmt>> {
    if blocks == [] then [] else
      var n := |blocks| - 1;
      PeerBodies(x, blocks[..n]) + OpenBody(x, blocks[n])
  }

  function OpenBody(x: Syntax, o: Open): seq<seq<Stmt>> {
    if o.section.PeerSection? && KeyOfBody(x, o.body) != "" then [o.body] else []
  }

  predicate KeyAmong(x: Syntax, bodies: seq<seq<Stmt>>, key: string) {
    exists i :: 0 <= i < |bodies| && KeyOfBody(x, bodies[i]) == key
  }

  /** The blocks without those whose key was seen before. */
  function FirstBodies(x: Syntax, bodies: seq<seq<Stmt>>): seq<seq<Stmt>> {
    if bodies == [] then [] else
      var n := |bodies| - 1;
      FirstBodies(x, bodies[..n]) + (if KeyAmong(x, bodies[..n], KeyOfBody(x, bodies[n])) then [] else [bodies[n]])
  }

  /** The blocks of the peers listed for a file. */
  function ListedBodies(x: Syntax, raw: string): seq<seq<Stmt>> {
    FirstBodies(x, PeerBodies(x, Blocks(Stmts(Lines(raw)))))
  }

  /** The listed peers are the blocks as the inventory reads them. */
  predicate ListsBodies(x: Syntax, peers: seq<RedactedPeer>, bodies: seq<seq<Stmt>>) {
    |peers| == |bodies| && forall i :: 0 <= i < |peers| ==> Like(peers[i], InventoryView(x, bodies[i]), true)
  }

  predicate ReadAgrees(x: Syntax, r: Reading, done: seq<seq<Stmt>>, o: Open) {
    && ListsBodies(x, r.peers, FirstBodies(x, done))
    && InSection(r.section, o.section)
    && (r.peer.Some? <==> o.section.PeerSection?)
    && (r.peer.Some? ==> Like(r.peer.value, InventoryView(x, o.body), true))
  }

  ghost predicate SeenAgrees(x: Syntax, r: Reading, done: seq<seq<Stmt>>) {
    forall key :: key in r.seen <==> KeyAmong(x, done, key)
  }

  lemma KeyAmongMore(x: Syntax, done: seq<seq<Stmt>>, body: seq<Stmt>)
    ensures forall key :: KeyAmong(x, done + [body], key) <==> KeyAmong(x, done, key) || key == KeyOfBody(x, body)
    ensures FirstBodies(x, done + [body]) ==
            FirstBodies(x, done) + (if KeyAmong(x, done, KeyOfBody(x, body)) then [] else [body])
  {
    var all := done + [body];
    hide KeyOfBody;
    assert all[..|done|] == done && all[|done|] == body;
    forall key ensures KeyAmong(x, all, key) <==> KeyAmong(x, done, key) || key == KeyOfBody(x, body) {
      if KeyAmong(x, done, key) {
        var i :| 0 <= i < |done| && KeyOfBody(x, done[i]) == key;
        assert all[i] == done[i];
      }
    }
  }

  lemma InventoryKey(x: Syntax, body: seq<Stmt>)
    ensures InventoryView(x, body).publicKey == KeyOfBody(x, body)
  {
  }

  lemma ListsMore(x: Syntax, peers: seq<RedactedPeer>, bodies: seq<seq<Stmt>>, peer: RedactedPeer, body: seq<Stmt>)
    requires ListsBodies(x, peers, bodies) && Like(peer, InventoryView(x, body), true)
    ensures ListsBodies(x, peers + [peer], bodies + [body])
  {
    hide InventoryView;
  }

  lemma FlushAgrees(x: Syntax, r: Reading, done: seq<seq<Stmt>>, o: Open)
    requires ReadAgrees(x, r, done, o) && SeenAgrees(x, r, done)
    ensures var next, all := Flush(r), done + OpenBody(x, o);
            ListsBodies(x, next.peers, FirstBodies(x, all)) && SeenAgrees(x, next, all)
  {
    hide FirstBodies, KeyAmong, InventoryView, KeyOfBody, SectionOf, ListsBodies;
    assert r.peer.Some? ==> r.peer.value.publicKey == KeyOfBody(x, o.body) by {
      assert r.peer.Some? ==> InventoryView(x, o.body).publicKey == KeyOfBody(x, o.body) by { InventoryKey(x, o.body); }
    }
    if OpenBody(x, o) == [] {
      assert done + [] == done;
    } else {
      KeyAmongMore(x, done, o.body);
      if !KeyAmong(x, done, KeyOfBody(x, o.body)) {
        ListsMore(x, r.peers, FirstBodies(x, done), r.peer.value, o.body);
      } else {
        assert FirstBodies(x, done) + [] == FirstBodies(x, done);
      }
    }
  }

  lemma TokenMeans(x: Syntax, r: Reading, token: string)
    ensures var p := Classify(Trim(token));
            var next := ReadToken(x, r, token);
            match p
            case Header(name) =>
              next == Flush(r).(section := name, peer := if SectionOf(name) == PeerSection then Some(NO_PEER) else None)
            case Assign(key, value) =>
              next == (if SectionOf(r.section) == PeerSection && r.peer.Some?
                       then r.(peer := Some(ReadKey(x, r.peer.value, KeyOf(key), value))) else r)
            case _ => next == r
  {
    assert KeyOf("") == OtherKey("");
  }

  /** One more assignment, read as the inventory reads it. */
  lemma InventoryStep(x: Syntax, peer: RedactedPeer, body: seq<Stmt>, key: Key, value: string)
    requires Like(peer, InventoryView(x, body), true) && Trim(value) == value
    ensures Like(ReadKey(x, peer, key, value), InventoryView(x, body + [Assign(key, value)]), true)
  {
    hide Values, ViewOf, SignedKeepalive;
    AssignedView(x, body, key, value);
    ValuesStep(body, Assign(key, value), PersistentKeepalive);
    SignedStep(Values(body, PersistentKeepalive), value);
    if key != PersistentKeepalive {
      assert Values(body, PersistentKeepalive) + [] == Values(body, PersistentKeepalive);
    }
  }

  lemma SignedStep(values: seq<string>, value: string)
    ensures SignedKeepalive(values + [value]) ==
            (match ParseSigned(value) case Some(n) => n case None => SignedKeepalive(values))
  {
    assert (values + [value])[..|values|] == values;
  }

  lemma InventorySilent(x: Syntax, body: seq<Stmt>, t: Stmt)
    requires !t.Assign?
    ensures InventoryView(x, body + [t]) == InventoryView(x, body)
  {
    SilentView(x, body, t);
  }

  lemma EmptyBody(x: Syntax)
    ensures Like(NO_PEER, InventoryView(x, []), true)
  {
    assert Values([], PublicKey) == [];
  }

  lemma TokenTrimmed(token: string)
    ensures var p := Classify(Trim(token)); p.Assign? ==> Trim(p.value) == p.value
  {
    var t := Trim(token);
    var equal := IndexOf(t, '=');
    if equal < |t| {
      TrimOnce(t[equal + 1..]);
    }
  }

  /** One line read by both. */
  lemma TokenAgrees(x: Syntax, r: Reading, done: seq<seq<Stmt>>, o: Open, token: string)
    requires ReadAgrees(x, r, done, o) && SeenAgrees(x, r, done)
    ensures var t, next := StmtOf(token), ReadToken(x, r, token);
            if t.Header?
            then ReadAgrees(x, next, done + OpenBody(x, o), Open(t.section, [])) && SeenAgrees(x, next, done + OpenBody(x, o))
            else ReadAgrees(x, next, done, Open(o.section, o.body + [t])) && SeenAgrees(x, next, done)
  {
    hide ListsBodies, SeenAgrees, InventoryView, OpenBody, ReadKey, Flush, Trim, Classify;
    var p, t := Classify(Trim(token)), StmtOf(token);
    TokenMeans(x, r, token);
    TokenTrimmed(token);
    match p
    case Header(name) =>
      FlushAgrees(x, r, done, o);
      EmptyBody(x);
      FlushedSeen(x, Flush(r), ReadToken(x, r, token), done + OpenBody(x, o));
    case Assign(key, value) =>
      if r.peer.Some? {
        InventoryStep(x, r.peer.value, o.body, KeyOf(key), value);
      }
      FlushedSeen(x, r, ReadToken(x, r, token), done);
    case _ =>
      InventorySilent(x, o.body, t);
  }

  lemma FlushedSeen(x: Syntax, r: Reading, next: Reading, done: seq<seq<Stmt>>)
    requires SeenAgrees(x, r, done) && next.seen == r.seen
    ensures SeenAgrees(x, next, done)
  {
  }

  /** What the reader has after some lines: the open block is still in hand. */
  ghost predicate LinesRead(x: Syntax, r: Reading, s: seq<Stmt>, before: seq<Open>, o: Open) {
    && Blocks(s) == before + [o] && ReadAgrees(x, r, PeerBodies(x, before), o)
    && SeenAgrees(x, r, PeerBodies(x, before))
  }

  lemma BodiesMore(x: Syntax, before: seq<Open>, o: Open)
    ensures PeerBodies(x, before + [o]) == PeerBodies(x, before) + OpenBody(x, o)
  {
    assert (before + [o])[..|before|] == before;
  }

  lemma TokensStep(x: Syntax, r: Reading, s: seq<Stmt>, before: seq<Open>, o: Open, token: string)
    returns (next: seq<Open>, last: Open)
    requires LinesRead(x, r, s, before, o)
    ensures LinesRead(x, ReadToken(x, r, token), s + [StmtOf(token)], next, last)
  {
    hide ReadAgrees, SeenAgrees, PeerBodies, OpenBody, ReadToken, StmtOf, Blocks, Sums, Total;
    var t := StmtOf(token);
    TokenAgrees(x, r, PeerBodies(x, before), o, token);
    next, last := BlocksOpen(x, s, before, o, t);
    BodiesMore(x, before, o);
    if t.Header? {
      assert next == before + [o] by {
        LastBlock(s, before, o, t, next, last);
      }
    }
  }

  lemma LastBlock(s: seq<Stmt>, before: seq<Open>, o: Open, t: Stmt, next: seq<Open>, last: Open)
    requires Blocks(s) == before + [o] && Blocks(s + [t]) == next + [last] && t.Header?
    ensures next == before + [o]
  {
    hide Blocks;
    BlocksStep(s, t);
    assert next == (next + [last])[..|next|];
    assert before + [o] == (before + [o] + [Open(t.section, [])])[..|before| + 1];
  }

  lemma {:induction false} TokensAgree(x: Syntax, tokens: seq<string>) returns (before: seq<Open>, o: Open)
    ensures LinesRead(x, ReadTokens(x, tokens), Stmts(tokens), before, o)
  {
    if tokens == [] {
      before, o := [], Open(NoSection, []);
      assert SectionOf("") == OtherSection("");
    } else {
      hide LinesRead, ReadToken;
      var n := |tokens| - 1;
      FrontAndLast(tokens);
      StmtsStep(tokens[..n], tokens[n]);
      before, o := TokensAgree(x, tokens[..n]);
      before, o := TokensStep(x, ReadTokens(x, tokens[..n]), Stmts(tokens[..n]), before, o, tokens[n]);
    }
  }

  lemma StrippedMean(lines: seq<string>)
    ensures Stmts(Stripped(lines)) == Stmts(lines)
  {
    forall i | 0 <= i < |lines| ensures StmtOf(TrimNewline(lines[i])) == StmtOf(lines[i]) {
      var _ := TrimNewlineSplit(lines[i]);
    }
  }

  /** The inventory lists the first block of every key, as it reads it. */
  lemma InventoryIs(x: Syntax, raw: string)
    requires FitsScanner(raw)
    ensures ListsBodies(x, RedactedPeers(x, raw), ListedBodies(x, raw))
  {
    hide ListsBodies, ReadAgrees, SeenAgrees, PeerBodies, OpenBody, FirstBodies, Blocks, ScanTokens, ReadTokens, Flush;
    TokensAreLines(raw);
    StrippedMean(Lines(raw));
    var tokens := ScanTokens(raw);
    var before, o := TokensAgree(x, tokens);
    FlushAgrees(x, ReadTokens(x, tokens), PeerBodies(x, before), o);
    BodiesMore(x, before, o);
  }

  lemma EachMore<A, B>(f: A -> B, s: seq<A>, t: A)
    ensures Each(f, s + [t]) == Each(f, s) + [f(t)]
  {
  }

  lemma ViewsMore(x: Syntax, o: Open)
    ensures Each(ViewReader(x), OpenBody(x, o)) == OpenSum(x, o).peers
  {
  }

  /** The document lists every block that holds a valid key. */
  lemma {:induction false} BodiesAreViews(x: Syntax, blocks: seq<Open>)
    ensures Total(Sums(x, blocks)).peers == Each(ViewReader(x), PeerBodies(x, blocks))
  {
    if blocks != [] {
      hide OpenSum, OpenBody, ViewReader;
      var n := |blocks| - 1;
      BodiesAreViews(x, blocks[..n]);
      FrontAndLast(blocks);
      SumsAppend(x, blocks[..n], [blocks[n]]);
      TotalOne(x, blocks[n]);
      ViewsMore(x, blocks[n]);
      EachAppend(ViewReader(x), PeerBodies(x, blocks[..n]), OpenBody(x, blocks[n]));
    }
  }

  lemma ListedBody(x: Syntax, bodies: seq<seq<Stmt>>, key: string)
    ensures Listed(Each(ViewReader(x), bodies), key) <==> KeyAmong(x, bodies, key)
  {
    var views := Each(ViewReader(x), bodies);
    assert forall i :: 0 <= i < |bodies| ==> views[i].publicKey == KeyOfBody(x, bodies[i]);
  }

  lemma {:induction false} FirstsAreBodies(x: Syntax, bodies: seq<seq<Stmt>>)
    ensures Firsts(Each(ViewReader(x), bodies)) == Each(ViewReader(x), FirstBodies(x, bodies))
  {
    if bodies != [] {
      hide ViewReader, KeyAmong, Listed;
      var read, n := ViewReader(x), |bodies| - 1;
      FirstsAreBodies(x, bodies[..n]);
      ListedBody(x, bodies[..n], KeyOfBody(x, bodies[n]));
      assert read(bodies[n]).publicKey == KeyOfBody(x, bodies[n]) by { ReaderKey(x, bodies[n]); }
      FrontAndLast(bodies);
      EachMore(read, bodies[..n], bodies[n]);
      assert Each(read, bodies)[..n] == Each(read, bodies[..n]);
      EachMore(read, FirstBodies(x, bodies[..n]), bodies[n]);
    }
  }

  lemma ReaderKey(x: Syntax, body: seq<Stmt>)
    ensures ViewReader(x)(body).publicKey == KeyOfBody(x, body)
  {
  }

  /** The document's peers, without repeated keys, are the same blocks. */
  lemma DocumentIs(x: Syntax, raw: string)
    ensures Firsts(Views(AnalysisOf(x, raw).peers)) == Each(ViewReader(x), ListedBodies(x, raw))
  {
    hide Each, ViewReader, PeerBodies, FirstBodies, Firsts, Total, Sums, Blocks, Analyze;
    AnalysisIsSummary(x, Lines(raw));
    BodiesAreViews(x, Blocks(Stmts(Lines(raw))));
    FirstsAreBodies(x, PeerBodies(x, Blocks(Stmts(Lines(raw)))));
  }

  lemma NumberStep(values: seq<string>, value: string)
    ensures Keepalive(values + [value]) == (match ParseUint16(value) case Some(n) => n case None => Keepalive(values))
  {
    assert (values + [value])[..|values|] == values;
  }

  /** The last of the values that is a number without a sign is `n`; or there is
      none, and `n` is 0. */
  ghost predicate LastUnsigned(values: seq<string>, n: nat) {
    || (exists j :: && 0 <= j < |values| && ParseUint16(values[j]) == Some(n)
                    && forall k :: j < k < |values| ==> ParseUint16(values[k]) == None)
    || (n == 0 && forall j :: 0 <= j < |values| ==> ParseUint16(values[j]) == None)
  }

  /** The value at `i` is a signed number, no number follows it, and it is not the
      last unsigned one. */
  ghost predicate SignDecides(values: seq<string>, i: nat)
    requires i < |values|
  {
    && SignedNumber(values[i])
    && (forall k :: i < k < |values| ==> ParseUint16(values[k]) == None && !SignedNumber(values[k]))
    && !LastUnsigned(values, ParseSigned(values[i]).value)
  }

  lemma NumberKinds(s: string)
    ensures ParseSigned(s).Some? <==> ParseUint16(s).Some? || SignedNumber(s)
    ensures !(ParseUint16(s).Some? && SignedNumber(s))
    ensures ParseUint16(s).Some? ==> ParseSigned(s) == ParseUint16(s)
  {
    SignsDiffer(s);
    if s != "" && s[0] in {'+', '-'} {
      assert ParseUint16(s) == None;
    }
  }

  lemma {:induction false} LastUnsignedIs(values: seq<string>)
    ensures forall n: nat :: LastUnsigned(values, n) <==> n == Keepalive(values)
  {
    if values != [] {
      hide ParseUint16;
      var m := |values| - 1;
      LastUnsignedIs(values[..m]);
      FrontAndLast(values);
      NumberStep(values[..m], values[m]);
      forall n: nat ensures LastUnsigned(values, n) <==> n == Keepalive(values) {
        UnsignedStep(values[..m], values[m], n);
      }
    }
  }

  lemma UnsignedStep(values: seq<string>, value: string, n: nat)
    ensures LastUnsigned(values + [value], n) <==>
            (match ParseUint16(value) case Some(m) => n == m case None => LastUnsigned(values, n))
  {
    hide ParseUint16;
    var all := values + [value];
    assert all[|values|] == value && forall i :: 0 <= i < |values| ==> all[i] == values[i];
    if ParseUint16(value).None? && LastUnsigned(values, n) {
      if j :| && 0 <= j < |values| && ParseUint16(values[j]) == Some(n)
              && forall k :: j < k < |values| ==> ParseUint16(values[k]) == None {
        assert ParseUint16(all[j]) == Some(n);
      }
    }
  }

  lemma SignStep(values: seq<string>, value: string)
    requires ParseSigned(value) == None
    ensures forall i :: 0 <= i < |values| ==> (SignDecides(values + [value], i) <==> SignDecides(values, i))
    ensures !SignDecides(values + [value], |values|)
  {
    hide ParseUint16, ParseSigned, SignedNumber, LastUnsigned;
    var all := values + [value];
    NumberKinds(value);
    assert all[|values|] == value && forall i :: 0 <= i < |values| ==> all[i] == values[i];
    forall i | 0 <= i < |values| ensures SignDecides(all, i) <==> SignDecides(values, i) {
      if SignedNumber(values[i]) {
        NumberKinds(values[i]);
        UnsignedStep(values, value, ParseSigned(values[i]).value);
      }
    }
  }

  lemma SignLast(values: seq<string>, value: string)
    requires ParseSigned(value).Some?
    ensures forall i :: 0 <= i < |values| ==> !SignDecides(values + [value], i)
    ensures SignDecides(values + [value], |values|) <==> SignedNumber(value) && !LastUnsigned(values + [value], ParseSigned(value).value)
  {
    hide ParseUint16, ParseSigned, SignedNumber, LastUnsigned;
    NumberKinds(value);
    assert (values + [value])[|values|] == value;
  }

  /** The two readers take another number for a list of values exactly if a signed
      number comes after every other number, and its value is not that of the last
      unsigned one, or 0 if there is none. */
  lemma {:induction false} SignsDecide(values: seq<string>)
    ensures SignedKeepalive(values) != Keepalive(values) <==> exists i :: 0 <= i < |values| && SignDecides(values, i)
  {
    if values != [] {
      hide SignDecides, LastUnsigned, ParseUint16, ParseSigned, SignedNumber, Keepalive, SignedKeepalive;
      var n := |values| - 1;
      FrontAndLast(values);
      SignedStep(values[..n], values[n]);
      NumberStep(values[..n], values[n]);
      NumberKinds(values[n]);
      if ParseSigned(values[n]).None? {
        SignsDecide(values[..n]);
        SignStep(values[..n], values[n]);
        assert (exists i :: 0 <= i < |values| && SignDecides(values, i)) <==> exists i :: 0 <= i < n && SignDecides(values[..n], i);
      } else {
        SignLast(values[..n], values[n]);
        LastUnsignedIs(values);
      }
    }
  }

  /** On every file whose lines fit the scanner the two lists, the document's
      without repeated keys, hold the same peers in the same order, and differ in
      a keepalive exactly if a signed number comes last in its block and is not the
      number that comes last without it. */
  lemma KeepalivesDiffer(x: Syntax, raw: string, k: nat)
    requires FitsScanner(raw) && k < |ListedBodies(x, raw)|
    ensures var peers, views := RedactedPeers(x, raw), Firsts(Views(AnalysisOf(x, raw).peers));
            var values := Values(ListedBodies(x, raw)[k], PersistentKeepalive);
            && |peers| == |views| == |ListedBodies(x, raw)| && Like(peers[k], views[k], false)
            && peers[k].keepalive == SignedKeepalive(values) && views[k].keepalive == Keepalive(values)
            && LastUnsigned(values, views[k].keepalive)
            && (Like(peers[k], views[k], true) <==> !exists i :: 0 <= i < |values| && SignDecides(values, i))
  {
    hide RedactedPeers, ListedBodies, Firsts, AnalysisOf, SignDecides, LastUnsigned, Keepalive, SignedKeepalive;
    InventoryIs(x, raw);
    DocumentIs(x, raw);
    SignsDecide(Values(ListedBodies(x, raw)[k], PersistentKeepalive));
    LastUnsignedIs(Values(ListedBodies(x, raw)[k], PersistentKeepalive));
  }

  /** A last number with a sign is what the inventory shows, and the document
      shows the number before it, or 0. */
  lemma LastSigned(values: seq<string>, last: string)
    requires SignedNumber(last)
    ensures SignedKeepalive(values + [last]) == ParseSigned(last).value && Keepalive(values + [last]) == Keepalive(values)
  {
    SignedStep(values, last);
    NumberStep(values, last);
    assert ParseUint16(last) == None;
  }

  /** So a listed peer whose only keepalive has a sign and is not 0
      differs between the two lists. */
  lemma SignedPeerDiffers(x: Syntax, raw: string, k: nat, value: string)
    requires FitsScanner(raw) && k < |ListedBodies(x, raw)|
    requires Values(ListedBodies(x, raw)[k], PersistentKeepalive) == [value]
    requires SignedNumber(value) && ParseSigned(value) != Some(0)
    ensures k < |RedactedPeers(x, raw)| == |Firsts(Views(AnalysisOf(x, raw).peers))|
    ensures RedactedPeers(x, raw)[k].keepalive == ParseSigned(value).value > 0
    ensures Firsts(Views(AnalysisOf(x, raw).peers))[k].keepalive == 0
  {
    hide RedactedPeers, ListedBodies, Firsts, AnalysisOf;
    KeepalivesDiffer(x, raw, k);
    LastSigned([], value);
    assert [] + [value] == [value];
  }

  // ---- Files without signs ----

  lemma {:induction false} BlocksWithin(s: seq<Stmt>)
    ensures Unsigned(s) ==> forall i :: 0 <= i < |Blocks(s)| ==> Unsigned(Blocks(s)[i].body)
  {
    if s != [] {
      var n := |s| - 1;
      BlocksWithin(s[..n]);
    }
  }

  lemma {:induction false} BodiesWithin(x: Syntax, blocks: seq<Open>)
    requires forall i :: 0 <= i < |blocks| ==> Unsigned(blocks[i].body)
    ensures forall i :: 0 <= i < |PeerBodies(x, blocks)| ==> Unsigned(PeerBodies(x, blocks)[i])
  {
    if blocks != [] {
      hide Unsigned, KeyOfBody;
      BodiesWithin(x, blocks[..|blocks| - 1]);
    }
  }

  lemma {:induction false} FirstsWithin(x: Syntax, bodies: seq<seq<Stmt>>)
    requires forall i :: 0 <= i < |bodies| ==> Unsigned(bodies[i])
    ensures forall i :: 0 <= i < |FirstBodies(x, bodies)| ==> Unsigned(FirstBodies(x, bodies)[i])
  {
    if bodies != [] {
      hide Unsigned, KeyAmong;
      FirstsWithin(x, bodies[..|bodies| - 1]);
    }
  }

  lemma {:induction false} UnsignedSame(body: seq<Stmt>)
    requires Unsigned(body)
    ensures SignedKeepalive(Values(body, PersistentKeepalive)) == Keepalive(Values(body, PersistentKeepalive))
  {
    if body != [] {
      var n := |body| - 1;
      UnsignedSame(body[..n]);
      assert !SignedStmt(body[n]);
      var values := Values(body[..n], PersistentKeepalive);
      if body[n].Assign? && body[n].key == PersistentKeepalive {
        SignsDiffer(body[n].value);
        SignedStep(values, body[n].value);
        NumberStep(values, body[n].value);
      } else {
        assert values + [] == values;
      }
    }
  }

  /** On every file whose lines fit the scanner, whether it may be adopted or
      not, the inventory lists the document's peers without repeated keys, with
      the same keys, prefixes and endpoints, and the same keepalives as well
      unless one is written with a sign. */
  lemma ReadersAgree(x: Syntax, raw: string, exact: bool)
    requires FitsScanner(raw) && (exact ==> Unsigned(Stmts(Lines(raw))))
    ensures AllLike(RedactedPeers(x, raw), Firsts(Views(AnalysisOf(x, raw).peers)), exact)
  {
    hide RedactedPeers, FirstBodies, PeerBodies, Firsts, AnalysisOf, Blocks, Unsigned, Like;
    InventoryIs(x, raw);
    DocumentIs(x, raw);
    var bodies := ListedBodies(x, raw);
    forall k | 0 <= k < |bodies|
      ensures Like(RedactedPeers(x, raw)[k], Firsts(Views(AnalysisOf(x, raw).peers))[k], exact)
    {
      KeepalivesDiffer(x, raw, k);
      if exact {
        BlocksWithin(Stmts(Lines(raw)));
        BodiesWithin(x, Blocks(Stmts(Lines(raw))));
        FirstsWithin(x, PeerBodies(x, Blocks(Stmts(Lines(raw)))));
        UnsignedSame(bodies[k]);
      }
    }
  }

  /** On a file that may be adopted no key repeats: the lists are the same. */
  lemma ReadersAgreeOnSafe(x: Syntax, raw: string, exact: bool)
    requires FitsScanner(raw) && AdoptionSafe(AnalysisOf(x, raw))
    requires exact ==> Unsigned(Stmts(Lines(raw)))
    ensures AllLike(RedactedPeers(x, raw), Views(AnalysisOf(x, raw).peers), exact)
  {
    ReadersAgree(x, raw, exact);
    AnalysisIsSummary(x, Lines(raw));
    FirstsOfDistinct(Views(AnalysisOf(x, raw).peers));
  }
}
