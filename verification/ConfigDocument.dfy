/** The edits of a document, as functions from text to text, and what they mean. */
module ConfigDocument {
  import opened Text
  import opened ConfigSyntax
  import opened ConfigMeaning
  import opened ConfigAnalysis
  import opened ConfigPatch

  const MAX_BYTES := 4194304

  datatype Error = TooLarge | Unsupported | DuplicatePeer | PeerNotFound | InvalidValue

  datatype Result<+T> = Ok(value: T) | Err(error: Error)

  function NodesOf(raw: string): seq<Node> {
    ParseNodes(Lines(raw))
  }

  function AnalysisOf(x: Syntax, raw: string): Analysis {
    Analyze(x, NodesOf(raw))
  }

  /** What the text means. */
  function Meant(x: Syntax, raw: string): Sum {
    Summary(x, Stmts(Lines(raw)))
  }

  predicate EndsWith(s: string, suffix: string) {
    |suffix| <= |s| && s[|s| - |suffix|..] == suffix
  }

  predicate HasCrLf(raw: string) {
    exists i :: 0 <= i < |raw| - 1 && raw[i] == '\r' && raw[i + 1] == '\n'
  }

  /** The line end the document uses for the lines it adds. */
  function Newline(raw: string): (nl: string)
    ensures IsNewline(nl)
  {
    if HasCrLf(raw) then "\r\n" else "\n"
  }

  /** Why a document may not be edited, if so. */
  function Refusal(a: Analysis): Option<Error> {
    if a.interfaces != 1 || a.hasUnknown then Some(Unsupported) else FirstBlocking(a.warnings)
  }

  function FirstBlocking(warnings: seq<Warning>): Option<Error> {
    if warnings == [] then None
    else if warnings[0].code == DuplicatePeerPublicKey then Some(DuplicatePeer)
    else if Blocking(warnings[0].code) then Some(Unsupported)
    else FirstBlocking(warnings[1..])
  }

  function Find(peers: seq<Peer>, publicKey: string): Option<Peer> {
    if peers == [] then None
    else if peers[0].view.publicKey == publicKey then Some(peers[0])
    else Find(peers[1..], publicKey)
  }

  function Parsed(raw: string): Result<string> {
    if Bytes(raw) > MAX_BYTES then Err(TooLarge) else Ok(raw)
  }

  lemma {:induction false} FirstBlockingIs(warnings: seq<Warning>)
    ensures FirstBlocking(warnings).None? <==> Unblocked(warnings)
  {
    if warnings != [] {
      FirstBlockingIs(warnings[1..]);
      assert forall i :: 0 <= i < |warnings| - 1 ==> warnings[1..][i] == warnings[i + 1];
    }
  }

  /** A document may be edited exactly if its blocks say so. */
  lemma RefusalIsUnsafe(x: Syntax, raw: string)
    ensures Refusal(AnalysisOf(x, raw)).None? <==> Safe(x, Meant(x, raw))
    ensures Views(AnalysisOf(x, raw).peers) == Meant(x, raw).peers
  {
    FirstBlockingIs(AnalysisOf(x, raw).warnings);
    AnalysisIsSummary(x, Lines(raw));
  }

  lemma {:induction false} FindIs(peers: seq<Peer>, publicKey: string)
    ensures Find(peers, publicKey).None? <==> forall i :: 0 <= i < |peers| ==> peers[i].view.publicKey != publicKey
    ensures Find(peers, publicKey).Some? ==>
            Find(peers, publicKey).value in peers && Find(peers, publicKey).value.view.publicKey == publicKey
  {
    if peers != [] {
      FindIs(peers[1..], publicKey);
      assert forall i :: 0 <= i < |peers| - 1 ==> peers[1..][i] == peers[i + 1];
    }
  }

  predicate Listed(peers: seq<PeerView>, publicKey: string) {
    exists i :: 0 <= i < |peers| && peers[i].publicKey == publicKey
  }

  // ---- A peer's place in the text ----

  /** The lines before a peer's block, the block, and the lines after it. */
  datatype Place = Place(before: seq<string>, block: seq<string>, after: seq<string>)

  function PlaceOf(lines: seq<string>, peer: Peer): Place
    requires peer.blockStart <= peer.blockEnd <= |lines|
  {
    Place(lines[..peer.blockStart], lines[peer.blockStart..peer.blockEnd], lines[peer.blockEnd..])
  }

  lemma StmtsSlice(lines: seq<string>, i: nat, j: nat)
    requires i <= j <= |lines|
    ensures Stmts(lines[i..j]) == Stmts(lines)[i..j]
  {
  }

  /** The block is a peer header and the body the peer was read from. */
  ghost predicate Holds(x: Syntax, place: Place, view: PeerView, body: seq<Stmt>) {
    && Stmts(place.block) == [Header(PeerSection)] + body
    && NoHeader(body) && view == ViewOf(x, body)
    && StartsBlock(Stmts(place.after))
  }

  lemma Located(x: Syntax, raw: string, peer: Peer) returns (body: seq<Stmt>)
    requires peer in AnalysisOf(x, raw).peers
    ensures peer.blockStart < peer.blockEnd <= |Lines(raw)|
    ensures Holds(x, PlaceOf(Lines(raw), peer), peer.view, body)
  {
    hide StmtOf, ViewOf, NoHeader, Analyze;
    var lines := Lines(raw);
    var s := Stmts(lines);
    PeersArePlaced(x, lines);
    assert Delimited(ViewReader(x), s, peer);
    var start, end := peer.blockStart, peer.blockEnd;
    body := s[start + 1..end];
    StmtsSlice(lines, start, end);
    StmtsSlice(lines, end, |lines|);
    assert lines[end..|lines|] == lines[end..] && s[end..|s|] == s[end..];
    FirstAndRest(s[start..end]);
    assert s[start..end][1..] == body;
  }

  lemma PlaceJoins(lines: seq<string>, peer: Peer)
    requires peer.blockStart <= peer.blockEnd <= |lines|
    ensures var p := PlaceOf(lines, peer); p.before + p.block + p.after == lines
  {
  }

  /** A text with a peer block in it is the sum of what is around the block and
      the block. */
  lemma SumAround(x: Syntax, place: Place, view: PeerView, body: seq<Stmt>)
    requires Holds(x, place, view, body)
    ensures Summary(x, Stmts(place.before + place.block + place.after)) ==
            Add(Summary(x, Stmts(place.before)),
                Add(OpenSum(x, Open(PeerSection, body)), Summary(x, Stmts(place.after))))
  {
    var a, b, c := Stmts(place.before), Stmts(place.block), Stmts(place.after);
    StmtsAppend(place.before + place.block, place.after);
    StmtsAppend(place.before, place.block);
    Associate(a, b, c);
    assert (b + c)[0] == b[0] == Header(PeerSection);
    SummaryAppend(x, a, b + c);
    SummaryAppend(x, b, c);
    BlockSummary(x, PeerSection, body);
  }

  // ---- Peers in a sum ----

  function OnePeer(view: PeerView): Sum {
    Sum(0, [], true, [view])
  }

  lemma SafeBlock(x: Syntax, body: seq<Stmt>)
    requires OpenSum(x, Open(PeerSection, body)).ok
    ensures OpenSum(x, Open(PeerSection, body)) == OnePeer(ViewOf(x, body))
    ensures OpenOk(x, Open(PeerSection, body)) && ViewOf(x, body).publicKey != ""
  {
  }

  lemma Around(a: Sum, view: PeerView, c: Sum)
    ensures Add(a, Add(OnePeer(view), c)) ==
            Sum(a.interfaces + c.interfaces, a.privateKeys + c.privateKeys, a.ok && c.ok, a.peers + [view] + c.peers)
  {
    Associate(a.peers, [view], c.peers);
    assert [] + c.privateKeys == c.privateKeys;
  }

  lemma SwapDistinct(a: seq<PeerView>, view: PeerView, c: seq<PeerView>, other: PeerView)
    requires Distinct(a + [view] + c) && other.publicKey == view.publicKey
    ensures Distinct(a + [other] + c)
    ensures a + [other] + c == (a + [view] + c)[|a| := other]
  {
    var all, next := a + [view] + c, a + [other] + c;
    assert forall i :: 0 <= i < |all| ==> next[i].publicKey == all[i].publicKey;
  }

  lemma DropDistinct(a: seq<PeerView>, view: PeerView, c: seq<PeerView>)
    requires Distinct(a + [view] + c)
    ensures Distinct(a + c) && Distinct(a + c + [view])
    ensures !Listed(a + c, view.publicKey)
    ensures a + c == (a + [view] + c)[..|a|] + (a + [view] + c)[|a| + 1..]
  {
    var all, rest := a + [view] + c, a + c;
    forall i, j | 0 <= i < j < |rest| ensures rest[i].publicKey != rest[j].publicKey {
      var i', j' := if i < |a| then i else i + 1, if j < |a| then j else j + 1;
      assert rest[i] == all[i'] && rest[j] == all[j'];
    }
    forall i | 0 <= i < |rest| ensures rest[i].publicKey != view.publicKey {
      var i' := if i < |a| then i else i + 1;
      assert rest[i] == all[i'] && all[|a|] == view;
    }
    DistinctAppend(rest, view);
  }

  // ---- Changing fields of a peer ----

  datatype PeerPatch = PeerPatch(allowedIPs: Option<seq<string>>, endpoint: Option<string>,
                                 keepalive: Option<nat>, psk: Option<string>)

  /** The canonical prefixes, without repetition, or nothing if one is invalid. */
  function Canonicals(x: Syntax, values: seq<string>): Option<seq<string>> {
    if values == [] then Some([]) else
      match Canonicals(x, values[..|values| - 1])
      case None => None
      case Some(items) =>
        match x.canon(Trim(values[|values| - 1]))
        case None => None
        case Some(prefix) => Some(if prefix in items then items else items + [prefix])
  }

  lemma {:induction false} CanonicalsAre(x: Syntax, values: seq<string>)
    requires x.Lawful() && Canonicals(x, values).Some?
    ensures Canonical(x, Canonicals(x, values).value)
    ensures forall i, j :: 0 <= i < j < |Canonicals(x, values).value| ==>
              Canonicals(x, values).value[i] != Canonicals(x, values).value[j]
    ensures forall prefix :: prefix in Canonicals(x, values).value <==> Writes(x, values, prefix)
  {
    if values != [] {
      hide Trim, Writes, Token;
      var n := |values| - 1;
      CanonicalsAre(x, values[..n]);
      forall prefix
        ensures Writes(x, values, prefix) <==> Writes(x, values[..n], prefix) || x.canon(Trim(values[n])) == Some(prefix)
      {
        WritesMore(x, values, prefix);
      }
    }
  }

  /** One of the values is a way of writing the prefix. */
  predicate Writes(x: Syntax, values: seq<string>, prefix: string) {
    exists i :: 0 <= i < |values| && x.canon(Trim(values[i])) == Some(prefix)
  }

  lemma WritesMore(x: Syntax, values: seq<string>, prefix: string)
    requires values != []
    ensures Writes(x, values, prefix) <==>
            Writes(x, values[..|values| - 1], prefix) || x.canon(Trim(values[|values| - 1])) == Some(prefix)
  {
    hide Trim;
    var n := |values| - 1;
    if Writes(x, values[..n], prefix) {
      var i :| 0 <= i < n && x.canon(Trim(values[..n][i])) == Some(prefix);
      assert x.canon(Trim(values[i])) == Some(prefix);
    }
    if Writes(x, values, prefix) {
      var i :| 0 <= i < |values| && x.canon(Trim(values[i])) == Some(prefix);
      if i < n {
        assert x.canon(Trim(values[..n][i])) == Some(prefix);
      }
    }
  }

  function Requested(key: Key, value: Option<string>): seq<Request> {
    match value case None => [] case Some(v) => [Request(key, v)]
  }

  /** The new value of each key, where the patch gives one. */
  function NewAllowed(x: Syntax, patch: PeerPatch): Option<string>
    requires patch.allowedIPs.Some? ==> Canonicals(x, patch.allowedIPs.value).Some?
  {
    if patch.allowedIPs.Some? then Some(Join(Canonicals(x, patch.allowedIPs.value).value)) else None
  }

  function NewEndpoint(patch: PeerPatch): Option<string> {
    if patch.endpoint.Some? then Some(Trim(patch.endpoint.value)) else None
  }

  function NewKeepalive(patch: PeerPatch): Option<string> {
    if patch.keepalive.Some? then Some(Digits(patch.keepalive.value)) else None
  }

  function NewPsk(patch: PeerPatch): Option<string> {
    if patch.psk.Some? then Some(Trim(patch.psk.value)) else None
  }

  function FourKeys(allowed: Option<string>, endpoint: Option<string>, keepalive: Option<string>,
                    psk: Option<string>): seq<Request> {
    Requested(AllowedIPs, allowed) + Requested(Endpoint, endpoint)
    + Requested(PersistentKeepalive, keepalive) + Requested(PresharedKey, psk)
  }

  /** The keys to rewrite, in the order they are rewritten. */
  function Requests(x: Syntax, patch: PeerPatch): Result<seq<Request>> {
    if patch.allowedIPs.Some? && Canonicals(x, patch.allowedIPs.value).None? then Err(InvalidValue)
    else if patch.psk.Some? && patch.psk.value != "" && !x.validKey(Trim(patch.psk.value)) then Err(InvalidValue)
    else Ok(FourKeys(NewAllowed(x, patch), NewEndpoint(patch), NewKeepalive(patch), NewPsk(patch)))
  }

  /** The text with the lines of one peer's block replaced. */
  function Spliced(lines: seq<string>, peer: Peer, block: string): string
    requires peer.blockStart <= peer.blockEnd <= |lines|
  {
    var place := PlaceOf(lines, peer);
    Concat(place.before) + block + Concat(place.after)
  }

  lemma FoundInside(x: Syntax, raw: string, publicKey: string)
    ensures var found := Find(AnalysisOf(x, raw).peers, publicKey);
            found.Some? ==> found.value.blockStart < found.value.blockEnd <= |Lines(raw)|
  {
    var peers := AnalysisOf(x, raw).peers;
    FindIs(peers, publicKey);
    if Find(peers, publicKey).Some? {
      var _ := Located(x, raw, Find(peers, publicKey).value);
    }
  }

  function BlockNodes(raw: string, peer: Peer): seq<Node>
    requires peer.blockStart <= peer.blockEnd <= |Lines(raw)|
  {
    NodesOf(raw)[peer.blockStart..peer.blockEnd]
  }

  function PatchText(x: Syntax, raw: string, publicKey: string, patch: PeerPatch): Result<string> {
    var a := AnalysisOf(x, raw);
    match Refusal(a)
    case Some(error) => Err(error)
    case None =>
      match Find(a.peers, publicKey)
      case None => Err(PeerNotFound)
      case Some(peer) =>
        match Requests(x, patch)
        case Err(error) => Err(error)
        case Ok(requests) =>
          FoundInside(x, raw, publicKey);
          RequestsSettable(x, patch);
          Parsed(Spliced(Lines(raw), peer, Concat(Raws(PatchBlock(BlockNodes(raw, peer), requests, Newline(raw))))))
  }

  lemma FourSettable(allowed: Option<string>, endpoint: Option<string>, keepalive: Option<string>, psk: Option<string>)
    ensures AllSettable(FourKeys(allowed, endpoint, keepalive, psk))
  {
  }

  lemma FourDistinct(allowed: Option<string>, endpoint: Option<string>, keepalive: Option<string>, psk: Option<string>)
    ensures DistinctKeys(FourKeys(allowed, endpoint, keepalive, psk))
  {
  }

  lemma RequestsSettable(x: Syntax, patch: PeerPatch)
    ensures Requests(x, patch).Ok? ==> AllSettable(Requests(x, patch).value) && DistinctKeys(Requests(x, patch).value)
  {
    hide FourKeys, NewAllowed, NewEndpoint, NewKeepalive, NewPsk, Canonicals, AllSettable, DistinctKeys;
    if Requests(x, patch).Ok? {
      FourSettable(NewAllowed(x, patch), NewEndpoint(patch), NewKeepalive(patch), NewPsk(patch));
      FourDistinct(NewAllowed(x, patch), NewEndpoint(patch), NewKeepalive(patch), NewPsk(patch));
    }
  }

  /** What is written of the values, trimmed, holds no line breaks. */
  predicate Unbroken(patch: PeerPatch) {
    && (patch.endpoint.Some? ==> NoBreak(Trim(patch.endpoint.value)))
    && (patch.psk.Some? ==> NoBreak(Trim(patch.psk.value)))
    && (patch.keepalive.Some? ==> patch.keepalive.value <= 65535)
  }

  lemma TrimValued(s: string)
    requires NoBreak(Trim(s))
    ensures Valued(Trim(s))
  {
    var _, _ := TrimSplit(s);
  }

  lemma RequestsValued(x: Syntax, patch: PeerPatch)
    requires x.Lawful() && Unbroken(patch) && Requests(x, patch).Ok?
    ensures forall i :: 0 <= i < |Requests(x, patch).value| ==> Valued(Requests(x, patch).value[i].value)
  {
    hide Trim, Join, Canonicals, Digits;
    if patch.allowedIPs.Some? {
      CanonicalsAre(x, patch.allowedIPs.value);
      JoinIsTight(Canonicals(x, patch.allowedIPs.value).value);
    }
    if patch.endpoint.Some? {
      TrimValued(patch.endpoint.value);
    }
    if patch.keepalive.Some? {
      DigitsParse(patch.keepalive.value);
    }
    if patch.psk.Some? {
      TrimValued(patch.psk.value);
    }
  }

  lemma ParsedSelf(raw: string, section: string)
    ensures var node := ParseLine(raw, section);
            node.raw == raw && (node.kind.Assignment? ==> node.section == section)
  {
  }

  lemma NodeTrue(raw: string, i: nat)
    requires i < |Lines(raw)|
    ensures var node := NodesOf(raw)[i];
            && True(node) && node.raw == Lines(raw)[i]
            && (node.kind.Assignment? ==> node == ParseLine(node.raw, node.section))
            && Named(Meaning(node)) == Stmts(Lines(raw))[i]
  {
    NodeAt(Lines(raw), i);
    ParsedSelf(Lines(raw)[i], SectionAfter(ParseNodes(Lines(raw))[..i]));
    LinesWellSplit(raw);
  }

  lemma BlockNodeIs(raw: string, peer: Peer, i: nat)
    requires peer.blockStart <= peer.blockEnd <= |Lines(raw)| && i < peer.blockEnd - peer.blockStart
    ensures var block := BlockNodes(raw, peer);
            && i < |block| == |PlaceOf(Lines(raw), peer).block|
            && True(block[i]) && block[i].raw == PlaceOf(Lines(raw), peer).block[i]
            && (block[i].kind.Assignment? ==> block[i] == ParseLine(block[i].raw, block[i].section))
  {
    hide True, ParseLine, Named, Meaning, Stmts, Lines;
    NodeTrue(raw, peer.blockStart + i);
  }

  lemma BlockIs(raw: string, peer: Peer)
    requires peer.blockStart <= peer.blockEnd <= |Lines(raw)|
    ensures var block := BlockNodes(raw, peer);
            && AllTrue(block) && (forall key :: Spliceable(block, key))
            && Raws(block) == PlaceOf(Lines(raw), peer).block
            && Said(block) == Stmts(PlaceOf(Lines(raw), peer).block)
  {
    hide True, ParseLine, Lines, StmtOf, Named, Meaning;
    var block := BlockNodes(raw, peer);
    forall i | 0 <= i < |block|
      ensures True(block[i]) && block[i].raw == PlaceOf(Lines(raw), peer).block[i]
      ensures block[i].kind.Assignment? ==> block[i] == ParseLine(block[i].raw, block[i].section)
    {
      BlockNodeIs(raw, peer, i);
    }
    assert Raws(block) == PlaceOf(Lines(raw), peer).block;
    SaidIsMeant(block);
  }

  /** The block does not start with an assignment. */
  predicate HeadedBlock(raw: string, peer: Peer)
    requires peer.blockStart < peer.blockEnd <= |Lines(raw)|
  {
    !BlockNodes(raw, peer)[0].kind.Assignment?
  }

  lemma HeaderKind(node: Node)
    requires Named(Meaning(node)).Header?
    ensures node.kind == SectionHeader
  {
  }

  lemma BlockHeader(x: Syntax, raw: string, peer: Peer, body: seq<Stmt>)
    requires peer.blockStart < peer.blockEnd <= |Lines(raw)|
    requires Holds(x, PlaceOf(Lines(raw), peer), peer.view, body)
    ensures var block := BlockNodes(raw, peer);
            && block[0].kind == SectionHeader && Named(Meaning(block[0])) == Header(PeerSection)
            && Said(block[1..]) == body
  {
    hide Said, StmtOf, Stmts, AllTrue, Spliceable, Meaning, Named, NoHeader, StartsBlock, ViewOf;
    var block := BlockNodes(raw, peer);
    BlockIs(raw, peer);
    SaidFirst(block);
    SameParts(Named(Meaning(block[0])), Said(block[1..]), Header(PeerSection), body);
    HeaderKind(block[0]);
  }

  /** The block found can be patched. */
  lemma BlockPatchable(x: Syntax, raw: string, peer: Peer, patch: PeerPatch)
    requires x.Lawful() && Unbroken(patch) && Requests(x, patch).Ok?
    requires peer.blockStart < peer.blockEnd <= |Lines(raw)|
    requires HeadedBlock(raw, peer)
    ensures Patchable(BlockNodes(raw, peer), Requests(x, patch).value, Newline(raw))
  {
    BlockIs(raw, peer);
    RequestsSettable(x, patch);
    RequestsValued(x, patch);
  }

  lemma OthersKinds(a: seq<Node>, b: seq<Node>, keys: set<Key>, kind: NodeKind)
    requires Others(a, keys) == Others(b, keys) && kind != Assignment
    ensures NoKind(a, kind) == NoKind(b, kind)
  {
    OthersAmong(a, keys);
    OthersAmong(b, keys);
    assert NoKind(a, kind) == NoKind(Others(a, keys), kind);
    assert NoKind(b, kind) == NoKind(Others(b, keys), kind);
  }

  function OneValue(value: string): seq<string> {
    if value == "" then [] else [value]
  }

  lemma TailOthers(a: seq<Node>, b: seq<Node>, keys: set<Key>)
    requires a != [] && b != [] && a[0] == b[0] && !a[0].kind.Assignment? && Others(a, keys) == Others(b, keys)
    ensures Others(a[1..], keys) == Others(b[1..], keys)
  {
    assert Others(a, keys)[1..] == Others(a[1..], keys);
    assert Others(b, keys)[1..] == Others(b[1..], keys);
  }

  lemma TailValues(block: seq<Node>, key: Key)
    requires block != [] && !block[0].kind.Assignment?
    ensures Values(Said(block), key) == Values(Said(block[1..]), key)
  {
    FirstAndRest(block);
    NodeValues(block[0], block[1..], key);
  }

  /** What a patch makes of the body of a block. */
  lemma PatchedBody(block: seq<Node>, requests: seq<Request>, nl: string)
    requires Patchable(block, requests, nl)
    ensures var after := PatchBlock(block, requests, nl);
            && AllTrue(after) && after != [] && after[0] == block[0]
            && NoHeader(Said(after[1..])) == NoHeader(Said(block[1..]))
            && NoRaw(Said(after[1..])) == NoRaw(Said(block[1..]))
            && (forall r :: r in requests ==> Values(Said(after[1..]), r.key) == OneValue(r.value))
            && (forall key :: key !in Keys(requests) ==> Values(Said(after[1..]), key) == Values(Said(block[1..]), key))
  {
    var after := PatchBlock(block, requests, nl);
    var keys := Keys(requests);
    PatchOthers(block, requests, nl, keys);
    TailOthers(block, after, keys);
    OthersKinds(block[1..], after[1..], keys, SectionHeader);
    OthersKinds(block[1..], after[1..], keys, RawLine);
    SaidKinds(block[1..]);
    SaidKinds(after[1..]);
    forall r | r in requests ensures Values(Said(after[1..]), r.key) == OneValue(r.value) {
      var k :| 0 <= k < |requests| && requests[k] == r;
      PatchValues(block, requests, nl, k);
      TailValues(after, r.key);
    }
    forall key | key !in keys ensures Values(Said(after[1..]), key) == Values(Said(block[1..]), key) {
      KeptValues(block[1..], after[1..], keys, key);
    }
  }

  /** The peer the patch asks for. */
  function Patched(x: Syntax, view: PeerView, patch: PeerPatch): PeerView
    requires patch.allowedIPs.Some? ==> Canonicals(x, patch.allowedIPs.value).Some?
  {
    PeerView(view.publicKey,
             if patch.psk.Some? then Trim(patch.psk.value) != "" else view.psk,
             if patch.allowedIPs.Some? then Canonicals(x, patch.allowedIPs.value).value else view.allowed,
             if patch.endpoint.Some? then Trim(patch.endpoint.value) else view.endpoint,
             if patch.keepalive.Some? then patch.keepalive.value else view.keepalive)
  }

  predicate Asks(requests: seq<Request>, key: Key, value: Option<string>) {
    match value
    case None => key !in Keys(requests)
    case Some(v) => Request(key, v) in requests
  }

  lemma KeysHold(requests: seq<Request>)
    ensures forall key :: key in Keys(requests) ==> exists r :: r in requests && r.key == key
  {
    forall key | key in Keys(requests) ensures exists r :: r in requests && r.key == key {
      var i :| 0 <= i < |requests| && requests[i].key == key;
      assert requests[i] in requests;
    }
  }

  lemma FourKeysHold(allowed: Option<string>, endpoint: Option<string>, keepalive: Option<string>, psk: Option<string>)
    ensures forall r :: r in FourKeys(allowed, endpoint, keepalive, psk) <==>
              || r in Requested(AllowedIPs, allowed) || r in Requested(Endpoint, endpoint)
              || r in Requested(PersistentKeepalive, keepalive) || r in Requested(PresharedKey, psk)
  {
  }

  lemma FourKeysAsk(allowed: Option<string>, endpoint: Option<string>, keepalive: Option<string>, psk: Option<string>)
    ensures var requests := FourKeys(allowed, endpoint, keepalive, psk);
            && Asks(requests, AllowedIPs, allowed) && Asks(requests, Endpoint, endpoint)
            && Asks(requests, PersistentKeepalive, keepalive) && Asks(requests, PresharedKey, psk)
            && PublicKey !in Keys(requests)
  {
    hide FourKeys, Keys;
    FourKeysHold(allowed, endpoint, keepalive, psk);
    KeysHold(FourKeys(allowed, endpoint, keepalive, psk));
  }

  lemma OneAllowed(x: Syntax, items: seq<string>)
    requires x.Lawful() && Canonical(x, items)
    ensures Allowed(x, OneValue(Join(items))) == items
  {
    ItemsJoin(x, items);
    var value := Join(items);
    assert [value][..0] == [];
    if items != [] {
      JoinIsTight(items);
    }
    assert [] + items == items;
  }

  lemma OneKeepalive(n: nat)
    requires n <= 65535
    ensures Keepalive(OneValue(Digits(n))) == n
  {
    DigitsParse(n);
  }

  function After(values: seq<string>, value: Option<string>): seq<string> {
    match value case None => values case Some(v) => OneValue(v)
  }

  lemma AskedValues(block: seq<Node>, after: seq<Node>, requests: seq<Request>, nl: string, key: Key, value: Option<string>)
    requires Patchable(block, requests, nl) && Asks(requests, key, value)
    requires after == PatchBlock(block, requests, nl) && after != []
    ensures Values(Said(after[1..]), key) == After(Values(Said(block[1..]), key), value)
  {
    PatchedBody(block, requests, nl);
  }

  lemma ViewAfter(x: Syntax, view: PeerView, patch: PeerPatch, allowed: seq<string>, endpoint: seq<string>,
                  keepalive: seq<string>, psk: seq<string>)
    requires x.Lawful() && Unbroken(patch) && Requests(x, patch).Ok?
    requires view.psk == (LastOr(psk, "") != "") && view.allowed == Allowed(x, allowed)
    requires view.endpoint == LastOr(endpoint, "") && view.keepalive == Keepalive(keepalive)
    ensures PeerView(view.publicKey, LastOr(After(psk, NewPsk(patch)), "") != "",
                     Allowed(x, After(allowed, NewAllowed(x, patch))),
                     LastOr(After(endpoint, NewEndpoint(patch)), ""),
                     Keepalive(After(keepalive, NewKeepalive(patch)))) == Patched(x, view, patch)
  {
    if patch.allowedIPs.Some? {
      CanonicalsAre(x, patch.allowedIPs.value);
      OneAllowed(x, Canonicals(x, patch.allowedIPs.value).value);
    }
    if patch.keepalive.Some? {
      OneKeepalive(patch.keepalive.value);
    }
  }

  /** The patched block reads as the peer the patch asks for. */
  lemma PatchedView(x: Syntax, block: seq<Node>, after: seq<Node>, patch: PeerPatch, nl: string)
    requires x.Lawful() && Unbroken(patch) && Requests(x, patch).Ok?
    requires Patchable(block, Requests(x, patch).value, nl)
    requires after == PatchBlock(block, Requests(x, patch).value, nl) && after != []
    ensures ViewOf(x, Said(after[1..])) == Patched(x, ViewOf(x, Said(block[1..])), patch)
  {
    var requests := Requests(x, patch).value;
    var body := Said(block[1..]);
    FourKeysAsk(NewAllowed(x, patch), NewEndpoint(patch), NewKeepalive(patch), NewPsk(patch));
    AskedValues(block, after, requests, nl, PublicKey, None);
    AskedValues(block, after, requests, nl, AllowedIPs, NewAllowed(x, patch));
    AskedValues(block, after, requests, nl, Endpoint, NewEndpoint(patch));
    AskedValues(block, after, requests, nl, PersistentKeepalive, NewKeepalive(patch));
    AskedValues(block, after, requests, nl, PresharedKey, NewPsk(patch));
    ViewAfter(x, ViewOf(x, body), patch, Values(body, AllowedIPs), Values(body, Endpoint),
              Values(body, PersistentKeepalive), Values(body, PresharedKey));
  }

  lemma PatchedOk(x: Syntax, block: seq<Node>, after: seq<Node>, requests: seq<Request>, nl: string)
    requires Patchable(block, requests, nl)
    requires after == PatchBlock(block, requests, nl) && after != []
    requires OpenOk(x, Open(PeerSection, Said(block[1..])))
    ensures OpenOk(x, Open(PeerSection, Said(after[1..])))
  {
    PatchedBody(block, requests, nl);
    assert PublicKey !in Keys(requests);
    if PresharedKey in Keys(requests) {
      var k :| 0 <= k < |requests| && requests[k].key == PresharedKey;
      assert requests[k] in requests;
    }
  }

  // ---- Lines put together ----

  predicate AllLines(lines: seq<string>) {
    forall i :: 0 <= i < |lines| ==> IsLine(lines[i])
  }

  predicate AllClosed(lines: seq<string>) {
    forall i :: 0 <= i < |lines| ==> IsLine(lines[i]) && Closed(lines[i])
  }

  lemma SplitPlace(lines: seq<string>, peer: Peer)
    requires WellSplit(lines) && peer.blockStart < peer.blockEnd <= |lines|
    ensures var p := PlaceOf(lines, peer);
            && AllClosed(p.before) && WellSplit(p.block) && WellSplit(p.after)
            && (p.after != [] ==> AllClosed(p.block))
  {
    var p := PlaceOf(lines, peer);
    assert forall i :: 0 <= i < |p.before| ==> p.before[i] == lines[i];
    assert forall i :: 0 <= i < |p.block| ==> p.block[i] == lines[peer.blockStart + i];
    assert forall i :: 0 <= i < |p.after| ==> p.after[i] == lines[peer.blockEnd + i];
  }

  lemma JoinSplit(a: seq<string>, b: seq<string>)
    requires AllClosed(a) && WellSplit(b)
    ensures WellSplit(a + b)
    ensures AllClosed(b) ==> AllClosed(a + b)
  {
  }

  lemma ConcatThree(a: seq<string>, b: seq<string>, c: seq<string>)
    ensures Concat(a + b + c) == Concat(a) + Concat(b) + Concat(c)
  {
    ConcatAppend(a + b, c);
    ConcatAppend(a, b);
  }

  lemma {:induction false} LastClosed(lines: seq<string>)
    requires lines != [] && WellSplit(lines)
    ensures Concat(lines) != "" && Closed(Concat(lines)) == Closed(lines[|lines| - 1])
  {
    LinesJoin(lines);
    LastLine(Concat(lines));
  }

  /** The lines of a text that closes its last line are closed. */
  lemma ClosedLines(raw: string)
    ensures Closed(raw) <==> AllClosed(Lines(raw))
  {
    LinesWellSplit(raw);
    ConcatLines(raw);
    if raw != "" {
      LastLine(raw);
    }
  }

  /** The lines that assign none of the keys. */
  function OtherLines(lines: seq<string>, keys: set<Key>): seq<string> {
    if lines == [] then [] else
      var t := StmtOf(lines[0]);
      (if t.Assign? && t.key in keys then [] else [lines[0]]) + OtherLines(lines[1..], keys)
  }

  lemma {:induction false} OtherRaws(block: seq<Node>, keys: set<Key>)
    requires AllTrue(block)
    ensures OtherLines(Raws(block), keys) == Raws(Others(block, keys))
  {
    if block != [] {
      var h, rest := block[0], block[1..];
      assert h in block;
      SaidFirst(block);
      assert Raws(block)[1..] == Raws(rest);
      OtherRaws(rest, keys);
      assert StmtOf(h.raw) == Named(Meaning(h));
      if AssignsAny(h, keys) {
        assert [] + Raws(Others(rest, keys)) == Raws(Others(rest, keys));
      } else {
        SaidFirst([h] + Others(rest, keys));
        assert ([h] + Others(rest, keys))[1..] == Others(rest, keys);
      }
    }
  }

  // ---- What patching a peer does ----

  function AskedKeys(x: Syntax, patch: PeerPatch): set<Key> {
    match Requests(x, patch) case Ok(requests) => Keys(requests) case Err(_) => {}
  }

  /** The new lines of the block. */
  function PatchedLines(x: Syntax, raw: string, peer: Peer, patch: PeerPatch): seq<string>
    requires peer.blockStart <= peer.blockEnd <= |Lines(raw)| && Requests(x, patch).Ok?
  {
    RequestsSettable(x, patch);
    Raws(PatchBlock(BlockNodes(raw, peer), Requests(x, patch).value, Newline(raw)))
  }

  lemma PatchedLinesMean(x: Syntax, raw: string, peer: Peer, body: seq<Stmt>, patch: PeerPatch) returns (next: seq<Stmt>)
    requires x.Lawful() && Unbroken(patch) && Requests(x, patch).Ok?
    requires peer.blockStart < peer.blockEnd <= |Lines(raw)|
    requires var p := PlaceOf(Lines(raw), peer); Holds(x, p, peer.view, body)
    requires OpenOk(x, Open(PeerSection, body))
    ensures var p := PlaceOf(Lines(raw), peer);
            var lines := PatchedLines(x, raw, peer, patch);
            && Holds(x, Place(p.before, lines, p.after), Patched(x, peer.view, patch), next)
            && OpenOk(x, Open(PeerSection, next))
            && OtherLines(lines, AskedKeys(x, patch)) == OtherLines(p.block, AskedKeys(x, patch))
            && AllLines(lines) && lines != []
            && (AllClosed(p.block) ==> AllClosed(lines))
  {
    var block, requests, nl := BlockNodes(raw, peer), Requests(x, patch).value, Newline(raw);
    RequestsSettable(x, patch);
    var after := PatchBlock(block, requests, nl);
    BlockHeader(x, raw, peer, body);
    BlockPatchable(x, raw, peer, patch);
    BlockIs(raw, peer);
    PatchedBody(block, requests, nl);
    PatchedView(x, block, after, patch, nl);
    PatchedOk(x, block, after, requests, nl);
    next := Said(after[1..]);
    SaidIsMeant(after);
    SaidFirst(after);
    PatchOthers(block, requests, nl, Keys(requests));
    OtherRaws(block, Keys(requests));
    OtherRaws(after, Keys(requests));
    PatchedLinesClosed(block, requests, nl);
  }

  lemma PatchedLinesClosed(block: seq<Node>, requests: seq<Request>, nl: string)
    requires Patchable(block, requests, nl)
    ensures AllTrue(PatchBlock(block, requests, nl)) ==> AllLines(Raws(PatchBlock(block, requests, nl)))
    ensures AllTrue(PatchBlock(block, requests, nl)) && AllClosed(Raws(block)) ==> AllClosed(Raws(PatchBlock(block, requests, nl)))
  {
    var after := PatchBlock(block, requests, nl);
    if AllTrue(after) {
      forall i | 0 <= i < |after| ensures IsLine(Raws(after)[i]) {
        assert True(after[i]);
      }
      if AllClosed(Raws(block)) {
        assert forall i :: 0 <= i < |block| ==> Raws(block)[i] == block[i].raw;
        PatchClosed(block, requests, nl);
      }
    }
  }

  /** An edited block in its place: the sums before and after the edit. */
  lemma SwapSum(x: Syntax, place: Place, view: PeerView, body: seq<Stmt>,
                lines: seq<string>, other: PeerView, next: seq<Stmt>) returns (k: nat)
    requires Holds(x, place, view, body) && Holds(x, Place(place.before, lines, place.after), other, next)
    requires Safe(x, Summary(x, Stmts(place.before + place.block + place.after)))
    requires OpenOk(x, Open(PeerSection, next)) && other.publicKey == view.publicKey
    ensures var old' := Summary(x, Stmts(place.before + place.block + place.after));
            var new' := Summary(x, Stmts(place.before + lines + place.after));
            && k < |old'.peers| && old'.peers[k] == view
            && new'.peers == old'.peers[k := other] && Safe(x, new')
  {
    SumAround(x, place, view, body);
    SumAround(x, Place(place.before, lines, place.after), other, next);
    SafeBlock(x, body);
    var a, c := Summary(x, Stmts(place.before)), Summary(x, Stmts(place.after));
    Around(a, view, c);
    Around(a, other, c);
    assert OpenSum(x, Open(PeerSection, next)) == OnePeer(other);
    SwapDistinct(a.peers, view, c.peers, other);
    k := |a.peers|;
    assert (a.peers + [view] + c.peers)[k] == view;
  }

  lemma SafePlace(x: Syntax, place: Place, view: PeerView, body: seq<Stmt>)
    requires Holds(x, place, view, body)
    requires Safe(x, Summary(x, Stmts(place.before + place.block + place.after)))
    ensures OpenSum(x, Open(PeerSection, body)) == OnePeer(view) && view.publicKey != ""
    ensures OpenOk(x, Open(PeerSection, body))
  {
    SumAround(x, place, view, body);
    SafeBlock(x, body);
  }

  /** Where the edit of a peer that is found takes place. */
  lemma Target(x: Syntax, raw: string, publicKey: string) returns (peer: Peer, body: seq<Stmt>)
    requires Safe(x, Meant(x, raw)) && Find(AnalysisOf(x, raw).peers, publicKey).Some?
    ensures peer == Find(AnalysisOf(x, raw).peers, publicKey).value && peer.view.publicKey == publicKey
    ensures peer.blockStart < peer.blockEnd <= |Lines(raw)|
    ensures var p := PlaceOf(Lines(raw), peer);
            Holds(x, p, peer.view, body) && p.before + p.block + p.after == Lines(raw)
    ensures OpenSum(x, Open(PeerSection, body)) == OnePeer(peer.view)
    ensures OpenOk(x, Open(PeerSection, body))
  {
    FindIs(AnalysisOf(x, raw).peers, publicKey);
    peer := Find(AnalysisOf(x, raw).peers, publicKey).value;
    body := Located(x, raw, peer);
    PlaceJoins(Lines(raw), peer);
    SafePlace(x, PlaceOf(Lines(raw), peer), peer.view, body);
  }

  lemma PatchTextIs(x: Syntax, raw: string, publicKey: string, patch: PeerPatch, next: string)
    requires PatchText(x, raw, publicKey, patch) == Ok(next)
    ensures Safe(x, Meant(x, raw)) && Find(AnalysisOf(x, raw).peers, publicKey).Some? && Requests(x, patch).Ok?
    ensures var peer := Find(AnalysisOf(x, raw).peers, publicKey).value;
            && peer.blockStart < peer.blockEnd <= |Lines(raw)|
            && next == Spliced(Lines(raw), peer, Concat(PatchedLines(x, raw, peer, patch)))
  {
    RefusalIsUnsafe(x, raw);
    FoundInside(x, raw, publicKey);
  }

  /** The peer's block ends with a line end. */
  predicate BlockEnds(x: Syntax, raw: string, publicKey: string) {
    var found := Find(AnalysisOf(x, raw).peers, publicKey);
    Closed(raw) || (found.Some? && found.value.blockEnd < |Lines(raw)|)
  }

  lemma PlaceClosed(raw: string, peer: Peer)
    requires peer.blockStart < peer.blockEnd <= |Lines(raw)|
    ensures var p := PlaceOf(Lines(raw), peer);
            && AllClosed(p.before) && WellSplit(p.block) && WellSplit(p.after)
            && (Closed(raw) || p.after != [] ==> AllClosed(p.block))
            && (Closed(raw) || p.after != [] ==> (Closed(raw) <==> AllClosed(p.after)))
  {
    ClosedLines(raw);
    LinesWellSplit(raw);
    SplitPlace(Lines(raw), peer);
    var p := PlaceOf(Lines(raw), peer);
    PlaceJoins(Lines(raw), peer);
    if Closed(raw) || p.after != [] {
      JoinThree(p.before, p.block, p.after);
    }
  }

  /** Three runs of lines, written one after the other and read again. */
  lemma ReadThree(a: seq<string>, b: seq<string>, c: seq<string>)
    requires AllClosed(a) && AllClosed(b) && WellSplit(c)
    ensures Lines(Concat(a) + Concat(b) + Concat(c)) == a + b + c
    ensures Closed(Concat(a) + Concat(b) + Concat(c)) <==> AllClosed(c)
  {
    JoinThree(a, b, c);
    ConcatThree(a, b, c);
    LinesJoin(a + b + c);
    ClosedLines(Concat(a) + Concat(b) + Concat(c));
  }

  lemma JoinThree(a: seq<string>, b: seq<string>, c: seq<string>)
    requires AllClosed(a) && AllClosed(b) && WellSplit(c)
    ensures WellSplit(a + b + c)
    ensures AllClosed(a + b + c) <==> AllClosed(c)
  {
    var all := a + b + c;
    assert forall i :: 0 <= i < |c| ==> all[|a| + |b| + i] == c[i];
    assert forall i :: 0 <= i < |b| ==> all[|a| + i] == b[i];
    assert forall i :: 0 <= i < |a| ==> all[i] == a[i];
  }

  predicate AssignedIn(lines: seq<string>, key: Key) {
    exists i :: 0 <= i < |lines| && StmtOf(lines[i]).Assign? && StmtOf(lines[i]).key == key
  }

  lemma HasKeyLines(block: seq<Node>, key: Key)
    requires AllTrue(block)
    ensures HasKey(block, key) <==> AssignedIn(Raws(block), key)
  {
    forall i | 0 <= i < |block|
      ensures Assigns(block[i], key) <==> StmtOf(Raws(block)[i]).Assign? && StmtOf(Raws(block)[i]).key == key
    {
      assert True(block[i]);
      StmtAssigns(block[i], key);
    }
  }

  lemma FrontSplit(a: seq<string>, block: seq<Node>)
    requires AllClosed(a) && AllTrue(block)
    ensures WellSplit(a + Raws(block)) <==> ClosedFront(block)
  {
    var raws := Raws(block);
    var all := a + raws;
    forall i | 0 <= i < |block| ensures IsLine(raws[i]) && all[|a| + i] == raws[i] {
      assert True(block[i]);
    }
    assert forall i :: 0 <= i < |a| ==> all[i] == a[i];
  }

  lemma PatchOne(block: seq<Node>, key: Key, value: string, nl: string)
    requires Settable(key)
    ensures PatchBlock(block, [Request(key, value)], nl) == Apply(block, key, value, nl)
  {
    assert [Request(key, value)][1..] == [];
  }

  /** A patch of one key, in the block found. */
  lemma OneKey(x: Syntax, raw: string, peer: Peer, patch: PeerPatch, key: Key, value: string)
    requires x.Lawful() && Unbroken(patch) && Requests(x, patch) == Ok([Request(key, value)])
    requires peer.blockStart < peer.blockEnd <= |Lines(raw)|
    ensures Settable(key) && Valued(value)
    ensures var block := BlockNodes(raw, peer);
            && PatchedLines(x, raw, peer, patch) == Raws(Apply(block, key, value, Newline(raw)))
            && AllTrue(block) && Spliceable(block, key) && block != []
            && Raws(block) == PlaceOf(Lines(raw), peer).block
            && (HasKey(block, key) <==> AssignedIn(PlaceOf(Lines(raw), peer).block, key))
  {
    var block := BlockNodes(raw, peer);
    RequestsSettable(x, patch);
    RequestsValued(x, patch);
    assert [Request(key, value)][0] == Request(key, value);
    BlockIs(raw, peer);
    PatchOne(block, key, value, Newline(raw));
    HasKeyLines(block, key);
  }

  lemma OpenBlock(raw: string, peer: Peer)
    requires peer.blockStart < peer.blockEnd == |Lines(raw)| && !Closed(raw)
    ensures var block := BlockNodes(raw, peer);
            && block != [] && ClosedFront(block) && !Closed(block[|block| - 1].raw)
            && AllClosed(PlaceOf(Lines(raw), peer).before)
  {
    hide True, ParseLine, BlockNodes;
    var block, place := BlockNodes(raw, peer), PlaceOf(Lines(raw), peer);
    BlockNodeIs(raw, peer, 0);
    forall i | 0 <= i < |block| ensures block[i].raw == place.block[i] {
      BlockNodeIs(raw, peer, i);
    }
    PlaceClosed(raw, peer);
    LastLine(raw);
  }

  /** A request removes the last line: it assigns the key, and either the key gets
      no value or another line before it gets the value. */
  ghost predicate LastRemoved(lines: seq<string>, requests: seq<Request>) {
    lines != [] && exists i :: 0 <= i < |requests| && RemovesLast(lines, requests[i])
  }

  predicate RemovesLast(lines: seq<string>, r: Request)
    requires lines != []
  {
    var n := |lines| - 1;
    AssignedIn([lines[n]], r.key) && (r.value == "" || AssignedIn(lines[..n], r.key))
  }

  /** A request adds a line: its key gets a value and had none. */
  ghost predicate LineAdded(lines: seq<string>, requests: seq<Request>) {
    exists i :: 0 <= i < |requests| && AddsLine(lines, requests[i])
  }

  predicate AddsLine(lines: seq<string>, r: Request) {
    r.value != "" && !AssignedIn(lines, r.key)
  }

  lemma RequestLines(block: seq<Node>, r: Request)
    requires AllTrue(block) && block != []
    ensures var n := |block| - 1;
            && (Removes(block[..n], block[n], r) <==> RemovesLast(Raws(block), r))
            && (Adds(block[..n], block[n], r) <==> AddsLine(Raws(block), r))
  {
    var n := |block| - 1;
    FrontAndLast(block);
    HasKeyLines(block, r.key);
    HasKeyLines(block[..n], r.key);
    HasKeyLines([block[n]], r.key);
    assert Raws(block[..n]) == Raws(block)[..n] && Raws([block[n]]) == [Raws(block)[n]];
    HasKeyAppend(block[..n], [block[n]], r.key);
    assert [block[n]][0] == block[n];
  }

  lemma RequestsLines(block: seq<Node>, requests: seq<Request>)
    requires AllTrue(block) && block != []
    ensures var n := |block| - 1;
            && (SomeRemoves(block[..n], block[n], requests) <==> LastRemoved(Raws(block), requests))
            && (SomeAdds(block[..n], block[n], requests) <==> LineAdded(Raws(block), requests))
  {
    forall i | 0 <= i < |requests|
      ensures var n := |block| - 1;
              && (Removes(block[..n], block[n], requests[i]) <==> RemovesLast(Raws(block), requests[i]))
              && (Adds(block[..n], block[n], requests[i]) <==> AddsLine(Raws(block), requests[i]))
    {
      RequestLines(block, requests[i]);
    }
  }

  lemma OpenBlockPatched(before: seq<string>, block: seq<Node>, requests: seq<Request>, nl: string)
    requires AllClosed(before) && Patchable(block, requests, nl)
    requires ClosedFront(block) && !Closed(block[|block| - 1].raw)
    ensures WellSplit(before + Raws(PatchBlock(block, requests, nl))) <==>
            LastRemoved(Raws(block), requests) || !LineAdded(Raws(block), requests)
  {
    var n := |block| - 1;
    var a, l := block[..n], block[n];
    FrontAndLast(block);
    assert a + [l] + [] == block;
    assert forall i :: 0 <= i < |a| ==> a[i] == block[i];
    OpenPatched(a, l, [], requests, nl);
    PatchOthers(block, requests, nl, Keys(requests));
    FrontSplit(before, PatchBlock(block, requests, nl));
    RequestsLines(block, requests);
  }

  lemma KeepsLines(x: Syntax, raw: string, peer: Peer, patch: PeerPatch)
    requires x.Lawful() && Unbroken(patch) && Requests(x, patch).Ok?
    requires peer.blockStart < peer.blockEnd <= |Lines(raw)| && HeadedBlock(raw, peer)
    requires AllClosed(PlaceOf(Lines(raw), peer).block) ==> AllClosed(PatchedLines(x, raw, peer, patch))
    ensures var place := PlaceOf(Lines(raw), peer);
            var block := PatchedLines(x, raw, peer, patch);
            Lines(Concat(place.before) + Concat(block) + Concat(place.after)) == place.before + block + place.after <==>
            || Closed(raw) || peer.blockEnd < |Lines(raw)|
            || LastRemoved(place.block, Requests(x, patch).value) || !LineAdded(place.block, Requests(x, patch).value)
  {
    var place, block := PlaceOf(Lines(raw), peer), PatchedLines(x, raw, peer, patch);
    PlaceClosed(raw, peer);
    if Closed(raw) || peer.blockEnd < |Lines(raw)| {
      ReadThree(place.before, block, place.after);
    } else {
      NoneAfter(place, block);
      OpenBlock(raw, peer);
      BlockIs(raw, peer);
      BlockPatchable(x, raw, peer, patch);
      OpenBlockPatched(place.before, BlockNodes(raw, peer), Requests(x, patch).value, Newline(raw));
    }
  }

  /** The lines of a patched block stay apart in the text: the block ends with a
      line end, or the patch takes its last line away, or it adds no line. */
  ghost predicate StaysApart(x: Syntax, raw: string, publicKey: string, patch: PeerPatch) {
    var found := Find(AnalysisOf(x, raw).peers, publicKey);
    BlockEnds(x, raw, publicKey) || (
      && found.Some? && found.value.blockStart <= found.value.blockEnd <= |Lines(raw)| && Requests(x, patch).Ok?
      && var lines := PlaceOf(Lines(raw), found.value).block;
         LastRemoved(lines, Requests(x, patch).value) || !LineAdded(lines, Requests(x, patch).value))
  }

  /** What a successful patch puts together: the place of the block, its new lines
      and what they mean. */
  lemma PatchParts(x: Syntax, raw: string, publicKey: string, patch: PeerPatch, next: string)
    returns (peer: Peer, body: seq<Stmt>, block: seq<string>, after: seq<Stmt>)
    requires x.Lawful() && Unbroken(patch) && PatchText(x, raw, publicKey, patch) == Ok(next)
    ensures Safe(x, Meant(x, raw)) && Requests(x, patch).Ok?
    ensures Find(AnalysisOf(x, raw).peers, publicKey) == Some(peer) && peer.view.publicKey == publicKey
    ensures peer.blockStart < peer.blockEnd <= |Lines(raw)| && block == PatchedLines(x, raw, peer, patch)
    ensures var p := PlaceOf(Lines(raw), peer);
            && p.before + p.block + p.after == Lines(raw)
            && Holds(x, p, peer.view, body) && OpenOk(x, Open(PeerSection, body))
            && Holds(x, Place(p.before, block, p.after), Patched(x, peer.view, patch), after)
            && OpenOk(x, Open(PeerSection, after))
            && next == Concat(p.before) + Concat(block) + Concat(p.after)
            && OtherLines(block, AskedKeys(x, patch)) == OtherLines(p.block, AskedKeys(x, patch))
    ensures AllClosed(PlaceOf(Lines(raw), peer).block) ==> AllClosed(block)
    ensures HeadedBlock(raw, peer)
  {
    PatchTextIs(x, raw, publicKey, patch, next);
    peer, body := Target(x, raw, publicKey);
    block := PatchedLines(x, raw, peer, patch);
    after := PatchedLinesMean(x, raw, peer, body, patch);
    BlockHeader(x, raw, peer, body);
  }

  /** The exact condition, for every patch, under which every later reading sees
      the lines the editor put together. */
  lemma PatchKeepsLines(x: Syntax, raw: string, publicKey: string, patch: PeerPatch, next: string)
    returns (peer: Peer, place: Place, block: seq<string>)
    requires x.Lawful() && Unbroken(patch) && PatchText(x, raw, publicKey, patch) == Ok(next)
    ensures Find(AnalysisOf(x, raw).peers, publicKey) == Some(peer) && peer.blockStart < peer.blockEnd <= |Lines(raw)|
    ensures place == PlaceOf(Lines(raw), peer) && Requests(x, patch).Ok? && block == PatchedLines(x, raw, peer, patch)
    ensures Lines(raw) == place.before + place.block + place.after
    ensures next == Concat(place.before) + Concat(block) + Concat(place.after)
    ensures OtherLines(block, AskedKeys(x, patch)) == OtherLines(place.block, AskedKeys(x, patch))
    ensures Lines(next) == place.before + block + place.after <==> StaysApart(x, raw, publicKey, patch)
  {
    hide PatchText, PatchedLines, Meant, Safe, AnalysisOf, Find, Requests, Holds, OpenOk, OtherLines, Patched, Unbroken;
    var body, after;
    peer, body, block, after := PatchParts(x, raw, publicKey, patch, next);
    place := PlaceOf(Lines(raw), peer);
    KeepsLines(x, raw, peer, patch);
  }

  /** Patching a peer changes the requested fields of that peer and nothing else,
      wherever the lines stay apart.  The lines of the text before and after the
      block stay as they are, in the block every line that assigns no requested key
      stays, in its order, and read again the text has the same peers but for the
      requested fields. */
  lemma PatchPeerEffect(x: Syntax, raw: string, publicKey: string, patch: PeerPatch, next: string)
    returns (peer: Peer, place: Place, block: seq<string>, k: nat)
    requires x.Lawful() && Unbroken(patch) && PatchText(x, raw, publicKey, patch) == Ok(next)
    requires StaysApart(x, raw, publicKey, patch)
    ensures Find(AnalysisOf(x, raw).peers, publicKey) == Some(peer) && peer.blockStart < peer.blockEnd <= |Lines(raw)|
    ensures place == PlaceOf(Lines(raw), peer) && Requests(x, patch).Ok? && block == PatchedLines(x, raw, peer, patch)
    ensures Lines(raw) == place.before + place.block + place.after
    ensures Lines(next) == place.before + block + place.after
    ensures OtherLines(block, AskedKeys(x, patch)) == OtherLines(place.block, AskedKeys(x, patch))
    ensures k < |Meant(x, raw).peers| && Meant(x, raw).peers[k].publicKey == publicKey
    ensures patch.allowedIPs.Some? ==> Canonicals(x, patch.allowedIPs.value).Some?
    ensures Meant(x, next).peers == Meant(x, raw).peers[k := Patched(x, Meant(x, raw).peers[k], patch)]
    ensures Safe(x, Meant(x, next)) && (BlockEnds(x, raw, publicKey) ==> Closed(next) == Closed(raw))
  {
    var body, after;
    peer, body, block, after := PatchParts(x, raw, publicKey, patch, next);
    place := PlaceOf(Lines(raw), peer);
    KeepsLines(x, raw, peer, patch);
    k := SwapSum(x, place, peer.view, body, block, Patched(x, peer.view, patch), after);
    PlaceClosed(raw, peer);
    if BlockEnds(x, raw, publicKey) {
      ReadThree(place.before, block, place.after);
    }
  }

  lemma NoneAfter(place: Place, block: seq<string>)
    requires place.after == []
    ensures Lines(Concat(place.before) + Concat(block) + Concat(place.after)) == place.before + block + place.after <==>
            WellSplit(place.before + block)
  {
    ConcatThree(place.before, block, place.after);
    assert place.before + block + [] == place.before + block;
    LinesConcat(place.before + block);
  }

  /** What is behind a comment on its line is part of the comment. */
  lemma CommentGoesOn(line: string, more: string)
    requires StmtOf(line) == Comment
    ensures StmtOf(line + more) == Comment
  {
    var t := Trim(line);
    var a, b := TrimSplit(line);
    var rest := t + b + more;
    assert line + more == a + rest + "";
    TrimPad(a, rest, "");
    TrimFirst(rest);
  }

  lemma AppendedText(x: Syntax, raw: string, peer: Peer, patch: PeerPatch, key: Key, value: string)
    requires x.Lawful() && Unbroken(patch) && Requests(x, patch) == Ok([Request(key, value)]) && value != ""
    requires peer.blockStart < peer.blockEnd == |Lines(raw)|
    requires !AssignedIn(PlaceOf(Lines(raw), peer).block, key)
    ensures Settable(key) && Writable(value)
    ensures Spliced(Lines(raw), peer, Concat(PatchedLines(x, raw, peer, patch))) ==
            raw + FreshNode(key, value, Newline(raw)).raw
  {
    hide Requests, Unbroken, Newline, True;
    OneKey(x, raw, peer, patch, key, value);
    var place, made := PlaceOf(Lines(raw), peer), FreshNode(key, value, Newline(raw)).raw;
    assert PatchedLines(x, raw, peer, patch) == place.block + [made];
    AppendedPlace(place, made);
    PlaceJoins(Lines(raw), peer);
    ConcatLines(raw);
  }

  lemma AppendedPlace(place: Place, made: string)
    requires place.after == []
    ensures Concat(place.before) + Concat(place.block + [made]) + Concat(place.after) ==
            Concat(place.before + place.block + place.after) + made
  {
    ConcatAppend(place.block, [made]);
    ConcatOne(made);
    ConcatThree(place.before, place.block, place.after);
    assert Concat(place.before) + (Concat(place.block) + made) + "" == (Concat(place.before) + Concat(place.block) + "") + made;
  }

  /** So the condition is needed: on any text that ends in an unterminated
      comment in the peer's block, setting a key the block does not have yet
      succeeds and changes nothing that the text means. */
  lemma PatchLost(x: Syntax, raw: string, publicKey: string, patch: PeerPatch, next: string, key: Key, value: string)
    requires x.Lawful() && Unbroken(patch) && Requests(x, patch) == Ok([Request(key, value)]) && value != ""
    requires PatchText(x, raw, publicKey, patch) == Ok(next)
    requires !BlockEnds(x, raw, publicKey) && Lines(raw) != [] && StmtOf(Lines(raw)[|Lines(raw)| - 1]) == Comment
    requires var peer := Find(AnalysisOf(x, raw).peers, publicKey).value;
             peer.blockStart <= peer.blockEnd <= |Lines(raw)| &&
             !AssignedIn(PlaceOf(Lines(raw), peer).block, key)
    ensures Meant(x, next) == Meant(x, raw)
  {
    PatchTextIs(x, raw, publicKey, patch, next);
    var peer := Find(AnalysisOf(x, raw).peers, publicKey).value;
    AppendedText(x, raw, peer, patch, key, value);
    var made := FreshNode(key, value, Newline(raw)).raw;
    FreshNodeTrue(key, value, Newline(raw));
    LastLineGrows(raw, made);
    CommentGoesOn(Lines(raw)[|Lines(raw)| - 1], made);
    SameButLast(Lines(raw), made);
  }

  lemma SameButLast(lines: seq<string>, more: string)
    requires lines != [] && StmtOf(lines[|lines| - 1] + more) == StmtOf(lines[|lines| - 1])
    ensures Stmts(lines[..|lines| - 1] + [lines[|lines| - 1] + more]) == Stmts(lines)
  {
    var n := |lines| - 1;
    StmtsAppend(lines[..n], [lines[n] + more]);
    StmtsAppend(lines[..n], [lines[n]]);
    FrontAndLast(lines);
    assert Stmts([lines[n] + more]) == Stmts([lines[n]]);
  }

  lemma ConcatLast(front: seq<string>, last: string, more: string)
    ensures Concat(front + [last + more]) == Concat(front + [last]) + more
  {
    ConcatAppend(front, [last]);
    ConcatOne(last);
    ConcatAppend(front, [last + more]);
    ConcatOne(last + more);
    Associate(Concat(front), last, more);
  }

  lemma OpenLast(raw: string)
    requires !Closed(raw)
    ensures Lines(raw) != [] && AllClosed(Lines(raw)[..|Lines(raw)| - 1])
    ensures var last := Lines(raw)[|Lines(raw)| - 1]; IsLine(last) && !Closed(last)
    ensures Lines(raw) == Lines(raw)[..|Lines(raw)| - 1] + [Lines(raw)[|Lines(raw)| - 1]]
  {
    LastLine(raw);
    LinesWellSplit(raw);
    FrontAndLast(Lines(raw));
  }

  lemma LineGrows(line: string, more: string)
    requires IsLine(line) && !Closed(line) && IsLine(more)
    ensures IsLine(line + more)
  {
  }

  /** What is added behind an open last line, up to its line end, joins it. */
  lemma LastLineGrows(raw: string, more: string)
    requires !Closed(raw) && IsLine(more)
    ensures Lines(raw) != []
    ensures var n := |Lines(raw)| - 1;
            Lines(raw + more) == Lines(raw)[..n] + [Lines(raw)[n] + more]
  {
    OpenLast(raw);
    ConcatLines(raw);
    var n := |Lines(raw)| - 1;
    var front, last := Lines(raw)[..n], Lines(raw)[n];
    ConcatLast(front, last, more);
    LineGrows(last, more);
    JoinSplit(front, [last + more]);
    LinesJoin(front + [last + more]);
  }
}
