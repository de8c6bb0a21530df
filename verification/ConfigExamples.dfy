/** Documents on which an edit goes wrong. */
module ConfigExamples {
  // Each lemma gives an input on which the source's edit succeeds or is refused
  // against expectation; the exact conditions are in ConfigOpenPatch.dfy and
  // ConfigPeers.dfy.

  import opened Text
  import opened ConfigSyntax
  import opened ConfigMeaning
  import opened ConfigAnalysis
  import opened ConfigPatch
  import opened ConfigDocument
  import opened ConfigPeers
  import opened ManagedConfig

  // ---- A document with one peer ----

  /** A key as the program makes them: valid, with no white space around it and no
      line break, and short (real keys have 44 characters). */
  ghost predicate UsableKey(x: Syntax, key: string) {
    x.Lawful() && x.validKey(key) && key != "" && Tight(key) && NoBreak(key) && |key| <= 1000
  }

  function KeyLine(name: string, key: string): string {
    name + " = " + key + "\n"
  }

  function Head(key: string, middle: seq<string>): seq<string> {
    ["[Interface]\n", KeyLine("PrivateKey", key)] + middle
  }

  function Tail(key: string, end: seq<string>): seq<string> {
    ["[Peer]\n", KeyLine("PublicKey", key)] + end
  }

  predicate Comments(lines: seq<string>) {
    forall i :: 0 <= i < |lines| ==> IsLine(lines[i]) && StmtOf(lines[i]) == Comment
  }

  function OnlyPeer(key: string): PeerView {
    PeerView(key, false, [], "", 0)
  }

  lemma {:induction false} SilentComments(s: seq<Stmt>, key: Key)
    requires forall i :: 0 <= i < |s| ==> s[i] == Comment
    ensures Values(s, key) == []
  {
    if s != [] {
      SilentComments(s[..|s| - 1], key);
    }
  }

  lemma OneAssignment(t: Stmt, rest: seq<Stmt>, key: Key)
    requires t.Assign? && forall i :: 0 <= i < |rest| ==> rest[i] == Comment
    ensures Values([t] + rest, key) == if t.key == key then [t.value] else []
  {
    ValuesAppend([t], rest, key);
    SilentComments(rest, key);
    assert [t][..0] == [];
  }

  lemma PrivateKeyLine(x: Syntax, key: string)
    requires UsableKey(x, key)
    ensures var line := KeyLine("PrivateKey", key);
            StmtOf(line) == Assign(PrivateKey, key) && IsLine(line) && Closed(line)
  {
    InterfaceNames();
    AnyLine("PrivateKey", key, "\n");
    AnyLineEnds("PrivateKey", key, "\n");
    TrimTight(key);
  }

  lemma PublicKeyLine(x: Syntax, key: string)
    requires UsableKey(x, key)
    ensures var line := KeyLine("PublicKey", key);
            StmtOf(line) == Assign(PublicKey, key) && IsLine(line) && Closed(line)
  {
    PeerNames();
    AnyLine("PublicKey", key, "\n");
    AnyLineEnds("PublicKey", key, "\n");
    TrimTight(key);
  }

  lemma PeerLine()
    ensures StmtOf("[Peer]\n") == Header(PeerSection) && IsLine("[Peer]\n") && Closed("[Peer]\n")
  {
    PeerHeaderLine("\n");
    assert "[Peer]" + "\n" == "[Peer]\n";
  }

  lemma TwoLines(first: string, second: string, rest: seq<string>)
    ensures Stmts([first, second] + rest) == [StmtOf(first)] + ([StmtOf(second)] + Stmts(rest))
  {
    hide StmtOf;
    StmtsAppend([first, second], rest);
    assert Stmts([first, second]) == [StmtOf(first), StmtOf(second)];
    PairThen(StmtOf(first), StmtOf(second), Stmts(rest));
  }

  lemma HeadSaid(x: Syntax, key: string, middle: seq<string>)
    requires UsableKey(x, key)
    ensures Stmts(Head(key, middle)) == [Header(InterfaceSection)] + ([Assign(PrivateKey, key)] + Stmts(middle))
  {
    hide StmtOf;
    InterfaceHeaderLine();
    PrivateKeyLine(x, key);
    TwoLines("[Interface]\n", KeyLine("PrivateKey", key), middle);
  }

  lemma TailSaid(x: Syntax, key: string, end: seq<string>)
    requires UsableKey(x, key)
    ensures Stmts(Tail(key, end)) == [Header(PeerSection)] + ([Assign(PublicKey, key)] + Stmts(end))
  {
    hide StmtOf;
    PeerLine();
    PublicKeyLine(x, key);
    TwoLines("[Peer]\n", KeyLine("PublicKey", key), end);
  }

  lemma CommentsSaid(lines: seq<string>)
    requires Comments(lines)
    ensures forall i :: 0 <= i < |Stmts(lines)| ==> Stmts(lines)[i] == Comment
  {
    hide StmtOf;
  }

  lemma HeadMeans(x: Syntax, key: string, middle: seq<string>)
    requires UsableKey(x, key) && Comments(middle)
    ensures Summary(x, Stmts(Head(key, middle))) == Sum(1, [key], true, [])
  {
    hide StmtOf, Summary, Values;
    var body := [Assign(PrivateKey, key)] + Stmts(middle);
    HeadSaid(x, key, middle);
    CommentsSaid(middle);
    BlockSummary(x, InterfaceSection, body);
    OneAssignment(Assign(PrivateKey, key), Stmts(middle), PrivateKey);
  }

  lemma TailMeans(x: Syntax, key: string, end: seq<string>)
    requires UsableKey(x, key) && Comments(end)
    ensures Summary(x, Stmts(Tail(key, end))) == OnePeer(OnlyPeer(key))
    ensures StartsBlock(Stmts(Tail(key, end)))
  {
    hide StmtOf, Summary, Values, OpenSum, OnePeer;
    var body := [Assign(PublicKey, key)] + Stmts(end);
    TailSaid(x, key, end);
    CommentsSaid(end);
    BlockSummary(x, PeerSection, body);
    OneAssignment(Assign(PublicKey, key), Stmts(end), PublicKey);
    OneAssignment(Assign(PublicKey, key), Stmts(end), PresharedKey);
    OneAssignment(Assign(PublicKey, key), Stmts(end), AllowedIPs);
    OneAssignment(Assign(PublicKey, key), Stmts(end), Endpoint);
    OneAssignment(Assign(PublicKey, key), Stmts(end), PersistentKeepalive);
    BlockIsOnly(x, key, body);
  }

  lemma BlockIsOnly(x: Syntax, key: string, body: seq<Stmt>)
    requires UsableKey(x, key) && Values(body, PublicKey) == [key] && NoRaw(body)
    requires Values(body, PresharedKey) == Values(body, AllowedIPs) == Values(body, Endpoint) == []
    requires Values(body, PersistentKeepalive) == []
    ensures OpenSum(x, Open(PeerSection, body)) == OnePeer(OnlyPeer(key))
  {
    hide Values;
    assert PeerKey(x, [key]) == key;
  }

  /** The document: an interface, comments, the peer, comments. */
  lemma DocumentMeans(x: Syntax, key: string, middle: seq<string>, end: seq<string>)
    requires UsableKey(x, key) && Comments(middle) && Comments(end) && (forall i :: 0 <= i < |middle| ==> Closed(middle[i]))
    requires forall i :: 0 <= i < |end| - 1 ==> Closed(end[i])
    ensures var lines := Head(key, middle) + Tail(key, end);
            && Lines(Concat(lines)) == lines
            && Meant(x, Concat(lines)) == Sum(1, [key], true, [OnlyPeer(key)])
            && Safe(x, Meant(x, Concat(lines)))
  {
    hide StmtOf, Summary, Values;
    HeadMeans(x, key, middle);
    TailMeans(x, key, end);
    DocumentLines(x, key, middle, end);
    StmtsAppend(Head(key, middle), Tail(key, end));
    SummaryAppend(x, Stmts(Head(key, middle)), Stmts(Tail(key, end)));
    assert [key] + [] == [key];
  }

  lemma DocumentLines(x: Syntax, key: string, middle: seq<string>, end: seq<string>)
    requires UsableKey(x, key) && Comments(middle) && Comments(end) && (forall i :: 0 <= i < |middle| ==> Closed(middle[i]))
    requires forall i :: 0 <= i < |end| - 1 ==> Closed(end[i])
    ensures Lines(Concat(Head(key, middle) + Tail(key, end))) == Head(key, middle) + Tail(key, end)
  {
    hide StmtOf;
    InterfaceHeaderLine();
    PrivateKeyLine(x, key);
    PeerLine();
    PublicKeyLine(x, key);
    assert AllClosed(Head(key, middle));
    assert WellSplit(Tail(key, end));
    JoinSplit(Head(key, middle), Tail(key, end));
    LinesJoin(Head(key, middle) + Tail(key, end));
  }

  /** Where the peer is found. */
  lemma OnlyPeerFound(x: Syntax, key: string, middle: seq<string>, end: seq<string>) returns (peer: Peer)
    requires UsableKey(x, key) && Comments(middle) && Comments(end) && (forall i :: 0 <= i < |middle| ==> Closed(middle[i]))
    requires forall i :: 0 <= i < |end| - 1 ==> Closed(end[i])
    ensures var raw := Concat(Head(key, middle) + Tail(key, end));
            && Lines(raw) == Head(key, middle) + Tail(key, end)
            && Find(AnalysisOf(x, raw).peers, key) == Some(peer)
            && peer.blockStart == |Head(key, middle)| && peer.blockEnd == |Head(key, middle) + Tail(key, end)|
            && PlaceOf(Lines(raw), peer) == Place(Head(key, middle), Tail(key, end), [])
  {
    var raw := Concat(Head(key, middle) + Tail(key, end));
    DocumentMeans(x, key, middle, end);
    RefusalIsUnsafe(x, raw);
    FindIs(AnalysisOf(x, raw).peers, key);
    assert Meant(x, raw).peers[0].publicKey == key;
    peer := Find(AnalysisOf(x, raw).peers, key).value;
    var body := Located(x, raw, peer);
    OnlyPlace(x, key, middle, end, PlaceOf(Lines(raw), peer), body, peer);
  }

  lemma OnlyPlace(x: Syntax, key: string, middle: seq<string>, end: seq<string>, place: Place, body: seq<Stmt>, peer: Peer)
    requires UsableKey(x, key) && Comments(middle) && Comments(end) && peer.blockStart < peer.blockEnd <= |Head(key, middle) + Tail(key, end)|
    requires place == PlaceOf(Head(key, middle) + Tail(key, end), peer)
    requires Stmts(place.block) == [Header(PeerSection)] + body && StartsBlock(Stmts(place.after))
    ensures peer.blockStart == |Head(key, middle)| && peer.blockEnd == |Head(key, middle) + Tail(key, end)|
    ensures place == Place(Head(key, middle), Tail(key, end), [])
  {
    hide StmtOf;
    var all, n := Head(key, middle) + Tail(key, end), |Head(key, middle)|;
    OneHeader(x, key, middle, end);
    assert Stmts(all)[peer.blockStart] == Stmts(place.block)[0] == Header(PeerSection);
    NoLaterHeader(x, key, middle, end, peer.blockEnd);
    assert all[n..] == Tail(key, end) && all[..n] == Head(key, middle);
  }

  lemma NoLaterHeader(x: Syntax, key: string, middle: seq<string>, end: seq<string>, k: nat)
    requires UsableKey(x, key) && Comments(middle) && Comments(end) && k <= |Head(key, middle) + Tail(key, end)|
    ensures k > |Head(key, middle)| && StartsBlock(Stmts((Head(key, middle) + Tail(key, end))[k..])) ==> k == |Head(key, middle) + Tail(key, end)|
  {
    hide StmtOf;
    var all := Head(key, middle) + Tail(key, end);
    OneHeader(x, key, middle, end);
    if k < |all| {
      FirstAndRest(all[k..]);
      assert Stmts(all[k..])[0] == Stmts(all)[k];
    }
  }

  lemma OneHeader(x: Syntax, key: string, middle: seq<string>, end: seq<string>)
    requires UsableKey(x, key) && Comments(middle) && Comments(end)
    ensures var all := Head(key, middle) + Tail(key, end);
            forall i :: 0 < i < |all| && Stmts(all)[i].Header? ==> i == |Head(key, middle)|
    ensures Stmts(Head(key, middle) + Tail(key, end))[0] == Header(InterfaceSection)
  {
    hide StmtOf;
    var all, n := Head(key, middle) + Tail(key, end), |Head(key, middle)|;
    HeadSaid(x, key, middle);
    TailSaid(x, key, end);
    CommentsSaid(middle);
    CommentsSaid(end);
    StmtsAppend(Head(key, middle), Tail(key, end));
    forall i | 0 < i < |all| ensures Stmts(all)[i].Header? ==> i == n {
      assert Stmts(all)[i] == if i < n then Stmts(Head(key, middle))[i] else Stmts(Tail(key, end))[i - n];
    }
  }

  // ---- A patch that is lost ----

  lemma CommentLine(text: string)
    requires NoBreak(text)
    ensures StmtOf("#" + text) == Comment && IsLine("#" + text) && !Closed("#" + text)
    ensures StmtOf("#" + text + "\n") == Comment && IsLine("#" + text + "\n") && Closed("#" + text + "\n")
  {
    TrimFirst("#" + text);
    TrimFirst("#" + text + "\n");
  }

  lemma {:induction false} BytesBound(s: string)
    ensures |s| <= Bytes(s) <= 4 * |s|
  {
    if s != "" {
      BytesBound(s[1..]);
    }
  }

  function EndpointPatch(): PeerPatch {
    PeerPatch(None, Some("h"), None, None)
  }

  lemma EndpointRequest(x: Syntax)
    ensures Unbroken(EndpointPatch()) && Requests(x, EndpointPatch()) == Ok([Request(Endpoint, "h")])
  {
    TrimTight("h");
    assert [] + [Request(Endpoint, "h")] + [] + [] == [Request(Endpoint, "h")];
  }

  lemma NoEndpointLine(x: Syntax, key: string, end: seq<string>)
    requires UsableKey(x, key) && Comments(end)
    ensures !AssignedIn(Tail(key, end), Endpoint)
  {
    hide StmtOf;
    TailSaid(x, key, end);
    CommentsSaid(end);
    forall i | 0 <= i < |Tail(key, end)| ensures !(StmtOf(Tail(key, end)[i]).Assign? && StmtOf(Tail(key, end)[i]).key == Endpoint) {
      assert Stmts(Tail(key, end))[i] == StmtOf(Tail(key, end)[i]);
    }
  }

  lemma DocumentLength(key: string, middle: seq<string>, end: seq<string>)
    ensures |Concat(Head(key, middle) + Tail(key, end))| == 46 + 2 * |key| + |Concat(middle)| + |Concat(end)|
  {
    ConcatAppend(Head(key, middle), Tail(key, end));
    ConcatAppend(["[Interface]\n", KeyLine("PrivateKey", key)], middle);
    ConcatAppend(["[Peer]\n", KeyLine("PublicKey", key)], end);
    PairLength("[Interface]\n", KeyLine("PrivateKey", key));
    PairLength("[Peer]\n", KeyLine("PublicKey", key));
  }

  lemma PairLength(a: string, b: string)
    ensures |Concat([a, b])| == |a| + |b|
  {
    assert [a, b] == [a] + [b];
    ConcatAppend([a], [b]);
    ConcatOne(a);
    ConcatOne(b);
  }

  lemma PatchedEndpoint(x: Syntax, key: string)
    ensures Patched(x, OnlyPeer(key), EndpointPatch()).endpoint == "h"
  {
    TrimTight("h");
  }

  lemma NotEnded(x: Syntax, raw: string, key: string, peer: Peer)
    requires Find(AnalysisOf(x, raw).peers, key) == Some(peer) && !Closed(raw) && peer.blockEnd == |Lines(raw)|
    ensures !BlockEnds(x, raw, key)
  {
  }

  /** For every key: a peer whose block ends in an open comment.  Setting its
      endpoint succeeds and the endpoint is not set. */
  lemma LostEndpoint(x: Syntax, key: string) returns (raw: string, patch: PeerPatch, next: string)
    requires UsableKey(x, key)
    ensures Safe(x, Meant(x, raw)) && Meant(x, raw).peers == [OnlyPeer(key)] && Unbroken(patch)
    ensures PatchText(x, raw, key, patch) == Ok(next) && Patched(x, OnlyPeer(key), patch).endpoint == "h"
    ensures Meant(x, next) == Meant(x, raw)
  {
    patch := EndpointPatch();
    var end := ["#"];
    raw := Concat(Head(key, []) + Tail(key, end));
    HashComment();
    var peer := LostPlace(x, key, raw, end);
    next := LostText(x, raw, key, patch, peer, end);
    LostMeaning(x, raw, key, patch, next, peer, end);
  }

  lemma HashComment()
    ensures Comments(["#"]) && Comments([]) && |Concat(["#"])| == 1 && |Concat([])| == 0
  {
    CommentLine("");
    assert "#" + "" == "#";
    ConcatOne("#");
  }

  lemma LostPlace(x: Syntax, key: string, raw: string, end: seq<string>) returns (peer: Peer)
    requires UsableKey(x, key) && end == ["#"] && Comments(end) && Comments([]) && |Concat(end)| == 1 && |Concat([])| == 0
    requires raw == Concat(Head(key, []) + Tail(key, end))
    ensures Lines(raw) == Head(key, []) + Tail(key, end) && |raw| < 10_000 && !Closed(raw)
    ensures x.Lawful() && Safe(x, Meant(x, raw))
    ensures Meant(x, raw).peers == [OnlyPeer(key)]
    ensures Find(AnalysisOf(x, raw).peers, key) == Some(peer)
    ensures peer.blockStart < peer.blockEnd == |Lines(raw)| && PlaceOf(Lines(raw), peer).block == Tail(key, end)
    ensures !BlockEnds(x, raw, key) && !AssignedIn(Tail(key, end), Endpoint)
    ensures Unbroken(EndpointPatch()) && Requests(x, EndpointPatch()) == Ok([Request(Endpoint, "h")])
  {
    hide StmtOf, Meant, Safe, AnalysisOf, Find, Requests, Unbroken, AssignedIn, BlockEnds;
    DocumentMeans(x, key, [], end);
    DocumentLength(key, [], end);
    peer := OnlyPeerFound(x, key, [], end);
    LostOpen(key, raw, end);
    NotEnded(x, raw, key, peer);
    EndpointRequest(x);
    NoEndpointLine(x, key, end);
  }

  lemma LostMeaning(x: Syntax, raw: string, key: string, patch: PeerPatch, next: string, peer: Peer, end: seq<string>)
    requires patch == EndpointPatch() && end == ["#"] && Comments(end)
    requires x.Lawful() && Unbroken(patch) && Requests(x, patch) == Ok([Request(Endpoint, "h")])
    requires PatchText(x, raw, key, patch) == Ok(next) && !BlockEnds(x, raw, key)
    requires Lines(raw) == Head(key, []) + Tail(key, end) && Find(AnalysisOf(x, raw).peers, key) == Some(peer)
    requires peer.blockStart <= peer.blockEnd <= |Lines(raw)| && !AssignedIn(PlaceOf(Lines(raw), peer).block, Endpoint)
    ensures Meant(x, next) == Meant(x, raw) && Patched(x, OnlyPeer(key), patch).endpoint == "h"
  {
    hide PatchText, Meant, AnalysisOf, Requests, Unbroken, BlockEnds, Patched, Find, EndpointPatch;
    assert Lines(raw)[|Lines(raw)| - 1] == end[0];
    PatchLost(x, raw, key, patch, next, Endpoint, "h");
    PatchedEndpoint(x, key);
  }

  lemma LostOpen(key: string, raw: string, end: seq<string>)
    requires Lines(raw) == Head(key, []) + Tail(key, end) && end == ["#"]
    ensures !Closed(raw) && Lines(raw)[|Lines(raw)| - 1] == "#"
  {
    assert Lines(raw)[|Lines(raw)| - 1] == "#";
    ConcatLines(raw);
    if raw != "" {
      LastLine(raw);
    }
  }

  lemma LostText(x: Syntax, raw: string, key: string, patch: PeerPatch, peer: Peer, end: seq<string>) returns (next: string)
    requires x.Lawful() && Unbroken(patch) && Requests(x, patch) == Ok([Request(Endpoint, "h")]) && |raw| < 10_000
    requires Safe(x, Meant(x, raw)) && Find(AnalysisOf(x, raw).peers, key) == Some(peer)
    requires peer.blockStart < peer.blockEnd == |Lines(raw)| && !AssignedIn(PlaceOf(Lines(raw), peer).block, Endpoint)
    ensures PatchText(x, raw, key, patch) == Ok(next)
  {
    hide Safe, Meant, AnalysisOf, Unbroken, AssignedIn;
    RefusalIsUnsafe(x, raw);
    AppendedText(x, raw, peer, patch, Endpoint, "h");
    next := raw + FreshNode(Endpoint, "h", Newline(raw)).raw;
    BytesBound(next);
  }

  // ---- A padded copy of a peer ----

  lemma {:induction false} KeyIsValid(x: Syntax, values: seq<string>)
    ensures PeerKey(x, values) == "" || x.validKey(PeerKey(x, values))
  {
    if values != [] {
      KeyIsValid(x, values[..|values| - 1]);
    }
  }

  lemma ListedIsValid(x: Syntax, raw: string, k: nat)
    requires k < |Meant(x, raw).peers|
    ensures var key := Meant(x, raw).peers[k].publicKey; key == "" || x.validKey(key)
  {
    RefusalIsUnsafe(x, raw);
    var peer := AnalysisOf(x, raw).peers[k];
    var body := Located(x, raw, peer);
    KeyIsValid(x, Values(body, PublicKey));
  }

  /** The peer with the key of another one behind a blank. */
  function PaddedCopy(key: string, allowed: seq<string>): NewPeer {
    NewPeer(" " + key, "", allowed, "", 0)
  }

  lemma PaddedKey(key: string)
    requires Tight(key) && NoBreak(key)
    ensures Trim(" " + key) == key && ' ' in " " + key && NoBreak(" " + key)
  {
    assert " " + key + "" == " " + key && (" " + key)[0] == ' ';
    TrimPad(" ", key, "");
    TrimTight(key);
  }

  /** On every safe document, for every listed key and every list of prefixes that
      fits: the padded copy is added, and the document is refused from then on. */
  lemma PaddedCopyAccepted(x: Syntax, raw: string, key: string, allowed: seq<string>, next: string)
    requires x.Lawful() && Safe(x, Meant(x, raw)) && Listed(Meant(x, raw).peers, key) && Tight(key) && NoBreak(key)
    requires Canonicals(x, allowed).Some? && Canonicals(x, allowed).value != [] && x.validKey(key)
    requires next == Separated(raw, Newline(raw))
                     + Concat(NewLines(PaddedCopy(key, allowed), Canonicals(x, allowed).value, Newline(raw)))
    requires Bytes(next) <= MAX_BYTES
    ensures AddText(x, raw, PaddedCopy(key, allowed)) == Ok(next)
    ensures Refusal(AnalysisOf(x, next)).Some?
  {
    PaddedKey(key);
    NotListed(x, raw, " " + key);
    PaddedText(x, raw, key, allowed, next);
    PaddedUnsafe(x, raw, key, allowed, next);
  }

  lemma NotListed(x: Syntax, raw: string, key: string)
    requires x.Lawful() && ' ' in key
    ensures !Listed(Meant(x, raw).peers, key)
  {
    hide Meant;
    forall k | 0 <= k < |Meant(x, raw).peers| ensures Meant(x, raw).peers[k].publicKey != key {
      ListedIsValid(x, raw, k);
    }
  }

  lemma PaddedText(x: Syntax, raw: string, key: string, allowed: seq<string>, next: string)
    requires Safe(x, Meant(x, raw)) && !Listed(Meant(x, raw).peers, " " + key) && Trim(" " + key) == key && x.validKey(key)
    requires Canonicals(x, allowed).Some? && Canonicals(x, allowed).value != []
    requires next == Separated(raw, Newline(raw))
                     + Concat(NewLines(PaddedCopy(key, allowed), Canonicals(x, allowed).value, Newline(raw)))
    requires Bytes(next) <= MAX_BYTES
    ensures AddText(x, raw, PaddedCopy(key, allowed)) == Ok(next)
  {
    hide Meant, Safe, AnalysisOf, Separated, NewLines, Newline, Canonicals, Refusal, Find;
    RefusalIsUnsafe(x, raw);
    FindIs(AnalysisOf(x, raw).peers, " " + key);
  }

  lemma PaddedUnsafe(x: Syntax, raw: string, key: string, allowed: seq<string>, next: string)
    requires x.Lawful() && Listed(Meant(x, raw).peers, key) && Trim(" " + key) == key && NoBreak(" " + key)
    requires AddText(x, raw, PaddedCopy(key, allowed)) == Ok(next)
    ensures Refusal(AnalysisOf(x, next)).Some?
  {
    hide Meant, Safe, AnalysisOf, AddText, Refusal;
    AddPeerEffect(x, raw, PaddedCopy(key, allowed), next);
    RefusalIsUnsafe(x, next);
  }

  lemma PrefixList(x: Syntax, prefix: string)
    requires x.Lawful() && x.canon(prefix) == Some(prefix)
    ensures Canonicals(x, [prefix]) == Some([prefix]) && Token(prefix)
  {
    TrimTight(prefix);
    assert [prefix][..0] == [] && [] + [prefix] == [prefix];
  }

  lemma PaddedLength(key: string, prefix: string, raw: string, nl: string)
    requires IsNewline(nl) && |key| <= 1000 && |prefix| <= 1000
    ensures Bytes(Separated(raw, nl) + Concat(NewLines(PaddedCopy(key, [prefix]), [prefix], nl))) <= 4 * (|raw| + 3000)
  {
    var lines := NewLines(PaddedCopy(key, [prefix]), [prefix], nl);
    SeparatedBytes(raw, nl);
    PaddedLines(key, prefix, nl);
    BytesBound(Separated(raw, nl) + Concat(lines));
  }

  lemma PaddedLines(key: string, prefix: string, nl: string)
    requires IsNewline(nl)
    ensures |Concat(NewLines(PaddedCopy(key, [prefix]), [prefix], nl))| <= |key| + |prefix| + 90
  {
    var peer := PaddedCopy(key, [prefix]);
    var a, b, c := "[Peer]" + nl, "PublicKey = " + peer.publicKey + nl, "AllowedIPs = " + prefix + nl;
    assert Join([prefix]) == prefix;
    assert "PublicKey" + " = " + peer.publicKey + nl == b && "AllowedIPs" + " = " + prefix + nl == c;
    assert NewLines(peer, [prefix], nl) == [a] + ([b] + [] + [c] + [] + []);
    assert [a] + ([b] + [] + [c] + [] + []) == [a, b] + [c];
    ConcatAppend([a, b], [c]);
    PairLength(a, b);
    ConcatOne(c);
  }

  /** The family is not empty: for every key and canonical prefix there is a
      document. */
  lemma PaddedCopyExample(x: Syntax, key: string, prefix: string) returns (raw: string, next: string)
    requires UsableKey(x, key) && x.canon(prefix) == Some(prefix) && |prefix| <= 1000
    ensures Safe(x, Meant(x, raw)) && Listed(Meant(x, raw).peers, key)
    ensures AddText(x, raw, PaddedCopy(key, [prefix])) == Ok(next)
    ensures Refusal(AnalysisOf(x, next)).Some?
  {
    hide Meant, Safe, AnalysisOf, AddText, Refusal, Separated, NewLines, Newline, Canonicals, Listed;
    raw := Concat(Head(key, []) + Tail(key, []));
    DocumentMeans(x, key, [], []);
    DocumentLength(key, [], []);
    assert |Concat([])| == 0;
    PrefixList(x, prefix);
    PaddedLength(key, prefix, raw, Newline(raw));
    OnlyListed(x, raw, key);
    next := Separated(raw, Newline(raw)) + Concat(NewLines(PaddedCopy(key, [prefix]), [prefix], Newline(raw)));
    PaddedCopyAccepted(x, raw, key, [prefix], next);
  }

  lemma OnlyListed(x: Syntax, raw: string, key: string)
    requires Meant(x, raw).peers == [OnlyPeer(key)]
    ensures Listed(Meant(x, raw).peers, key)
  {
    assert Meant(x, raw).peers[0].publicKey == key;
  }

  // ---- A removal that cannot be taken back ----

  function Filler(n: nat): string {
    seq(n, _ => 'x')
  }

  function FillerLine(n: nat): string {
    "#" + Filler(n) + "\n"
  }

  lemma FillerComment(n: nat)
    ensures Comments([FillerLine(n)]) && Closed(FillerLine(n)) && Narrow(FillerLine(n)) && |FillerLine(n)| == n + 2
  {
    CommentLine(Filler(n));
  }

  /** The size of the document without the filler. */
  function BareSize(key: string): nat {
    Bytes(Concat(["[Interface]\n", KeyLine("PrivateKey", key)])) + 2 + Bytes(Concat(Tail(key, [])))
  }

  lemma BareSizeBound(key: string)
    requires |key| <= 1000
    ensures BareSize(key) < 10_000
  {
    PairLength("[Interface]\n", KeyLine("PrivateKey", key));
    PairLength("[Peer]\n", KeyLine("PublicKey", key));
    NothingAround(["[Peer]\n", KeyLine("PublicKey", key)]);
    BytesBound(Concat(["[Interface]\n", KeyLine("PrivateKey", key)]));
    BytesBound(Concat(Tail(key, [])));
  }

  lemma FillerSize(key: string, n: nat)
    ensures var text := Concat(Head(key, [FillerLine(n)]));
            && Bytes(Concat(Head(key, [FillerLine(n)]) + Tail(key, []))) == BareSize(key) + n
            && Bytes(text) <= BareSize(key) + n && EndsWith(text, FillerLine(n))
  {
    hide Bytes, Narrow, FillerLine;
    var front, line := ["[Interface]\n", KeyLine("PrivateKey", key)], FillerLine(n);
    FillerComment(n);
    NarrowBytes(line);
    ConcatAppend(front, [line]);
    ConcatOne(line);
    BytesAppend(Concat(front), line);
    ConcatAppend(Head(key, [line]), Tail(key, []));
    BytesAppend(Concat(Head(key, [line])), Concat(Tail(key, [])));
    AppendEnds(Concat(front), Concat(front), line);
  }

  /** What is left of the document when its peer goes ends with one line feed. */
  lemma FillerLeft(key: string, n: nat)
    ensures var text := Concat(Head(key, [FillerLine(n)])); |Separated(text, Newline(text))| > |text|
  {
    hide Bytes, Concat;
    var text, line := Concat(Head(key, [FillerLine(n)])), FillerLine(n);
    FillerSize(key, n);
    assert text[|text| - |line|..] == line;
    assert text[|text| - 1] == line[|line| - 1] && text[|text| - 2] == line[|line| - 2];
    EndsOne(text, '\n');
    EndsBlankIs(text);
  }

  lemma FillerRemoved(x: Syntax, raw: string, key: string, n: nat) returns (removed: Removed)
    requires UsableKey(x, key) && BareSize(key) + n <= MAX_BYTES
    requires raw == Concat(Head(key, [FillerLine(n)]) + Tail(key, []))
    ensures RemoveText(x, raw, key) == Ok(removed) && removed.text == Concat(Head(key, [FillerLine(n)]))
  {
    hide StmtOf, Meant, Safe, AnalysisOf, Find, Bytes, FillerLine, Comments, Refusal, RemoveText, Separated, BareSize;
    var middle := [FillerLine(n)];
    FillerComment(n);
    assert Comments([]) by { HashComment(); }
    var peer := OnlyPeerFound(x, key, middle, []);
    DocumentMeans(x, key, middle, []);
    RefusalIsUnsafe(x, raw);
    FillerSize(key, n);
    removed := RemovedRest(x, raw, key, peer, Head(key, middle), Tail(key, []));
  }

  lemma RemovedRest(x: Syntax, raw: string, key: string, peer: Peer, before: seq<string>, block: seq<string>) returns (removed: Removed)
    requires Refusal(AnalysisOf(x, raw)).None? && Find(AnalysisOf(x, raw).peers, key) == Some(peer)
    requires peer.blockStart <= peer.blockEnd <= |Lines(raw)| && PlaceOf(Lines(raw), peer) == Place(before, block, [])
    requires Bytes(Concat(before)) <= MAX_BYTES
    ensures RemoveText(x, raw, key) == Ok(removed) && removed.text == Concat(before)
  {
    hide AnalysisOf, Find, Bytes, Refusal;
    FoundInside(x, raw, key);
    assert Concat(before) + "" + "" == Concat(before);
    assert Concat([]) == "";
    assert Spliced(Lines(raw), peer, "") == Concat(before);
    removed := RemoveText(x, raw, key).value;
  }

  /** For every key: a document as large as allowed.  Its peer is removed, and what
      was removed is refused a moment later. */
  lemma RemovalRefusedBack(x: Syntax, key: string) returns (raw: string, removed: Removed)
    requires UsableKey(x, key)
    ensures Safe(x, Meant(x, raw)) && Meant(x, raw).peers == [OnlyPeer(key)] && Bytes(raw) == MAX_BYTES
    ensures RemoveText(x, raw, key) == Ok(removed)
    ensures RestoreText(x, removed.text, key, removed.archived) == Err(TooLarge)
  {
    hide Meant, Safe, Bytes, RemoveText, RestoreText, Separated, Newline, BareSize, FillerLine, Comments;
    BareSizeBound(key);
    var n := MAX_BYTES - BareSize(key);
    raw := Concat(Head(key, [FillerLine(n)]) + Tail(key, []));
    FillerComment(n);
    assert Comments([]) by { HashComment(); }
    DocumentMeans(x, key, [FillerLine(n)], []);
    FillerSize(key, n);
    FillerLeft(key, n);
    removed := FillerRemoved(x, raw, key, n);
    NotRestored(x, raw, key, removed);
  }

  lemma NotRestored(x: Syntax, raw: string, key: string, removed: Removed)
    requires RemoveText(x, raw, key) == Ok(removed) && Bytes(raw) == MAX_BYTES
    requires |Separated(removed.text, Newline(removed.text))| > |removed.text|
    ensures RestoreText(x, removed.text, key, removed.archived) == Err(TooLarge)
  {
    hide Meant, Safe, Separated, Newline, RemoveText, RestoreText, Bytes, Archived;
    var _, _, view, _ := RemovePeerEffect(x, raw, key, removed);
    RestoreSucceeds(x, removed.text, key, removed.archived, view);
    var _, _, _, _ := RemoveThenRestore(x, raw, key, removed);
  }
}
