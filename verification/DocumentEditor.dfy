/** The document object: it owns the text, its nodes and their analysis, and
    every edit splices the text and reads it again. */
module DocumentEditor {
  import opened Text
  import opened ConfigSyntax
  import opened ConfigMeaning
  import opened ConfigAnalysis
  import opened ConfigPatch
  import opened ConfigDocument
  import opened ConfigPeers

  method SplitLines(input: string) returns (lines: seq<string>)
    ensures lines == Lines(input)
  {
    var rest := input;
    lines := [];
    while rest != ""
      invariant lines + Lines(rest) == Lines(input)
      decreases |rest|
    {
      var index := IndexOf(rest, '\n');
      if index == |rest| {
        assert rest[..|rest|] == rest && rest[|rest|..] == "";
        assert Lines(rest) == [rest] + [];
        lines := lines + [rest];
        break;
      }
      Associate(lines, [rest[..index + 1]], Lines(rest[index + 1..]));
      lines := lines + [rest[..index + 1]];
      rest := rest[index + 1..];
    }
  }

  method ParseText(input: string) returns (nodes: seq<Node>)
    ensures nodes == NodesOf(input)
  {
    var lines := SplitLines(input);
    nodes := [];
    var section := "";
    for i := 0 to |lines|
      invariant nodes == ParseNodes(lines[..i]) && section == SectionAfter(nodes)
    {
      assert lines[..i + 1][..i] == lines[..i];
      var node := ParseLine(lines[i], section);
      section := node.section;
      nodes := nodes + [node];
    }
    assert lines[..|lines|] == lines;
  }

  lemma ScanOne(x: Syntax, nodes: seq<Node>, i: nat)
    requires i < |nodes|
    ensures ScanNodes(x, nodes[..i + 1]) == Visit(x, ScanNodes(x, nodes[..i]), i, nodes[i])
  {
    assert nodes[..i + 1][..i] == nodes[..i];
  }

  /** The analysis, over its changing result, open peer and count of private keys. */
  method AnalyzeNodes(x: Syntax, nodes: seq<Node>) returns (analysis: Analysis)
    ensures analysis == Analyze(x, nodes)
  {
    analysis := NOTHING;
    var current: Option<Peer> := None;
    var privateKeys := 0;
    for index := 0 to |nodes|
      invariant Scan(analysis, current, privateKeys) == ScanNodes(x, nodes[..index])
    {
      ScanOne(x, nodes, index);
      analysis, current, privateKeys := VisitNode(x, analysis, current, privateKeys, index, nodes[index]);
    }
    assert nodes[..|nodes|] == nodes;
    analysis := FinishPeer(analysis, current, |nodes|);
    if analysis.interfaces == 1 && privateKeys == 0 {
      analysis := Warn(analysis, 0, InterfacePrivateKeyMissing);
    }
  }

  method VisitNode(x: Syntax, analysis: Analysis, current: Option<Peer>, privateKeys: nat, index: nat, node: Node)
    returns (analysis': Analysis, current': Option<Peer>, privateKeys': nat)
    ensures Scan(analysis', current', privateKeys') == Visit(x, Scan(analysis, current, privateKeys), index, node)
  {
    analysis', current', privateKeys' := analysis, current, privateKeys;
    match node.kind {
      case SectionHeader =>
        analysis' := FinishPeer(analysis, current, index);
        current' := None;
        match SectionOf(node.section) {
          case InterfaceSection => analysis' := analysis'.(interfaces := analysis'.interfaces + 1);
          case PeerSection => current' := Some(Peer(NO_VIEW, index, index, map[]));
          case _ => analysis' := Warn(analysis'.(hasUnknown := true), index + 1, UnknownSection);
        }
      case RawLine =>
        analysis' := Warn(analysis.(hasUnknown := true), index + 1, UnparsedStatement);
      case Assignment =>
        match SectionOf(node.section) {
          case InterfaceSection =>
            var scan := VisitInterfaceKey(x, Scan(analysis, current, privateKeys), index, KeyOf(node.key), node.value);
            analysis', privateKeys' := scan.analysis, scan.privateKeys;
          case PeerSection =>
            var scan := VisitPeerKey(x, Scan(analysis, current, privateKeys), index, KeyOf(node.key), node.value);
            analysis', current' := scan.analysis, scan.current;
          case _ =>
            analysis' := Warn(analysis.(hasUnknown := true), index + 1, AssignmentOutsideSection);
        }
      case _ =>
    }
  }

  // ---- Rewriting one key, as the loop does it ----

  lemma DropFirst(block: seq<Node>, key: Key)
    requires block != [] && Assigns(block[0], key)
    ensures Others(block, {key}) == Others(block[1..], {key})
  {
  }

  /** Deleting one more assignment, with nothing to drop up to the next one. */
  lemma DropOne(block: seq<Node>, key: Key, q: nat, p: nat, rest: seq<Node>)
    requires q < p <= |block| && Assigns(block[q], key) && !HasKey(block[q + 1..p], key)
    requires rest == block[..p] + Others(block[p..], {key})
    ensures rest[..q] + rest[q + 1..] == block[..q] + Others(block[q..], {key})
  {
    hide Others, HasKey, Assigns;
    assert block[q..][0] == block[q] && block[q..][1..] == block[q + 1..p] + block[p..];
    DropFirst(block[q..], key);
    OthersAppend(block[q + 1..p], block[p..], {key});
    OthersNone(block[q + 1..p], key);
    assert rest[q + 1..] == block[q + 1..p] + Others(block[p..], {key});
  }

  lemma NoMore(block: seq<Node>, key: Key, from: nat, p: nat)
    requires from <= p <= |block| && !HasKey(block[from..p], key)
    ensures block[..p] + Others(block[p..], {key}) == block[..from] + Others(block[from..], {key})
  {
    OthersAppend(block[from..p], block[p..], {key});
    OthersNone(block[from..p], key);
    assert block[from..] == block[from..p] + block[p..];
    assert block[..p] == block[..from] + block[from..p];
    Associate(block[..from], block[from..p], Others(block[p..], {key}));
  }

  lemma RewriteAt(block: seq<Node>, key: Key, value: string, q: nat)
    requires q < |block| && Assigns(block[q], key) && !HasKey(block[..q], key)
    ensures Rewrite(block, key, value) ==
            block[..q] + (if value == "" then [] else [SetValue(block[q], value)]) + Others(block[q + 1..], {key})
  {
    var before, rest := block[..q], block[q..];
    FirstAndRest(rest);
    assert rest[1..] == block[q + 1..] && block == before + rest;
    RewriteAppend(before, rest, key, value);
    RewriteRest(block[q], block[q + 1..], key, value);
    Associate(before, if value == "" then [] else [SetValue(block[q], value)], Others(block[q + 1..], {key}));
  }

  /** The positions of a key, in order and without exception. */
  ghost predicate PositionsOf(block: seq<Node>, key: Key, positions: seq<nat>, end: nat) {
    && (forall k :: 0 <= k < |positions| ==> positions[k] < end <= |block| && Assigns(block[positions[k]], key))
    && (forall j, k :: 0 <= j < k < |positions| ==> positions[j] < positions[k])
    && (forall i :: 0 <= i < end <= |block| && Assigns(block[i], key) ==> i in positions)
  }

  method FindPositions(block: seq<Node>, key: Key) returns (positions: seq<nat>)
    ensures PositionsOf(block, key, positions, |block|)
  {
    positions := [];
    for index := 0 to |block|
      invariant PositionsOf(block, key, positions, index)
    {
      if block[index].kind.Assignment? && KeyOf(block[index].key) == key {
        positions := positions + [index];
      }
    }
  }

  /** Everything from `from` on that assigns the key is listed, in order. */
  ghost predicate Lists(block: seq<Node>, key: Key, positions: seq<nat>, from: nat) {
    && (forall k :: 0 <= k < |positions| ==> from <= positions[k] < |block| && Assigns(block[positions[k]], key))
    && (forall j, k :: 0 <= j < k < |positions| ==> positions[j] < positions[k])
    && (forall i :: from <= i < |block| && Assigns(block[i], key) ==> i in positions)
  }

  /** The position listed at `k`, or the end of the block behind the last one. */
  function PositionAt(block: seq<Node>, positions: seq<nat>, k: nat): nat {
    if k < |positions| then positions[k] else |block|
  }

  lemma NotListed(block: seq<Node>, key: Key, positions: seq<nat>, from: nat, k: nat, i: nat)
    requires Lists(block, key, positions, from) && k <= |positions|
    requires (if k == 0 then from else positions[k - 1] + 1) <= i < PositionAt(block, positions, k)
    ensures i !in positions
  {
    forall j | 0 <= j < |positions| ensures positions[j] != i {
      if j < k {
        assert positions[j] <= positions[k - 1];
      } else {
        assert positions[k] <= positions[j];
      }
    }
  }

  lemma NoneBetween(block: seq<Node>, key: Key, positions: seq<nat>, from: nat, k: nat)
    requires Lists(block, key, positions, from) && from <= |block| && k <= |positions|
    ensures from <= PositionAt(block, positions, k) <= |block|
    ensures !HasKey(block[if k == 0 then from else positions[k - 1] + 1..PositionAt(block, positions, k)], key)
  {
    var p := PositionAt(block, positions, k);
    var q := if k == 0 then from else positions[k - 1] + 1;
    var part := block[q..p];
    forall i | 0 <= i < |part| ensures !Assigns(part[i], key) {
      NotListed(block, key, positions, from, k, q + i);
    }
  }

  /** Deletes the listed positions from the last to the first. */
  method DropPositions(block: seq<Node>, key: Key, positions: seq<nat>, ghost from: nat) returns (rest: seq<Node>)
    requires from <= |block| && Lists(block, key, positions, from)
    ensures rest == block[..from] + Others(block[from..], {key})
  {
    rest := block;
    var index := |positions|;
    while index > 0
      invariant 0 <= index <= |positions| && PositionAt(block, positions, index) <= |block|
      invariant rest == block[..PositionAt(block, positions, index)]
                        + Others(block[PositionAt(block, positions, index)..], {key})
    {
      NoneBetween(block, key, positions, from, index);
      DropOne(block, key, positions[index - 1], PositionAt(block, positions, index), rest);
      index := index - 1;
      rest := rest[..positions[index]] + rest[positions[index] + 1..];
    }
    NoneBetween(block, key, positions, from, 0);
    NoMore(block, key, from, PositionAt(block, positions, 0));
  }

  lemma FirstListed(block: seq<Node>, key: Key, positions: seq<nat>)
    requires PositionsOf(block, key, positions, |block|)
    ensures positions == [] <==> !HasKey(block, key)
    ensures positions != [] ==>
              && !HasKey(block[..positions[0]], key)
              && Lists(block, key, positions, positions[0])
              && Lists(block, key, positions[1..], positions[0] + 1)
  {
    assert Lists(block, key, positions, 0);
    NoneBetween(block, key, positions, 0, 0);
    assert block[..|block|] == block;
    if positions != [] {
      assert block[0..positions[0]] == block[..positions[0]];
      forall i | positions[0] + 1 <= i < |block| && Assigns(block[i], key) ensures i in positions[1..] {
        var k :| 0 <= k < |positions| && positions[k] == i;
        assert positions[1..][k - 1] == i;
      }
    }
  }

  lemma SetFirst(block: seq<Node>, key: Key, positions: seq<nat>, q: nat, value: string)
    requires q < |block| && Lists(block, key, positions, q + 1)
    ensures Lists(block[q := SetValue(block[q], value)], key, positions, q + 1)
    ensures block[q := SetValue(block[q], value)][q + 1..] == block[q + 1..]
    ensures block[q := SetValue(block[q], value)][..q + 1] == block[..q] + [SetValue(block[q], value)]
  {
  }

  /** One key of a patch: the first assignment is spliced, the others deleted
      from the back, or a line is appended when there is none. */
  method RewriteKey(block: seq<Node>, key: Key, value: string, newline: string) returns (next: seq<Node>)
    requires Settable(key)
    ensures next == Apply(block, key, value, newline)
  {
    next := block;
    var positions := FindPositions(block, key);
    FirstListed(block, key, positions);
    if |positions| > 0 {
      var first := positions[0];
      RewriteAt(block, key, value, first);
      if value != "" {
        SetFirst(block, key, positions[1..], first, value);
        next := next[first := SetValue(block[first], value)];
        positions := positions[1..];
        next := DropPositions(next, key, positions, first + 1);
      } else {
        next := DropPositions(next, key, positions, first);
        assert block[first..][1..] == block[first + 1..];
        assert block[..first] + [] == block[..first];
      }
      return;
    }
    if value == "" {
      return;
    }
    next := next + [FreshNode(key, value, newline)];
  }

  // ---- The document ----

  class Document {
    const syntax: Syntax
    var raw: string
    var nodes: seq<Node>
    var analysis: Analysis
    var newline: string

    ghost predicate Valid()
      reads this
    {
      && nodes == NodesOf(raw) && analysis == AnalysisOf(syntax, raw) && newline == Newline(raw)
      && Bytes(raw) <= MAX_BYTES
    }

    /** What the document means. */
    ghost function Sum(): Sum
      reads this
    {
      Meant(syntax, raw)
    }

    constructor (syntax: Syntax, raw: string, nodes: seq<Node>, analysis: Analysis, newline: string)
      ensures this.syntax == syntax && this.raw == raw && this.nodes == nodes
      ensures this.analysis == analysis && this.newline == newline
    {
      this.syntax, this.raw, this.nodes, this.analysis, this.newline := syntax, raw, nodes, analysis, newline;
    }

    static method Parse(syntax: Syntax, input: string) returns (result: Result<Document>)
      ensures result.Ok? <==> Bytes(input) <= MAX_BYTES
      ensures result.Ok? ==> fresh(result.value) && result.value.Valid()
      ensures result.Ok? ==> result.value.raw == input && result.value.syntax == syntax
      ensures result.Err? ==> result.error == TooLarge
    {
      if Bytes(input) > MAX_BYTES {
        return Err(TooLarge);
      }
      var nodes := ParseText(input);
      var analysis := AnalyzeNodes(syntax, nodes);
      var document := new Document(syntax, input, nodes, analysis, Newline(input));
      return Ok(document);
    }

    /** The gate of every edit.  It lets a document pass exactly if its blocks
        are as an editable document's must be. */
    method CheckAdoption() returns (refusal: Option<Error>)
      requires Valid()
      ensures refusal == Refusal(analysis)
      ensures refusal.None? <==> Safe(syntax, Sum())
    {
      RefusalIsUnsafe(syntax, raw);
      if analysis.interfaces != 1 || analysis.hasUnknown {
        return Some(Unsupported);
      }
      for i := 0 to |analysis.warnings|
        invariant FirstBlocking(analysis.warnings) == FirstBlocking(analysis.warnings[i..])
      {
        if analysis.warnings[i].code == DuplicatePeerPublicKey {
          return Some(DuplicatePeer);
        }
        if Blocking(analysis.warnings[i].code) {
          return Some(Unsupported);
        }
      }
      return None;
    }

    method FindPeer(publicKey: string) returns (found: Option<Peer>)
      ensures found == Find(analysis.peers, publicKey)
    {
      for i := 0 to |analysis.peers|
        invariant Find(analysis.peers, publicKey) == Find(analysis.peers[i..], publicKey)
      {
        if analysis.peers[i].view.publicKey == publicKey {
          return Some(analysis.peers[i]);
        }
      }
      return None;
    }

    /** Reads the edited text again, and becomes it unless it is too large. */
    method Reparse(text: string) returns (error: Option<Error>)
      requires Valid()
      modifies this
      ensures Valid()
      ensures match Parsed(text)
              case Ok(next) => error == None && raw == next
              case Err(e) => error == Some(e) && unchanged(this)
    {
      var parsed := Parse(syntax, text);
      match parsed {
        case Err(e) => return Some(e);
        case Ok(document) =>
          raw, nodes, analysis, newline := document.raw, document.nodes, document.analysis, document.newline;
          return None;
      }
    }

    method ReplaceNodeRange(start: nat, end: nat, replacement: string) returns (error: Option<Error>)
      requires Valid() && start <= end <= |nodes|
      modifies this
      ensures Valid()
      ensures var text := Concat(old(Lines(raw))[..start]) + replacement + Concat(old(Lines(raw))[end..]);
              match Parsed(text)
              case Ok(next) => error == None && raw == next
              case Err(e) => error == Some(e) && unchanged(this)
    {
      var before := RenderNodes(nodes[..start]);
      var after := RenderNodes(nodes[end..]);
      RawsSlice(raw, 0, start);
      RawsSlice(raw, end, |nodes|);
      assert nodes[end..|nodes|] == nodes[end..] && nodes[0..start] == nodes[..start];
      assert Lines(raw)[end..|nodes|] == Lines(raw)[end..] && Lines(raw)[0..start] == Lines(raw)[..start];
      error := Reparse(before + replacement + after);
    }

    method PatchPeer(publicKey: string, patch: PeerPatch) returns (error: Option<Error>)
      requires Valid()
      modifies this
      ensures Valid()
      ensures match PatchText(syntax, old(raw), publicKey, patch)
              case Ok(next) => error == None && raw == next
              case Err(e) => error == Some(e) && unchanged(this)
    {
      error := CheckAdoption();
      if error.Some? {
        return;
      }
      var peer := FindPeer(publicKey);
      if peer.None? {
        return Some(PeerNotFound);
      }
      var replacements := Requests(syntax, patch);
      if replacements.Err? {
        return Some(replacements.error);
      }
      FoundInside(syntax, raw, publicKey);
      RequestsSettable(syntax, patch);
      var block := PatchNodes(nodes[peer.value.blockStart..peer.value.blockEnd], replacements.value, newline);
      var text := RenderNodes(block);
      error := ReplaceNodeRange(peer.value.blockStart, peer.value.blockEnd, text);
    }

    method AddPeer(peer: NewPeer) returns (error: Option<Error>)
      requires Valid()
      modifies this
      ensures Valid()
      ensures match AddText(syntax, old(raw), peer)
              case Ok(next) => error == None && raw == next
              case Err(e) => error == Some(e) && unchanged(this)
    {
      error := CheckAdoption();
      if error.Some? {
        return;
      }
      if !syntax.validKey(Trim(peer.publicKey)) {
        return Some(InvalidValue);
      }
      var found := FindPeer(peer.publicKey);
      if found.Some? {
        return Some(DuplicatePeer);
      }
      var allowed := Canonicals(syntax, peer.allowedIPs);
      if allowed.None? || allowed.value == [] {
        return Some(InvalidValue);
      }
      if peer.psk != "" && !syntax.validKey(Trim(peer.psk)) {
        return Some(InvalidValue);
      }
      var block := BuildBlock(raw, newline, peer, allowed.value);
      error := Reparse(raw + block);
    }

    method RemovePeer(publicKey: string) returns (result: Result<string>)
      requires Valid()
      modifies this
      ensures Valid()
      ensures match RemoveText(syntax, old(raw), publicKey)
              case Ok(removed) => result == Ok(removed.archived) && raw == removed.text
              case Err(e) => result == Err(e) && unchanged(this)
    {
      var error := CheckAdoption();
      if error.Some? {
        return Err(error.value);
      }
      var peer := FindPeer(publicKey);
      if peer.None? {
        return Err(PeerNotFound);
      }
      FoundInside(syntax, raw, publicKey);
      var archived := RenderNodes(nodes[peer.value.blockStart..peer.value.blockEnd]);
      error := ReplaceNodeRange(peer.value.blockStart, peer.value.blockEnd, "");
      if error.Some? {
        return Err(error.value);
      }
      return Ok(archived);
    }

    method RestorePeerBlock(publicKey: string, archived: string) returns (error: Option<Error>)
      requires Valid()
      modifies this
      ensures Valid()
      ensures match RestoreText(syntax, old(raw), publicKey, archived)
              case Ok(next) => error == None && raw == next
              case Err(e) => error == Some(e) && unchanged(this)
    {
      error := CheckAdoption();
      if error.Some? {
        return;
      }
      var found := FindPeer(publicKey);
      if found.Some? {
        return Some(DuplicatePeer);
      }
      var parsed := Parse(syntax, archived);
      if parsed.Err? {
        return Some(parsed.error);
      }
      var good := CheckArchive(parsed.value.analysis, publicKey);
      if !good {
        return Some(Unsupported);
      }
      var output := Separate(raw, newline);
      error := Reparse(output + archived);
    }
  }

  method CheckArchive(a: Analysis, publicKey: string) returns (good: bool)
    ensures good == ArchiveOf(a, publicKey)
  {
    if a.interfaces != 0 || a.hasUnknown || |a.peers| != 1 || a.peers[0].view.publicKey != publicKey {
      return false;
    }
    for i := 0 to |a.warnings|
      invariant forall k :: 0 <= k < i ==> !UnsafeInArchive(a.warnings[k].code)
    {
      if UnsafeInArchive(a.warnings[i].code) {
        return false;
      }
    }
    return true;
  }

  method Separate(raw: string, newline: string) returns (output: string)
    ensures output == Separated(raw, newline)
  {
    output := raw;
    if output != "" && !EndsWith(output, "\n") && !EndsWith(output, "\r") {
      output := output + newline;
    }
    if output != "" && !EndsBlank(output) {
      output := output + newline;
    }
  }

  method RenderNodes(nodes: seq<Node>) returns (result: string)
    ensures result == Concat(Raws(nodes))
  {
    result := "";
    for i := 0 to |nodes|
      invariant result == Concat(Raws(nodes[..i]))
    {
      assert Raws(nodes[..i + 1]) == Raws(nodes[..i]) + [nodes[i].raw];
      ConcatAppend(Raws(nodes[..i]), [nodes[i].raw]);
      ConcatOne(nodes[i].raw);
      result := result + nodes[i].raw;
    }
    assert nodes[..|nodes|] == nodes;
  }

  lemma RawsSlice(raw: string, i: nat, j: nat)
    requires i <= j <= |Lines(raw)|
    ensures Raws(NodesOf(raw)[i..j]) == Lines(raw)[i..j]
  {
    forall k | i <= k < j ensures NodesOf(raw)[k].raw == Lines(raw)[k] {
      NodeAt(Lines(raw), k);
    }
  }

  /** The keys of a patch, rewritten one after the other. */
  method PatchNodes(block: seq<Node>, requests: seq<Request>, newline: string) returns (next: seq<Node>)
    requires AllSettable(requests)
    ensures next == PatchBlock(block, requests, newline)
  {
    next := block;
    for i := 0 to |requests|
      invariant PatchBlock(next, requests[i..], newline) == PatchBlock(block, requests, newline)
    {
      assert requests[i..][0] == requests[i] && requests[i..][1..] == requests[i + 1..];
      next := RewriteKey(next, requests[i].key, requests[i].value, newline);
    }
  }

  lemma SeparatorsAre(raw: string, newline: string, ended: string, blank: string)
    requires IsNewline(newline)
    requires ended == if raw != "" && !EndsWith(raw, "\n") && !EndsWith(raw, "\r") then newline else ""
    requires blank == if raw != "" && !EndsBlank(raw) then newline else ""
    ensures raw + (ended + blank) == Separated(raw, newline)
  {
    if raw != "" {
      EndsClosed(raw);
      if ended != "" {
        NewlinesEnd(raw, newline);
      }
      assert raw + ended + blank == raw + (ended + blank);
    }
  }

  method WriteIf(block: string, present: bool, name: string, value: string, newline: string) returns (next: string)
    ensures next == block + Concat(LineIf(present, name, value, newline))
  {
    next := block;
    if present {
      next := next + (name + " = " + value + newline);
      ConcatOne(name + " = " + value + newline);
    } else {
      assert block + "" == block;
    }
  }

  /** The text of a new block, with the separators the text before it needs. */
  method BuildBlock(raw: string, newline: string, peer: NewPeer, allowed: seq<string>) returns (block: string)
    requires IsNewline(newline)
    ensures raw + block == Separated(raw, newline) + Concat(NewLines(peer, allowed, newline))
  {
    var ended, blank := "", "";
    if raw != "" && !EndsWith(raw, "\n") && !EndsWith(raw, "\r") {
      ended := newline;
    }
    if raw != "" && !EndsBlank(raw) {
      blank := newline;
    }
    SeparatorsAre(raw, newline, ended, blank);
    var lines := WriteLines(peer, Join(allowed), Trim(peer.endpoint), Digits(peer.keepalive), newline);
    block := ended + blank + lines;
    Associate(raw, ended + blank, lines);
  }

  method WriteLines(peer: NewPeer, allowed: string, endpoint: string, keepalive: string, newline: string)
    returns (text: string)
    ensures text == Concat(["[Peer]" + newline] + NewAssignments(peer, allowed, endpoint, keepalive, newline))
  {
    ghost var head := ["[Peer]" + newline];
    ghost var a := LineIf(true, "PublicKey", peer.publicKey, newline);
    ghost var b := LineIf(peer.psk != "", "PresharedKey", peer.psk, newline);
    ghost var c := LineIf(true, "AllowedIPs", allowed, newline);
    ghost var d := LineIf(peer.endpoint != "", "Endpoint", endpoint, newline);
    ghost var e := LineIf(peer.keepalive != 0, "PersistentKeepalive", keepalive, newline);
    text := "[Peer]" + newline;
    text := WriteIf(text, true, "PublicKey", peer.publicKey, newline);
    text := WriteIf(text, peer.psk != "", "PresharedKey", peer.psk, newline);
    text := WriteIf(text, true, "AllowedIPs", allowed, newline);
    text := WriteIf(text, peer.endpoint != "", "Endpoint", endpoint, newline);
    text := WriteIf(text, peer.keepalive != 0, "PersistentKeepalive", keepalive, newline);
    SixRuns(head, a, b, c, d, e);
    ConcatOne("[Peer]" + newline);
  }

  lemma SixRuns(head: seq<string>, a: seq<string>, b: seq<string>, c: seq<string>, d: seq<string>, e: seq<string>)
    ensures Concat(head + (a + b + c + d + e)) ==
            Concat(head) + Concat(a) + Concat(b) + Concat(c) + Concat(d) + Concat(e)
  {
    ConcatAppend(head, a + b + c + d + e);
    ConcatAppend(a + b + c + d, e);
    ConcatAppend(a + b + c, d);
    ConcatAppend(a + b, c);
    ConcatAppend(a, b);
    FiveAssociate(Concat(head), Concat(a), Concat(b), Concat(c), Concat(d), Concat(e));
  }

  lemma FiveAssociate(h: string, a: string, b: string, c: string, d: string, e: string)
    ensures h + (a + b + c + d + e) == h + a + b + c + d + e
  {
    Associate(h, a + b + c + d, e);
    Associate(h, a + b + c, d);
    Associate(h, a + b, c);
    Associate(h, a, b);
  }
}
