/** Adding, removing and restoring whole peer blocks. */
module ConfigPeers {
  import opened Text
  import opened ConfigSyntax
  import opened ConfigMeaning
  import opened ConfigAnalysis
  import opened ConfigPatch
  import opened ConfigDocument

  // ---- Separators ----

  predicate EndsBlank(s: string) {
    EndsWith(s, "\n\n") || EndsWith(s, "\r\n\r\n")
  }

  /** The text, ended by a blank line as the editor recognises one. */
  function Separated(raw: string, nl: string): string {
    var ended := if raw != "" && !EndsWith(raw, "\n") && !EndsWith(raw, "\r") then raw + nl else raw;
    if ended != "" && !EndsBlank(ended) then ended + nl else ended
  }

  lemma NewlineLine(nl: string)
    requires IsNewline(nl)
    ensures Lines(nl) == [nl] && StmtOf(nl) == Blank && IsLine(nl)
  {
    LinesCons(nl, "");
    assert nl + "" == nl;
    assert nl == "" + "" + nl;
    TrimPad("", "", nl);
  }

  lemma EndsOne(s: string, c: char)
    ensures EndsWith(s, [c]) <==> s != "" && s[|s| - 1] == c
  {
    if s != "" {
      assert s[|s| - 1..] == [s[|s| - 1]];
    }
  }

  lemma EndsBlankIs(s: string)
    ensures EndsBlank(s) ==> |s| >= 2 && s[|s| - 1] == '\n' && s[|s| - 2] in {'\n', '\r'}
    ensures EndsBlank(s) && s[|s| - 2] == '\r' ==> |s| >= 4 && s[|s| - 3] == '\n'
  {
    if EndsWith(s, "\n\n") {
      assert s[|s| - 2..][0] == s[|s| - 2] && s[|s| - 2..][1] == s[|s| - 1];
    } else if EndsWith(s, "\r\n\r\n") {
      var end := s[|s| - 4..];
      assert end[1] == s[|s| - 3] && end[2] == s[|s| - 2] && end[3] == s[|s| - 1];
    }
  }

  lemma NewlinesEnd(raw: string, nl: string)
    requires IsNewline(nl) && raw != "" && !EndsWith(raw, "\n") && !EndsWith(raw, "\r")
    ensures !EndsBlank(raw + nl)
  {
    var s := raw + nl;
    EndsOne(raw, '\n');
    EndsOne(raw, '\r');
    EndsBlankIs(s);
    assert s[|raw| - 1] == raw[|raw| - 1];
  }

  lemma EndsClosed(raw: string)
    requires raw != ""
    ensures EndsWith(raw, "\n") <==> Closed(raw)
    ensures EndsBlank(raw) ==> Closed(raw)
  {
    EndsOne(raw, '\n');
    EndsBlankIs(raw);
  }

  lemma LineEnded(line: string, nl: string)
    requires IsNewline(nl)
    ensures StmtOf(line + nl) == StmtOf(line)
  {
    assert line + nl == "" + line + nl;
    TrimPad("", line, nl);
  }

  /** A line end added to an open last line changes nothing that is said. */
  lemma CloseLast(raw: string, nl: string)
    requires IsNewline(nl) && !Closed(raw)
    ensures Stmts(Lines(raw + nl)) == Stmts(Lines(raw)) && Closed(raw + nl)
  {
    NewlineLine(nl);
    LastLineGrows(raw, nl);
    LineEnded(Lines(raw)[|Lines(raw)| - 1], nl);
    SameButLast(Lines(raw), nl);
  }

  lemma AddBlank(raw: string, nl: string)
    requires IsNewline(nl) && Closed(raw)
    ensures Stmts(Lines(raw + nl)) == Stmts(Lines(raw)) + [Blank] && Closed(raw + nl)
  {
    NewlineLine(nl);
    LinesAppend(raw, nl);
    StmtsAppend(Lines(raw), [nl]);
    assert Stmts([nl]) == [Blank];
  }

  lemma SeparatedExtends(raw: string, nl: string)
    requires IsNewline(nl)
    ensures raw <= Separated(raw, nl) && Closed(Separated(raw, nl))
  {
    if raw != "" {
      EndsClosed(raw);
      assert raw <= raw + nl <= raw + nl + nl;
    }
  }

  /** Separating a text from what follows keeps its meaning. */
  lemma SeparatedMeans(x: Syntax, raw: string, nl: string)
    requires IsNewline(nl)
    ensures Meant(x, Separated(raw, nl)) == Meant(x, raw)
  {
    if raw != "" {
      EndsClosed(raw);
      if EndsWith(raw, "\n") {
        if !EndsBlank(raw) {
          AddBlank(raw, nl);
          SummarySilent(x, Stmts(Lines(raw)), Blank);
        }
      } else if EndsWith(raw, "\r") {
        CloseLast(raw, nl);
      } else {
        CloseLast(raw, nl);
        NewlinesEnd(raw, nl);
        AddBlank(raw + nl, nl);
        SummarySilent(x, Stmts(Lines(raw + nl)), Blank);
      }
    }
  }

  lemma SeparatedBytes(raw: string, nl: string)
    requires IsNewline(nl)
    ensures |raw| <= |Separated(raw, nl)| <= |raw| + 4
    ensures Bytes(Separated(raw, nl)) == Bytes(raw) + |Separated(raw, nl)| - |raw|
    ensures EndsBlank(raw) ==> Separated(raw, nl) == raw
  {
    NewlineBytes(nl);
    BytesAppend(raw, nl);
    BytesAppend(raw + nl, nl);
    if raw != "" {
      EndsClosed(raw);
    }
  }

  lemma NewlineBytes(nl: string)
    requires IsNewline(nl)
    ensures Bytes(nl) == |nl|
  {
    if |nl| == 2 {
      assert nl[1..] == "\n" && "\n"[1..] == "";
      assert Bytes("\n") == 1;
    } else {
      assert nl[1..] == "";
    }
  }

  // ---- Texts put together ----

  /** A text that starts a new block: its first line is a header. */
  predicate StartsText(text: string) {
    StartsBlock(Stmts(Lines(text)))
  }

  /** A block text behind a separated text means the two together. */
  lemma JoinedMeans(x: Syntax, raw: string, nl: string, text: string)
    requires IsNewline(nl) && StartsText(text)
    ensures Meant(x, Separated(raw, nl) + text) == Add(Meant(x, raw), Meant(x, text))
  {
    var base := Separated(raw, nl);
    SeparatedMeans(x, raw, nl);
    SeparatedExtends(raw, nl);
    LinesAppend(base, text);
    StmtsAppend(Lines(base), Lines(text));
    SummaryAppend(x, Stmts(Lines(base)), Stmts(Lines(text)));
  }

  lemma ClosedAppend(a: string, b: string)
    requires Closed(a)
    ensures Closed(a + b) == Closed(b)
  {
    if b == "" {
      assert a + b == a;
    }
  }

  /** One more peer keeps a document editable exactly if its key is new. */
  lemma OneMore(x: Syntax, sum: Sum, view: PeerView)
    requires Safe(x, sum)
    ensures Add(sum, OnePeer(view)).peers == sum.peers + [view]
    ensures Safe(x, Add(sum, OnePeer(view))) <==> !Listed(sum.peers, view.publicKey)
  {
    DistinctAppend(sum.peers, view);
    assert sum.privateKeys + [] == sum.privateKeys;
  }

  // ---- Adding a peer ----

  datatype NewPeer = NewPeer(publicKey: string, psk: string, allowedIPs: seq<string>, endpoint: string, keepalive: nat)

  function LineIf(present: bool, name: string, value: string, nl: string): seq<string> {
    if present then [name + " = " + value + nl] else []
  }

  function NewAssignments(peer: NewPeer, allowed: string, endpoint: string, keepalive: string, nl: string): seq<string> {
    LineIf(true, "PublicKey", peer.publicKey, nl)
    + LineIf(peer.psk != "", "PresharedKey", peer.psk, nl)
    + LineIf(true, "AllowedIPs", allowed, nl)
    + LineIf(peer.endpoint != "", "Endpoint", endpoint, nl)
    + LineIf(peer.keepalive != 0, "PersistentKeepalive", keepalive, nl)
  }

  function NewLines(peer: NewPeer, allowed: seq<string>, nl: string): seq<string> {
    ["[Peer]" + nl] + NewAssignments(peer, Join(allowed), Trim(peer.endpoint), Digits(peer.keepalive), nl)
  }

  function AddText(x: Syntax, raw: string, peer: NewPeer): Result<string> {
    var a := AnalysisOf(x, raw);
    match Refusal(a)
    case Some(error) => Err(error)
    case None =>
      if !x.validKey(Trim(peer.publicKey)) then Err(InvalidValue)
      else if Find(a.peers, peer.publicKey).Some? then Err(DuplicatePeer)
      else
        match Canonicals(x, peer.allowedIPs)
        case None => Err(InvalidValue)
        case Some(allowed) =>
          if allowed == [] || (peer.psk != "" && !x.validKey(Trim(peer.psk))) then Err(InvalidValue)
          else Parsed(Separated(raw, Newline(raw)) + Concat(NewLines(peer, allowed, Newline(raw))))
  }

  /** What is written of the values, an endpoint trimmed and keys as given, holds
      no line breaks. */
  predicate UnbrokenPeer(peer: NewPeer) {
    NoBreak(peer.publicKey) && NoBreak(peer.psk) && NoBreak(Trim(peer.endpoint)) && peer.keepalive <= 65535
  }

  /** The peer as it will be read. */
  function NewView(peer: NewPeer, allowed: seq<string>): PeerView {
    PeerView(Trim(peer.publicKey), peer.psk != "", allowed, Trim(peer.endpoint), peer.keepalive)
  }

  predicate PlainName(name: string) {
    name != "" && Tight(name) && name[0] !in {'#', ';', '['} && '=' !in name && NoBreak(name) && Lower(name) != ""
  }

  lemma FullLine(name: string, a: string, core: string, b: string, nl: string)
    requires PlainName(name) && AllSpace(a) && AllSpace(b) && core != "" && Tight(core) && IsNewline(nl)
    ensures Classify(Trim(name + " = " + (a + core + b) + nl)) == Assign(Lower(name), core)
  {
    hide Classify, Lower, Trim;
    var spaced := name + " ";
    assert spaced == "" + name + " ";
    TrimPad("", name, " ");
    TrimTight(name);
    var line := spaced + "=" + (" " + a) + core;
    assert name + " = " + (a + core + b) + nl == "" + line + (b + nl);
    TrimPad("", line, b + nl);
    AssignmentLine(spaced, " " + a, core);
  }

  lemma EmptyLine(name: string, value: string, nl: string)
    requires PlainName(name) && AllSpace(value) && IsNewline(nl)
    ensures Classify(Trim(name + " = " + value + nl)) == Assign(Lower(name), "")
  {
    var t := name + " =";
    assert name + " = " + value + nl == "" + t + (" " + value + nl);
    TrimPad("", t, " " + value + nl);
    TrimTight(t);
    IndexIs(t, '=', |name| + 1);
    assert t[..|name| + 1] == "" + name + " " && t[|name| + 2..] == "";
    TrimPad("", name, " ");
    TrimTight(name);
  }

  /** A line `name = value` means its trimmed value, and is one closed line. */
  lemma AnyLine(name: string, value: string, nl: string)
    requires PlainName(name) && NoBreak(value) && IsNewline(nl)
    ensures Classify(Trim(name + " = " + value + nl)) == Assign(Lower(name), Trim(value))
  {
    var a, b := TrimSplit(value);
    if Trim(value) != "" {
      FullLine(name, a, Trim(value), b, nl);
    } else {
      EmptyLine(name, value, nl);
    }
  }

  lemma AnyLineEnds(name: string, value: string, nl: string)
    requires NoBreak(name) && NoBreak(value) && IsNewline(nl)
    ensures var line := name + " = " + value + nl; IsLine(line) && Closed(line)
  {
  }

  lemma PeerNames()
    ensures PlainName("PublicKey") && KeyOf(Lower("PublicKey")) == PublicKey
    ensures PlainName("PresharedKey") && KeyOf(Lower("PresharedKey")) == PresharedKey
    ensures PlainName("AllowedIPs") && KeyOf(Lower("AllowedIPs")) == AllowedIPs
    ensures PlainName("Endpoint") && KeyOf(Lower("Endpoint")) == Endpoint
    ensures PlainName("PersistentKeepalive") && KeyOf(Lower("PersistentKeepalive")) == PersistentKeepalive
  {
    LowerIs("PublicKey", "publickey");
    DisplayNames(PresharedKey);
    DisplayNames(AllowedIPs);
    DisplayNames(Endpoint);
    DisplayNames(PersistentKeepalive);
    KeyNames(PresharedKey, "presharedkey");
    KeyNames(AllowedIPs, "allowedips");
    KeyNames(Endpoint, "endpoint");
    KeyNames(PersistentKeepalive, "persistentkeepalive");
  }

  lemma PeerHeaderLine(nl: string)
    requires IsNewline(nl)
    ensures var line := "[Peer]" + nl; StmtOf(line) == Header(PeerSection) && IsLine(line) && Closed(line)
  {
    LineEnded("[Peer]", nl);
    TrimTight("[Peer]");
    assert "[Peer]"[1..5] == "Peer";
    TrimTight("Peer");
    LowerIs("Peer", "peer");
  }

  function StmtIf(present: bool, key: Key, value: string): seq<Stmt> {
    if present then [Assign(key, value)] else []
  }

  /** What a new block says behind its header. */
  function NewBody(peer: NewPeer, allowed: seq<string>): seq<Stmt> {
    StmtIf(true, PublicKey, Trim(peer.publicKey))
    + StmtIf(peer.psk != "", PresharedKey, Trim(peer.psk))
    + StmtIf(true, AllowedIPs, Join(allowed))
    + StmtIf(peer.endpoint != "", Endpoint, Trim(peer.endpoint))
    + StmtIf(peer.keepalive != 0, PersistentKeepalive, Digits(peer.keepalive))
  }

  lemma KeyedLine(present: bool, key: Key, name: string, value: string, nl: string)
    requires PlainName(name) && KeyOf(Lower(name)) == key && NoBreak(value) && IsNewline(nl)
    ensures Stmts(LineIf(present, name, value, nl)) == StmtIf(present, key, Trim(value))
    ensures AllClosed(LineIf(present, name, value, nl))
  {
    hide Trim, Lower, Classify;
    AnyLine(name, value, nl);
    AnyLineEnds(name, value, nl);
  }

  lemma StmtsFive(a: seq<string>, b: seq<string>, c: seq<string>, d: seq<string>, e: seq<string>)
    ensures Stmts(a + b + c + d + e) == Stmts(a) + Stmts(b) + Stmts(c) + Stmts(d) + Stmts(e)
  {
    StmtsAppend(a, b);
    StmtsAppend(a + b, c);
    StmtsAppend(a + b + c, d);
    StmtsAppend(a + b + c + d, e);
  }

  lemma ClosedFive(a: seq<string>, b: seq<string>, c: seq<string>, d: seq<string>, e: seq<string>)
    requires AllClosed(a) && AllClosed(b) && AllClosed(c) && AllClosed(d) && AllClosed(e)
    ensures AllClosed(a + b + c + d + e)
  {
  }

  lemma AssignmentsMean(peer: NewPeer, allowed: string, endpoint: string, keepalive: string, nl: string)
    requires IsNewline(nl) && NoBreak(peer.publicKey) && NoBreak(peer.psk)
    requires NoBreak(allowed) && NoBreak(endpoint) && NoBreak(keepalive)
    ensures Stmts(NewAssignments(peer, allowed, endpoint, keepalive, nl)) ==
            StmtIf(true, PublicKey, Trim(peer.publicKey))
            + StmtIf(peer.psk != "", PresharedKey, Trim(peer.psk))
            + StmtIf(true, AllowedIPs, Trim(allowed))
            + StmtIf(peer.endpoint != "", Endpoint, Trim(endpoint))
            + StmtIf(peer.keepalive != 0, PersistentKeepalive, Trim(keepalive))
    ensures AllClosed(NewAssignments(peer, allowed, endpoint, keepalive, nl))
  {
    PeerNames();
    var a := LineIf(true, "PublicKey", peer.publicKey, nl);
    var b := LineIf(peer.psk != "", "PresharedKey", peer.psk, nl);
    var c := LineIf(true, "AllowedIPs", allowed, nl);
    var d := LineIf(peer.endpoint != "", "Endpoint", endpoint, nl);
    var e := LineIf(peer.keepalive != 0, "PersistentKeepalive", keepalive, nl);
    KeyedLine(true, PublicKey, "PublicKey", peer.publicKey, nl);
    KeyedLine(peer.psk != "", PresharedKey, "PresharedKey", peer.psk, nl);
    KeyedLine(true, AllowedIPs, "AllowedIPs", allowed, nl);
    KeyedLine(peer.endpoint != "", Endpoint, "Endpoint", endpoint, nl);
    KeyedLine(peer.keepalive != 0, PersistentKeepalive, "PersistentKeepalive", keepalive, nl);
    StmtsFive(a, b, c, d, e);
    ClosedFive(a, b, c, d, e);
  }

  lemma NewValues(peer: NewPeer, allowed: seq<string>)
    requires UnbrokenPeer(peer) && forall i :: 0 <= i < |allowed| ==> Token(allowed[i])
    ensures NoBreak(Join(allowed)) && Trim(Join(allowed)) == Join(allowed)
    ensures NoBreak(Trim(peer.endpoint)) && Trim(Trim(peer.endpoint)) == Trim(peer.endpoint)
    ensures NoBreak(Digits(peer.keepalive)) && Trim(Digits(peer.keepalive)) == Digits(peer.keepalive)
  {
    JoinIsTight(allowed);
    TrimTight(Join(allowed));
    TrimOnce(peer.endpoint);
    TrimValued(peer.endpoint);
    DigitsParse(peer.keepalive);
    TrimTight(Digits(peer.keepalive));
  }

  lemma NewLinesMean(peer: NewPeer, allowed: seq<string>, nl: string)
    requires UnbrokenPeer(peer) && IsNewline(nl) && forall i :: 0 <= i < |allowed| ==> Token(allowed[i])
    ensures Stmts(NewLines(peer, allowed, nl)) == [Header(PeerSection)] + NewBody(peer, allowed)
    ensures AllClosed(NewLines(peer, allowed, nl))
  {
    NewValues(peer, allowed);
    PeerHeaderLine(nl);
    AssignmentsMean(peer, Join(allowed), Trim(peer.endpoint), Digits(peer.keepalive), nl);
    var head := ["[Peer]" + nl];
    StmtsAppend(head, NewAssignments(peer, Join(allowed), Trim(peer.endpoint), Digits(peer.keepalive), nl));
    assert Stmts(head) == [Header(PeerSection)];
  }

  lemma ValuesIf(present: bool, key: Key, value: string, other: Key)
    ensures Values(StmtIf(present, key, value), other) == if present && key == other then [value] else []
  {
    if present {
      assert StmtIf(present, key, value)[..0] == [];
    }
  }

  lemma ValuesFive(a: seq<Stmt>, b: seq<Stmt>, c: seq<Stmt>, d: seq<Stmt>, e: seq<Stmt>, key: Key)
    ensures Values(a + b + c + d + e, key) ==
            Values(a, key) + Values(b, key) + Values(c, key) + Values(d, key) + Values(e, key)
  {
    ValuesAppend(a, b, key);
    ValuesAppend(a + b, c, key);
    ValuesAppend(a + b + c, d, key);
    ValuesAppend(a + b + c + d, e, key);
  }

  /** Five lists of which at most one has elements. */
  lemma OneOfFive<T>(a: seq<T>, b: seq<T>, c: seq<T>, d: seq<T>, e: seq<T>)
    ensures b == c == d == e == [] ==> a + b + c + d + e == a
    ensures a == c == d == e == [] ==> a + b + c + d + e == b
    ensures a == b == d == e == [] ==> a + b + c + d + e == c
    ensures a == b == c == e == [] ==> a + b + c + d + e == d
    ensures a == b == c == d == [] ==> a + b + c + d + e == e
  {
  }

  lemma NewBodyValues(peer: NewPeer, allowed: seq<string>, key: Key)
    ensures Values(NewBody(peer, allowed), key) ==
            match key
            case PublicKey => [Trim(peer.publicKey)]
            case PresharedKey => if peer.psk != "" then [Trim(peer.psk)] else []
            case AllowedIPs => [Join(allowed)]
            case Endpoint => if peer.endpoint != "" then [Trim(peer.endpoint)] else []
            case PersistentKeepalive => if peer.keepalive != 0 then [Digits(peer.keepalive)] else []
            case _ => []
  {
    hide Values, Trim, Join, Digits;
    var a, b := StmtIf(true, PublicKey, Trim(peer.publicKey)), StmtIf(peer.psk != "", PresharedKey, Trim(peer.psk));
    var c, d := StmtIf(true, AllowedIPs, Join(allowed)), StmtIf(peer.endpoint != "", Endpoint, Trim(peer.endpoint));
    var e := StmtIf(peer.keepalive != 0, PersistentKeepalive, Digits(peer.keepalive));
    ValuesIf(true, PublicKey, Trim(peer.publicKey), key);
    ValuesIf(peer.psk != "", PresharedKey, Trim(peer.psk), key);
    ValuesIf(true, AllowedIPs, Join(allowed), key);
    ValuesIf(peer.endpoint != "", Endpoint, Trim(peer.endpoint), key);
    ValuesIf(peer.keepalive != 0, PersistentKeepalive, Digits(peer.keepalive), key);
    ValuesFive(a, b, c, d, e, key);
    OneOfFive(Values(a, key), Values(b, key), Values(c, key), Values(d, key), Values(e, key));
  }

  predicate ValidPeer(x: Syntax, peer: NewPeer) {
    x.validKey(Trim(peer.publicKey)) && (peer.psk != "" ==> x.validKey(Trim(peer.psk)))
  }

  lemma NewViewIs(x: Syntax, peer: NewPeer, allowed: seq<string>)
    requires x.Lawful() && peer.keepalive <= 65535 && Canonical(x, allowed) && allowed != []
    ensures Allowed(x, [Join(allowed)]) == allowed
    ensures Keepalive(if peer.keepalive != 0 then [Digits(peer.keepalive)] else []) == peer.keepalive
    ensures LastOr(if peer.endpoint != "" then [Trim(peer.endpoint)] else [], "") == Trim(peer.endpoint)
  {
    JoinIsTight(allowed);
    OneAllowed(x, allowed);
    OneKeepalive(peer.keepalive);
    if peer.endpoint == "" {
      assert Trim("") == "";
    }
  }

  lemma NewBodyView(x: Syntax, peer: NewPeer, allowed: seq<string>)
    requires x.Lawful() && ValidPeer(x, peer) && peer.keepalive <= 65535 && Canonical(x, allowed) && allowed != []
    ensures ViewOf(x, NewBody(peer, allowed)) == NewView(peer, allowed)
  {
    NewBodyValues(peer, allowed, PublicKey);
    NewBodyValues(peer, allowed, PresharedKey);
    NewBodyValues(peer, allowed, AllowedIPs);
    NewBodyValues(peer, allowed, Endpoint);
    NewBodyValues(peer, allowed, PersistentKeepalive);
    NewViewIs(x, peer, allowed);
  }

  lemma NewBodyShape(peer: NewPeer, allowed: seq<string>)
    ensures NoRaw(NewBody(peer, allowed)) && NoHeader(NewBody(peer, allowed))
  {
  }

  lemma NewBodyOk(x: Syntax, peer: NewPeer, allowed: seq<string>)
    requires ValidPeer(x, peer)
    ensures OpenOk(x, Open(PeerSection, NewBody(peer, allowed)))
  {
    NewBodyShape(peer, allowed);
    NewBodyValues(peer, allowed, PublicKey);
    NewBodyValues(peer, allowed, PresharedKey);
  }

  /** The sum of a block, from how it reads and whether it is sound. */
  lemma BlockSumIs(x: Syntax, body: seq<Stmt>, view: PeerView)
    requires ViewOf(x, body) == view && view.publicKey != "" && OpenOk(x, Open(PeerSection, body))
    ensures OpenSum(x, Open(PeerSection, body)) == OnePeer(view)
  {
  }

  /** The new block reads as the new peer. */
  lemma NewBodyMeans(x: Syntax, peer: NewPeer, allowed: seq<string>)
    requires x.Lawful() && ValidPeer(x, peer) && peer.keepalive <= 65535 && Canonical(x, allowed) && allowed != []
    ensures OpenSum(x, Open(PeerSection, NewBody(peer, allowed))) == OnePeer(NewView(peer, allowed))
    ensures NoHeader(NewBody(peer, allowed))
  {
    NewBodyView(x, peer, allowed);
    NewBodyShape(peer, allowed);
    NewBodyOk(x, peer, allowed);
    BlockSumIs(x, NewBody(peer, allowed), NewView(peer, allowed));
  }

  lemma AddTextIs(x: Syntax, raw: string, peer: NewPeer, next: string)
    requires AddText(x, raw, peer) == Ok(next)
    ensures Safe(x, Meant(x, raw)) && ValidPeer(x, peer) && !Listed(Meant(x, raw).peers, peer.publicKey)
    ensures var allowed := Canonicals(x, peer.allowedIPs);
            && allowed.Some? && allowed.value != []
            && next == Separated(raw, Newline(raw)) + Concat(NewLines(peer, allowed.value, Newline(raw)))
  {
    RefusalIsUnsafe(x, raw);
    FindIs(AnalysisOf(x, raw).peers, peer.publicKey);
  }

  /** What adding a peer does, for values without line breaks: the text grows at
      its end, is closed, and means the old peers followed by the new one. */
  lemma AddPeerEffect(x: Syntax, raw: string, peer: NewPeer, next: string)
    requires x.Lawful() && UnbrokenPeer(peer) && AddText(x, raw, peer) == Ok(next)
    ensures raw <= next && Closed(next) && next != ""
    ensures Canonicals(x, peer.allowedIPs).Some?
    ensures Meant(x, next).peers == Meant(x, raw).peers + [NewView(peer, Canonicals(x, peer.allowedIPs).value)]
    ensures Safe(x, Meant(x, next)) <==> !Listed(Meant(x, raw).peers, Trim(peer.publicKey))
    ensures Tight(peer.publicKey) ==> Safe(x, Meant(x, next))
  {
    AddTextIs(x, raw, peer, next);
    var allowed, nl := Canonicals(x, peer.allowedIPs).value, Newline(raw);
    var text := Concat(NewLines(peer, allowed, nl));
    CanonicalsAre(x, peer.allowedIPs);
    NewTextMeans(x, peer, allowed, nl);
    JoinedMeans(x, raw, nl, text);
    OneMore(x, Meant(x, raw), NewView(peer, allowed));
    JoinedEnds(raw, nl, text);
    if Tight(peer.publicKey) {
      TrimTight(peer.publicKey);
    }
  }

  lemma JoinedEnds(raw: string, nl: string, text: string)
    requires IsNewline(nl)
    ensures var next := Separated(raw, nl) + text;
            raw <= next && (text != "" ==> next != "") && EndsWith(next, text) && Closed(next) == Closed(text)
  {
    var base := Separated(raw, nl);
    SeparatedExtends(raw, nl);
    ClosedAppend(base, text);
    AppendEnds(raw, base, text);
  }

  lemma AppendEnds(raw: string, base: string, text: string)
    requires raw <= base
    ensures raw <= base + text && EndsWith(base + text, text)
  {
    assert (base + text)[|base|..] == text;
  }

  lemma ClosedText(lines: seq<string>)
    requires AllClosed(lines) && lines != []
    ensures Lines(Concat(lines)) == lines && Closed(Concat(lines)) && Concat(lines) != ""
  {
    assert WellSplit(lines);
    LinesJoin(lines);
    ConcatClosed(lines);
  }

  lemma NewTextMeans(x: Syntax, peer: NewPeer, allowed: seq<string>, nl: string)
    requires x.Lawful() && UnbrokenPeer(peer) && ValidPeer(x, peer) && IsNewline(nl)
    requires Canonical(x, allowed) && allowed != []
    ensures var text := Concat(NewLines(peer, allowed, nl));
            && StartsText(text) && Meant(x, text) == OnePeer(NewView(peer, allowed)) && Closed(text) && text != ""
  {
    hide NewLines, NewBody, Summary, ValidPeer, StmtOf, OnePeer, NewView, OpenSum, Lines, Concat, Closed, NoHeader, AllClosed;
    var lines := NewLines(peer, allowed, nl);
    NewLinesMean(peer, allowed, nl);
    assert |lines| == |Stmts(lines)| > 0;
    ClosedText(lines);
    NewBodyMeans(x, peer, allowed);
    BlockSummary(x, PeerSection, NewBody(peer, allowed));
  }

  // ---- Removing and restoring a peer ----

  /** What removing a peer leaves and what it returns for the archive. */
  datatype Removed = Removed(text: string, archived: string)

  function RemoveText(x: Syntax, raw: string, publicKey: string): Result<Removed> {
    var a := AnalysisOf(x, raw);
    match Refusal(a)
    case Some(error) => Err(error)
    case None =>
      match Find(a.peers, publicKey)
      case None => Err(PeerNotFound)
      case Some(peer) =>
        FoundInside(x, raw, publicKey);
        match Parsed(Spliced(Lines(raw), peer, ""))
        case Err(error) => Err(error)
        case Ok(text) => Ok(Removed(text, Concat(Raws(BlockNodes(raw, peer)))))
  }

  predicate UnsafeInArchive(code: Code) {
    code in {DuplicatePeerPublicKey, PeerPublicKeyMissing, PeerPublicKeyInvalid, RepeatedSecretKey}
  }

  predicate ArchiveOf(a: Analysis, publicKey: string) {
    && a.interfaces == 0 && !a.hasUnknown && |a.peers| == 1 && a.peers[0].view.publicKey == publicKey
    && forall i :: 0 <= i < |a.warnings| ==> !UnsafeInArchive(a.warnings[i].code)
  }

  function RestoreText(x: Syntax, raw: string, publicKey: string, archived: string): Result<string> {
    var a := AnalysisOf(x, raw);
    match Refusal(a)
    case Some(error) => Err(error)
    case None =>
      if Find(a.peers, publicKey).Some? then Err(DuplicatePeer)
      else
        match Parsed(archived)
        case Err(error) => Err(error)
        case Ok(block) =>
          if !ArchiveOf(AnalysisOf(x, block), publicKey) then Err(Unsupported)
          else Parsed(Separated(raw, Newline(raw)) + archived)
  }

  /** The text of one block that means one peer. */
  predicate Archived(x: Syntax, text: string, view: PeerView) {
    StartsText(text) && text != "" && Meant(x, text) == OnePeer(view)
  }

  lemma RemoveTextIs(x: Syntax, raw: string, publicKey: string, removed: Removed) returns (peer: Peer, body: seq<Stmt>)
    requires RemoveText(x, raw, publicKey) == Ok(removed)
    ensures Safe(x, Meant(x, raw)) && peer.view.publicKey == publicKey
    ensures Find(AnalysisOf(x, raw).peers, publicKey) == Some(peer) && peer.blockStart < peer.blockEnd <= |Lines(raw)|
    ensures var p := PlaceOf(Lines(raw), peer);
            && Holds(x, p, peer.view, body) && p.before + p.block + p.after == Lines(raw)
            && removed == Removed(Concat(p.before) + Concat(p.after), Concat(p.block))
    ensures OpenSum(x, Open(PeerSection, body)) == OnePeer(peer.view)
  {
    hide AnalysisOf, Find, Meant, Safe, Holds, OpenSum, BlockNodes, Raws, Refusal, PlaceOf, StmtOf;
    RefusalIsUnsafe(x, raw);
    FoundInside(x, raw, publicKey);
    peer, body := Target(x, raw, publicKey);
    BlockIs(raw, peer);
    var p := PlaceOf(Lines(raw), peer);
    NothingAround(Concat(p.before));
  }

  /** A removed block is an archive of its peer. */
  lemma BlockArchived(x: Syntax, block: seq<string>, body: seq<Stmt>, view: PeerView)
    requires WellSplit(block) && Stmts(block) == [Header(PeerSection)] + body && NoHeader(body)
    requires OpenSum(x, Open(PeerSection, body)) == OnePeer(view)
    ensures Archived(x, Concat(block), view)
  {
    LinesJoin(block);
    BlockSummary(x, PeerSection, body);
    assert |block| == |Stmts(block)|;
    LastClosed(block);
  }

  /** Removing a peer returns the lines of its block and leaves the others, and
      the text that is left means the other peers. */
  lemma RemovePeerEffect(x: Syntax, raw: string, publicKey: string, removed: Removed)
    returns (peer: Peer, place: Place, view: PeerView, k: nat)
    requires RemoveText(x, raw, publicKey) == Ok(removed)
    ensures Find(AnalysisOf(x, raw).peers, publicKey) == Some(peer) && peer.blockStart < peer.blockEnd <= |Lines(raw)|
    ensures place == PlaceOf(Lines(raw), peer) && view == peer.view
    ensures Lines(raw) == place.before + place.block + place.after
    ensures Lines(removed.text) == place.before + place.after && removed.archived == Concat(place.block)
    ensures removed.text == Concat(place.before) + Concat(place.after)
    ensures k < |Meant(x, raw).peers| && Meant(x, raw).peers[k] == view && view.publicKey == publicKey
    ensures Meant(x, removed.text).peers == Meant(x, raw).peers[..k] + Meant(x, raw).peers[k + 1..]
    ensures Safe(x, Meant(x, removed.text)) && !Listed(Meant(x, removed.text).peers, publicKey)
    ensures Archived(x, removed.archived, view)
    ensures Closed(raw) ==> Closed(removed.text) && Closed(removed.archived)
  {
    var body;
    peer, body := RemoveTextIs(x, raw, publicKey, removed);
    place, view := PlaceOf(Lines(raw), peer), peer.view;
    PlaceClosed(raw, peer);
    RemovedLines(raw, peer);
    BlockArchived(x, place.block, body, view);
    k := RemoveSum(x, place, view, body);
  }

  lemma RemovedLines(raw: string, peer: Peer)
    requires peer.blockStart < peer.blockEnd <= |Lines(raw)|
    ensures var p := PlaceOf(Lines(raw), peer);
            && Lines(Concat(p.before) + Concat(p.after)) == p.before + p.after
            && (Closed(raw) ==> Closed(Concat(p.before) + Concat(p.after)) && Closed(Concat(p.block)))
  {
    hide Lines, Concat, PlaceOf, Closed, WellSplit, AllClosed;
    var p := PlaceOf(Lines(raw), peer);
    PlaceClosed(raw, peer);
    ReadTwo(p.before, p.after);
    if Closed(raw) {
      ConcatClosed(p.block);
    }
  }

  lemma ReadTwo(a: seq<string>, c: seq<string>)
    requires AllClosed(a) && WellSplit(c)
    ensures Lines(Concat(a) + Concat(c)) == a + c
    ensures Closed(Concat(a) + Concat(c)) <==> AllClosed(c)
  {
    hide Lines;
    assert Concat([]) == "" && AllClosed([]);
    NothingAround(a);
    NothingAround(Concat(a));
    ReadThree(a, [], c);
  }

  lemma RemoveSum(x: Syntax, place: Place, view: PeerView, body: seq<Stmt>) returns (k: nat)
    requires Holds(x, place, view, body)
    requires OpenSum(x, Open(PeerSection, body)) == OnePeer(view)
    requires Safe(x, Summary(x, Stmts(place.before + place.block + place.after)))
    ensures var sum := Summary(x, Stmts(place.before + place.block + place.after));
            var rest := Summary(x, Stmts(place.before + place.after));
            && k < |sum.peers| && sum.peers[k] == view
            && rest.peers == sum.peers[..k] + sum.peers[k + 1..]
            && Safe(x, rest) && !Listed(rest.peers, view.publicKey)
  {
    SumAround(x, place, view, body);
    var a, c := Summary(x, Stmts(place.before)), Summary(x, Stmts(place.after));
    StmtsAppend(place.before, place.after);
    SummaryAppend(x, Stmts(place.before), Stmts(place.after));
    Around(a, view, c);
    DropDistinct(a.peers, view, c.peers);
    k := |a.peers|;
  }

  /** What restoring an archived peer does: the text ends with exactly the
      archived bytes and means the old peers followed by the archived one. */
  lemma RestoreEffect(x: Syntax, raw: string, publicKey: string, archived: string, view: PeerView, next: string)
    requires Archived(x, archived, view) && view.publicKey == publicKey
    requires RestoreText(x, raw, publicKey, archived) == Ok(next)
    ensures raw <= next && EndsWith(next, archived) && next != "" && Closed(next) == Closed(archived)
    ensures Meant(x, next).peers == Meant(x, raw).peers + [view]
    ensures Safe(x, Meant(x, next))
  {
    hide Meant, Safe, Separated, Newline, EndsWith, StartsText, Find, Refusal;
    RefusalIsUnsafe(x, raw);
    FindIs(AnalysisOf(x, raw).peers, publicKey);
    JoinedMeans(x, raw, Newline(raw), archived);
    OneMore(x, Meant(x, raw), view);
    JoinedEnds(raw, Newline(raw), archived);
  }

  /** An archived block is recognised as one. */
  lemma ArchiveAccepted(x: Syntax, archived: string, view: PeerView)
    requires Archived(x, archived, view)
    ensures ArchiveOf(AnalysisOf(x, archived), view.publicKey)
  {
    hide Summary, StartsText, Analyze;
    AnalysisWithoutInterface(x, Lines(archived));
    assert Distinct([view]);
  }

  /** An archived block of a peer the document lacks is refused only for size. */
  lemma RestoreSucceeds(x: Syntax, raw: string, publicKey: string, archived: string, view: PeerView)
    requires Safe(x, Meant(x, raw)) && !Listed(Meant(x, raw).peers, publicKey)
    requires Archived(x, archived, view) && view.publicKey == publicKey
    ensures RestoreText(x, raw, publicKey, archived) == Parsed(Separated(raw, Newline(raw)) + archived)
  {
    hide Meant, Safe, Archived, ArchiveOf, Separated, Newline, Find, Refusal, Bytes;
    RefusalIsUnsafe(x, raw);
    FindIs(AnalysisOf(x, raw).peers, publicKey);
    ArchiveAccepted(x, archived, view);
    BytesAppend(Separated(raw, Newline(raw)), archived);
  }

  /** Restoring what was removed.  It succeeds exactly if the separators it may
      have to add still fit, in particular whenever four bytes are free.  It
      ends the text with the archived bytes, moves the peer last, and gives the
      original bytes back when the block was last and a blank line before it. */
  lemma RemoveThenRestore(x: Syntax, raw: string, publicKey: string, removed: Removed)
    returns (peer: Peer, place: Place, view: PeerView, k: nat)
    requires RemoveText(x, raw, publicKey) == Ok(removed)
    ensures Find(AnalysisOf(x, raw).peers, publicKey) == Some(peer) && peer.blockStart < peer.blockEnd <= |Lines(raw)|
    ensures place == PlaceOf(Lines(raw), peer)
    ensures Lines(raw) == place.before + place.block + place.after
    ensures k < |Meant(x, raw).peers| && Meant(x, raw).peers[k] == view && view.publicKey == publicKey
    ensures var result := RestoreText(x, removed.text, publicKey, removed.archived);
            var added := |Separated(removed.text, Newline(removed.text))| - |removed.text|;
            && 0 <= added <= 4
            && (result.Ok? <==> Bytes(raw) + added <= MAX_BYTES)
            && (result.Ok? ==>
                && EndsWith(result.value, removed.archived)
                && Safe(x, Meant(x, result.value))
                && Meant(x, result.value).peers == Meant(x, raw).peers[..k] + Meant(x, raw).peers[k + 1..] + [view]
                && (place.after == [] && EndsBlank(Concat(place.before)) ==> result.value == raw))
  {
    var text, nl := removed.text, Newline(removed.text);
    peer, place, view, k := RemovePeerEffect(x, raw, publicKey, removed);
    RestoreSucceeds(x, text, publicKey, removed.archived, view);
    RestoredBytes(raw, place, nl);
    var result := RestoreText(x, text, publicKey, removed.archived);
    if result.Ok? {
      RestoreEffect(x, text, publicKey, removed.archived, view, result.value);
    }
  }

  lemma RestoredBytes(raw: string, place: Place, nl: string)
    requires Lines(raw) == place.before + place.block + place.after && IsNewline(nl)
    ensures var text := Concat(place.before) + Concat(place.after);
            var added := |Separated(text, nl)| - |text|;
            && 0 <= added <= 4
            && Bytes(Separated(text, nl) + Concat(place.block)) == Bytes(raw) + added
            && (place.after == [] && EndsBlank(Concat(place.before)) ==> Separated(text, nl) + Concat(place.block) == raw)
  {
    var text := Concat(place.before) + Concat(place.after);
    PlaceBytes(raw, place);
    SeparatedBytes(text, nl);
    BytesAppend(Separated(text, nl), Concat(place.block));
    if place.after == [] {
      assert text == Concat(place.before);
    }
  }

  lemma PlaceBytes(raw: string, place: Place)
    requires Lines(raw) == place.before + place.block + place.after
    ensures raw == Concat(place.before) + Concat(place.block) + Concat(place.after)
    ensures Bytes(raw) == Bytes(Concat(place.before) + Concat(place.after)) + Bytes(Concat(place.block))
    ensures place.after == [] ==> raw == Concat(place.before) + Concat(place.after) + Concat(place.block)
  {
    ConcatLines(raw);
    ConcatThree(place.before, place.block, place.after);
    BytesAppend(Concat(place.before) + Concat(place.block), Concat(place.after));
    BytesAppend(Concat(place.before), Concat(place.block));
    BytesAppend(Concat(place.before), Concat(place.after));
    if place.after == [] {
      assert Concat(place.before) + "" == Concat(place.before);
      assert raw == Concat(place.before) + Concat(place.block) + "";
    }
  }
}
