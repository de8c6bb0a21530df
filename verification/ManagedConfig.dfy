/** The documents WireGate writes itself: where they come from, and what every
    sequence of edits keeps. */
module ManagedConfig {
  import opened Text
  import opened ConfigSyntax
  import opened ConfigMeaning
  import opened ConfigAnalysis
  import opened ConfigPatch
  import opened ConfigDocument
  import opened ConfigPeers

  // ---- A new server configuration ----

  datatype ServerConfig = ServerConfig(operationId: string, privateKey: string, addresses: seq<string>,
                                       listenPort: nat, postUp: string, postDown: string)

  /** Parses an address prefix that is not of length zero and prints it. */
  type AddressPrinter = string -> Option<string>

  function Printed(address: AddressPrinter, values: seq<string>): Option<seq<string>> {
    if values == [] then Some([]) else
      match address(Trim(values[0]))
      case None => None
      case Some(first) =>
        match Printed(address, values[1..])
        case None => None
        case Some(rest) => Some([first] + rest)
  }

  function InterfaceLines(config: ServerConfig, key: string, addresses: string, port: string): seq<string> {
    LineIf(true, "PrivateKey", key, "\n") + LineIf(true, "Address", addresses, "\n")
    + LineIf(true, "ListenPort", port, "\n")
    + LineIf(config.postUp != "", "PostUp", config.postUp, "\n")
    + LineIf(config.postUp != "", "PostDown", config.postDown, "\n")
  }

  function ServerLines(config: ServerConfig, addresses: seq<string>): seq<string> {
    ["# WireGate-Operation: " + config.operationId + "\n", "[Interface]\n"]
    + InterfaceLines(config, Trim(config.privateKey), Join(addresses), Digits(config.listenPort))
  }

  function RenderServerConfig(x: Syntax, address: AddressPrinter, config: ServerConfig): Option<string> {
    if Trim(config.operationId) == "" || !NoBreak(config.operationId) then None
    else if !x.validKey(Trim(config.privateKey)) then None
    else if config.listenPort == 0 || config.addresses == [] then None
    else
      match Printed(address, config.addresses)
      case None => None
      case Some(addresses) =>
        if !NoBreak(config.postUp) || !NoBreak(config.postDown) then None
        else if (config.postUp == "") != (config.postDown == "") then None
        else Some(Concat(ServerLines(config, addresses)))
  }

  lemma InterfaceNames()
    ensures PlainName("PrivateKey") && KeyOf(Lower("PrivateKey")) == PrivateKey
    ensures PlainName("Address") && KeyOf(Lower("Address")) == Address
    ensures PlainName("ListenPort") && KeyOf(Lower("ListenPort")) == ListenPort
  {
    LowerIs("PrivateKey", "privatekey");
    LowerIs("Address", "address");
    LowerIs("ListenPort", "listenport");
  }

  lemma HookNames()
    ensures PlainName("PostUp") && KeyOf(Lower("PostUp")) == PostUp
    ensures PlainName("PostDown") && KeyOf(Lower("PostDown")) == PostDown
  {
    LowerIs("PostUp", "postup");
    LowerIs("PostDown", "postdown");
  }

  lemma InterfaceHeaderLine()
    ensures StmtOf("[Interface]\n") == Header(InterfaceSection) && IsLine("[Interface]\n") && Closed("[Interface]\n")
  {
    hide Trim, Lower, StmtOf;
    assert "[Interface]\n" == "[Interface]" + "\n";
    LineEnded("[Interface]", "\n");
    InterfaceHeaderText();
  }

  lemma InterfaceHeaderText()
    ensures StmtOf("[Interface]") == Header(InterfaceSection)
  {
    hide Trim, Lower;
    TrimTight("[Interface]");
    assert "[Interface]"[1..10] == "Interface";
    TrimTight("Interface");
    LowerIs("Interface", "interface");
  }

  lemma OperationLine(id: string)
    requires NoBreak(id)
    ensures var line := "# WireGate-Operation: " + id + "\n"; StmtOf(line) == Comment && IsLine(line) && Closed(line)
  {
    var line := "# WireGate-Operation: " + id + "\n";
    TrimFirst(line);
    assert NoBreak("# WireGate-Operation: ");
  }

  lemma {:induction false} PrintedBreakFree(address: AddressPrinter, values: seq<string>)
    requires forall s :: address(s).Some? ==> NoBreak(address(s).value)
    requires Printed(address, values).Some?
    ensures forall i :: 0 <= i < |Printed(address, values).value| ==> NoBreak(Printed(address, values).value[i])
  {
    if values != [] {
      PrintedBreakFree(address, values[1..]);
    }
  }

  lemma {:induction false} JoinBreakFree(items: seq<string>)
    requires forall i :: 0 <= i < |items| ==> NoBreak(items[i])
    ensures NoBreak(Join(items))
  {
    if |items| > 1 {
      JoinBreakFree(items[1..]);
    }
  }

  function ServerBody(config: ServerConfig, key: string, addresses: string, port: string): seq<Stmt> {
    StmtIf(true, PrivateKey, key) + StmtIf(true, Address, addresses) + StmtIf(true, ListenPort, port)
    + StmtIf(config.postUp != "", PostUp, Trim(config.postUp))
    + StmtIf(config.postUp != "", PostDown, Trim(config.postDown))
  }

  lemma ServerBodyShape(config: ServerConfig, key: string, addresses: string, port: string)
    ensures NoRaw(ServerBody(config, key, addresses, port)) && NoHeader(ServerBody(config, key, addresses, port))
  {
  }

  lemma ServerBodyKey(config: ServerConfig, key: string, addresses: string, port: string)
    ensures Values(ServerBody(config, key, addresses, port), PrivateKey) == [key]
  {
    var hooks := config.postUp != "";
    var a, b, c := StmtIf(true, PrivateKey, key), StmtIf(true, Address, addresses), StmtIf(true, ListenPort, port);
    var d, e := StmtIf(hooks, PostUp, Trim(config.postUp)), StmtIf(hooks, PostDown, Trim(config.postDown));
    ValuesIf(true, PrivateKey, key, PrivateKey);
    ValuesIf(true, Address, addresses, PrivateKey);
    ValuesIf(true, ListenPort, port, PrivateKey);
    ValuesIf(hooks, PostUp, Trim(config.postUp), PrivateKey);
    ValuesIf(hooks, PostDown, Trim(config.postDown), PrivateKey);
    ValuesFive(a, b, c, d, e, PrivateKey);
    OneOfFive(Values(a, PrivateKey), Values(b, PrivateKey), Values(c, PrivateKey), Values(d, PrivateKey),
              Values(e, PrivateKey));
  }

  lemma ServerBodyMeans(x: Syntax, config: ServerConfig, key: string, addresses: string, port: string)
    requires x.validKey(key)
    ensures var body := ServerBody(config, key, addresses, port);
            OpenSum(x, Open(InterfaceSection, body)) == Sum(1, [key], true, []) && NoHeader(body)
  {
    ServerBodyShape(config, key, addresses, port);
    ServerBodyKey(config, key, addresses, port);
  }

  lemma InterfaceLinesMean(config: ServerConfig, key: string, addresses: string, port: string)
    requires NoBreak(key) && NoBreak(addresses) && NoBreak(port) && NoBreak(config.postUp) && NoBreak(config.postDown)
    ensures Stmts(InterfaceLines(config, key, addresses, port)) ==
            ServerBody(config, Trim(key), Trim(addresses), Trim(port))
    ensures AllClosed(InterfaceLines(config, key, addresses, port))
  {
    InterfaceNames();
    HookNames();
    var a, b := LineIf(true, "PrivateKey", key, "\n"), LineIf(true, "Address", addresses, "\n");
    var c := LineIf(true, "ListenPort", port, "\n");
    var d := LineIf(config.postUp != "", "PostUp", config.postUp, "\n");
    var e := LineIf(config.postUp != "", "PostDown", config.postDown, "\n");
    KeyedLine(true, PrivateKey, "PrivateKey", key, "\n");
    KeyedLine(true, Address, "Address", addresses, "\n");
    KeyedLine(true, ListenPort, "ListenPort", port, "\n");
    KeyedLine(config.postUp != "", PostUp, "PostUp", config.postUp, "\n");
    KeyedLine(config.postUp != "", PostDown, "PostDown", config.postDown, "\n");
    StmtsFive(a, b, c, d, e);
    ClosedFive(a, b, c, d, e);
  }

  lemma ServerLinesMean(config: ServerConfig, addresses: seq<string>)
    requires NoBreak(config.operationId) && NoBreak(Trim(config.privateKey)) && NoBreak(config.postUp) && NoBreak(config.postDown)
    requires NoBreak(Join(addresses)) && config.listenPort <= 65535
    ensures Stmts(ServerLines(config, addresses)) ==
            [Comment, Header(InterfaceSection)]
            + ServerBody(config, Trim(config.privateKey), Trim(Join(addresses)), Digits(config.listenPort))
    ensures AllClosed(ServerLines(config, addresses))
  {
    var head := ["# WireGate-Operation: " + config.operationId + "\n", "[Interface]\n"];
    var lines := InterfaceLines(config, Trim(config.privateKey), Join(addresses), Digits(config.listenPort));
    OperationLine(config.operationId);
    InterfaceHeaderLine();
    TrimOnce(config.privateKey);
    TrimValued(config.privateKey);
    DigitsParse(config.listenPort);
    TrimTight(Digits(config.listenPort));
    InterfaceLinesMean(config, Trim(config.privateKey), Join(addresses), Digits(config.listenPort));
    StmtsAppend(head, lines);
    assert Stmts(head) == [Comment, Header(InterfaceSection)];
  }

  /** Documents that may be edited, and whose every line is ended. */
  predicate Managed(x: Syntax, raw: string) {
    Safe(x, Meant(x, raw)) && Closed(raw)
  }

  /** A rendered configuration is a managed document without peers. */
  lemma RenderIsManaged(x: Syntax, address: AddressPrinter, config: ServerConfig)
    requires forall s :: address(s).Some? ==> NoBreak(address(s).value)
    requires config.listenPort <= 65535 && NoBreak(Trim(config.privateKey))
    requires RenderServerConfig(x, address, config).Some?
    ensures var raw := RenderServerConfig(x, address, config).value;
            Managed(x, raw) && Meant(x, raw) == Sum(1, [Trim(config.privateKey)], true, [])
  {
    var addresses := Printed(address, config.addresses).value;
    var lines := ServerLines(config, addresses);
    var key, port := Trim(config.privateKey), Digits(config.listenPort);
    PrintedBreakFree(address, config.addresses);
    JoinBreakFree(addresses);
    ServerLinesMean(config, addresses);
    ConcatClosed(lines);
    assert WellSplit(lines);
    LinesJoin(lines);
    ServerSum(x, config, key, Trim(Join(addresses)), port);
  }

  lemma EmptySum(x: Syntax)
    ensures Summary(x, []) == ZERO
  {
    NothingRead(x);
  }

  lemma CommentSum(x: Syntax, t: Stmt)
    requires t == Comment
    ensures Summary(x, [t]) == ZERO
  {
    var none: seq<Stmt> := [];
    hide Summary;
    NothingAround([t]);
    EmptySum(x);
    SummarySilent(x, none, t);
  }

  lemma PairThen<T>(first: T, second: T, rest: seq<T>)
    ensures [first, second] + rest == [first] + ([second] + rest)
  {
  }

  lemma ServerSum(x: Syntax, config: ServerConfig, key: string, addresses: string, port: string)
    requires x.validKey(key)
    ensures Summary(x, [Comment, Header(InterfaceSection)] + ServerBody(config, key, addresses, port)) ==
            Sum(1, [key], true, [])
  {
    var body := ServerBody(config, key, addresses, port);
    var first, second: Stmt := Comment, Header(InterfaceSection);
    ServerBodyMeans(x, config, key, addresses, port);
    BlockSummary(x, InterfaceSection, body);
    CommentSum(x, first);
    PairThen(first, second, body);
    SummaryAppend(x, [first], [second] + body);
    AddAssociates(Sum(1, [key], true, []), ZERO, ZERO);
  }

  // ---- Runs of edits ----

  datatype Archive = Archive(publicKey: string, text: string)

  /** A document and the blocks removed from it so far. */
  datatype Store = Store(raw: string, archives: seq<Archive>)

  /** A restore names one of the removed blocks. */
  datatype Edit =
    | Add(peer: NewPeer)
    | Patch(publicKey: string, patch: PeerPatch)
    | Remove(publicKey: string)
    | Restore(archive: nat)

  /** No line breaks in what is written, no white space around keys. */
  predicate CleanEdit(edit: Edit) {
    match edit
    case Add(peer) => UnbrokenPeer(peer) && Tight(peer.publicKey)
    case Patch(_, patch) => Unbroken(patch)
    case _ => true
  }

  /** What one edit makes of the document and the archives, or why it is refused. */
  function EditText(x: Syntax, s: Store, edit: Edit): Result<Store> {
    match edit
    case Add(peer) => (match AddText(x, s.raw, peer) case Ok(raw) => Ok(s.(raw := raw)) case Err(e) => Err(e))
    case Patch(key, patch) => (
      match PatchText(x, s.raw, key, patch) case Ok(raw) => Ok(s.(raw := raw)) case Err(e) => Err(e))
    case Remove(key) => (
      match RemoveText(x, s.raw, key)
      case Ok(removed) => Ok(Store(removed.text, s.archives + [Archive(key, removed.archived)]))
      case Err(e) => Err(e))
    case Restore(k) =>
      if k >= |s.archives| then Err(PeerNotFound)
      else match RestoreText(x, s.raw, s.archives[k].publicKey, s.archives[k].text)
           case Ok(raw) => Ok(s.(raw := raw))
           case Err(e) => Err(e)
  }

  /** One edit; a refused one changes nothing. */
  function Step(x: Syntax, s: Store, edit: Edit): Store {
    match EditText(x, s, edit) case Ok(next) => next case Err(_) => s
  }

  function Run(x: Syntax, s: Store, edits: seq<Edit>): Store {
    if edits == [] then s else Step(x, Run(x, s, edits[..|edits| - 1]), edits[|edits| - 1])
  }

  ghost predicate GoodArchive(x: Syntax, a: Archive) {
    Closed(a.text) && exists view: PeerView :: view.publicKey == a.publicKey && Archived(x, a.text, view)
  }

  ghost predicate GoodStore(x: Syntax, s: Store) {
    Managed(x, s.raw) && forall i :: 0 <= i < |s.archives| ==> GoodArchive(x, s.archives[i])
  }

  lemma TextKeeps(x: Syntax, s: Store, edit: Edit)
    requires x.Lawful() && GoodStore(x, s) && CleanEdit(edit) && (edit.Add? || edit.Patch?)
    ensures GoodStore(x, Step(x, s, edit))
  {
    match edit
    case Add(peer) =>
      var result := AddText(x, s.raw, peer);
      if result.Ok? {
        AddPeerEffect(x, s.raw, peer, result.value);
      }
    case Patch(key, patch) =>
      var result := PatchText(x, s.raw, key, patch);
      if result.Ok? {
        var _, _, _, _ := PatchPeerEffect(x, s.raw, key, patch, result.value);
      }
  }

  lemma RemovedGood(x: Syntax, raw: string, key: string, removed: Removed)
    requires Closed(raw) && RemoveText(x, raw, key) == Ok(removed)
    ensures Managed(x, removed.text) && GoodArchive(x, Archive(key, removed.archived))
  {
    var _, _, view, _ := RemovePeerEffect(x, raw, key, removed);
  }

  lemma RemoveKeeps(x: Syntax, s: Store, key: string)
    requires GoodStore(x, s)
    ensures GoodStore(x, Step(x, s, Remove(key)))
  {
    match RemoveText(x, s.raw, key)
    case Ok(removed) => RemovedGood(x, s.raw, key, removed);
    case Err(_) =>
  }

  lemma RestoreKeeps(x: Syntax, s: Store, k: nat)
    requires GoodStore(x, s)
    ensures GoodStore(x, Step(x, s, Restore(k)))
  {
    if k < |s.archives| {
      var a := s.archives[k];
      assert GoodArchive(x, a);
      var result := RestoreText(x, s.raw, a.publicKey, a.text);
      if result.Ok? {
        var view: PeerView :| view.publicKey == a.publicKey && Archived(x, a.text, view);
        RestoreEffect(x, s.raw, a.publicKey, a.text, view, result.value);
      }
    }
  }

  lemma StepKeeps(x: Syntax, s: Store, edit: Edit)
    requires x.Lawful() && GoodStore(x, s) && CleanEdit(edit)
    ensures GoodStore(x, Step(x, s, edit))
  {
    match edit
    case Add(_) => TextKeeps(x, s, edit);
    case Patch(_, _) => TextKeeps(x, s, edit);
    case Remove(key) => RemoveKeeps(x, s, key);
    case Restore(k) => RestoreKeeps(x, s, k);
  }

  lemma {:induction false} RunKeeps(x: Syntax, s: Store, edits: seq<Edit>)
    requires x.Lawful() && GoodStore(x, s) && forall i :: 0 <= i < |edits| ==> CleanEdit(edits[i])
    ensures GoodStore(x, Run(x, s, edits))
  {
    if edits != [] {
      RunKeeps(x, s, edits[..|edits| - 1]);
      StepKeeps(x, Run(x, s, edits[..|edits| - 1]), edits[|edits| - 1]);
    }
  }

  /** From a rendered configuration, every sequence of edits leads to a document
      that may be edited, has one interface block and distinct peer keys, and
      ends its last line, so that every later patch finds its block ended. */
  lemma ManagedStaysManaged(x: Syntax, address: AddressPrinter, config: ServerConfig, edits: seq<Edit>)
    requires x.Lawful() && forall s :: address(s).Some? ==> NoBreak(address(s).value)
    requires config.listenPort <= 65535 && NoBreak(Trim(config.privateKey))
    requires RenderServerConfig(x, address, config).Some?
    requires forall i :: 0 <= i < |edits| ==> CleanEdit(edits[i])
    ensures var raw := Run(x, Store(RenderServerConfig(x, address, config).value, []), edits).raw;
            && Safe(x, Meant(x, raw)) && Meant(x, raw).interfaces == 1 && Distinct(Meant(x, raw).peers)
            && raw != "" && Closed(raw) && forall publicKey :: BlockEnds(x, raw, publicKey)
  {
    RenderIsManaged(x, address, config);
    RunKeeps(x, Store(RenderServerConfig(x, address, config).value, []), edits);
    EmptySum(x);
  }

  // ---- The registry a document stands for ----

  /** The peers of a document in their order, and the peers taken out of it. */
  datatype Registry = Registry(peers: seq<PeerView>, archived: seq<PeerView>)

  ghost predicate Reflects(x: Syntax, s: Store, r: Registry) {
    && Meant(x, s.raw).peers == r.peers && |s.archives| == |r.archived|
    && forall i :: 0 <= i < |s.archives| ==>
         Archived(x, s.archives[i].text, r.archived[i]) && r.archived[i].publicKey == s.archives[i].publicKey
  }

  predicate ValidPatch(x: Syntax, patch: PeerPatch) {
    && (patch.allowedIPs.Some? ==> Canonicals(x, patch.allowedIPs.value).Some?)
    && (patch.psk.Some? && patch.psk.value != "" ==> x.validKey(Trim(patch.psk.value)))
  }

  predicate Acceptable(x: Syntax, peer: NewPeer) {
    && ValidPeer(x, peer) && Canonicals(x, peer.allowedIPs).Some? && Canonicals(x, peer.allowedIPs).value != []
  }

  /** The edits a registry of peers allows: a key is used once, and only peers
      that are there are changed. */
  predicate Permitted(x: Syntax, r: Registry, edit: Edit) {
    match edit
    case Add(peer) => Acceptable(x, peer) && !Listed(r.peers, peer.publicKey)
    case Patch(key, patch) => ValidPatch(x, patch) && Listed(r.peers, key)
    case Remove(key) => Listed(r.peers, key)
    case Restore(k) => k < |r.archived| && !Listed(r.peers, r.archived[k].publicKey)
  }

  function Position(peers: seq<PeerView>, publicKey: string): (k: nat)
    requires Listed(peers, publicKey)
    ensures k < |peers| && peers[k].publicKey == publicKey
    ensures forall i :: 0 <= i < k ==> peers[i].publicKey != publicKey
  {
    if peers[0].publicKey == publicKey then 0 else
      assert forall i :: 0 < i < |peers| ==> peers[1..][i - 1] == peers[i];
      1 + Position(peers[1..], publicKey)
  }

  /** What an edit means for the registry, without any text. */
  function Register(x: Syntax, r: Registry, edit: Edit): Registry
    requires Permitted(x, r, edit)
  {
    match edit
    case Add(peer) => r.(peers := r.peers + [NewView(peer, Canonicals(x, peer.allowedIPs).value)])
    case Patch(key, patch) =>
      var k := Position(r.peers, key);
      r.(peers := r.peers[k := Patched(x, r.peers[k], patch)])
    case Remove(key) =>
      var k := Position(r.peers, key);
      Registry(r.peers[..k] + r.peers[k + 1..], r.archived + [r.peers[k]])
    case Restore(k) => r.(peers := r.peers + [r.archived[k]])
  }

  lemma PositionIs(peers: seq<PeerView>, k: nat)
    requires Distinct(peers) && k < |peers|
    ensures Listed(peers, peers[k].publicKey) && Position(peers, peers[k].publicKey) == k
  {
  }

  /** A text is changed exactly as its registry is: an edit that succeeds is one
      the registry permits and does to it what the registry says, and one the
      registry permits is refused only for size. */
  lemma EditIsRegistered(x: Syntax, s: Store, r: Registry, edit: Edit)
    requires x.Lawful() && GoodStore(x, s) && CleanEdit(edit) && Reflects(x, s, r)
    ensures EditText(x, s, edit).Ok? ==>
              Permitted(x, r, edit) && Reflects(x, EditText(x, s, edit).value, Register(x, r, edit))
    ensures Permitted(x, r, edit) && EditText(x, s, edit).Err? ==> EditText(x, s, edit).error == TooLarge
  {
    RefusalIsUnsafe(x, s.raw);
    match edit
    case Add(peer) => AddRegistered(x, s, r, peer);
    case Patch(key, patch) => PatchRegistered(x, s, r, key, patch);
    case Remove(key) => RemoveRegistered(x, s, r, key);
    case Restore(k) => RestoreRegistered(x, s, r, k);
  }

  lemma AddRegistered(x: Syntax, s: Store, r: Registry, peer: NewPeer)
    requires x.Lawful() && GoodStore(x, s) && CleanEdit(Add(peer)) && Reflects(x, s, r)
    ensures var result := EditText(x, s, Add(peer));
            && (result.Ok? ==> Permitted(x, r, Add(peer)) && Reflects(x, result.value, Register(x, r, Add(peer))))
            && (Permitted(x, r, Add(peer)) && result.Err? ==> result.error == TooLarge)
  {
    RefusalIsUnsafe(x, s.raw);
    FindIs(AnalysisOf(x, s.raw).peers, peer.publicKey);
    var result := AddText(x, s.raw, peer);
    if result.Ok? {
      AddTextIs(x, s.raw, peer, result.value);
      AddPeerEffect(x, s.raw, peer, result.value);
    }
  }

  lemma PatchRegistered(x: Syntax, s: Store, r: Registry, key: string, patch: PeerPatch)
    requires x.Lawful() && GoodStore(x, s) && CleanEdit(Patch(key, patch)) && Reflects(x, s, r)
    ensures var result := EditText(x, s, Patch(key, patch));
            && (result.Ok? ==> Permitted(x, r, Patch(key, patch)) && Reflects(x, result.value, Register(x, r, Patch(key, patch))))
            && (Permitted(x, r, Patch(key, patch)) && result.Err? ==> result.error == TooLarge)
  {
    RefusalIsUnsafe(x, s.raw);
    FindIs(AnalysisOf(x, s.raw).peers, key);
    var result := PatchText(x, s.raw, key, patch);
    if result.Ok? {
      var _, _, _, k := PatchPeerEffect(x, s.raw, key, patch, result.value);
      PositionIs(r.peers, k);
      PatchTextIs(x, s.raw, key, patch, result.value);
    }
  }

  /** What a removal does, with the place of the peer found by its key. */
  lemma RemovedAt(x: Syntax, raw: string, key: string, removed: Removed)
    requires RemoveText(x, raw, key) == Ok(removed)
    ensures var peers := Meant(x, raw).peers;
            && Listed(peers, key)
            && var k := Position(peers, key);
               && Meant(x, removed.text).peers == peers[..k] + peers[k + 1..]
               && Archived(x, removed.archived, peers[k])
  {
    var peer, _ := RemoveTextIs(x, raw, key, removed);
    var _, _, view, k := RemovePeerEffect(x, raw, key, removed);
    PositionIs(Meant(x, raw).peers, k);
  }

  lemma RemoveRefused(x: Syntax, raw: string, key: string)
    requires Safe(x, Meant(x, raw)) && Listed(Meant(x, raw).peers, key) && RemoveText(x, raw, key).Err?
    ensures RemoveText(x, raw, key).error == TooLarge
  {
    RefusalIsUnsafe(x, raw);
    FindIs(AnalysisOf(x, raw).peers, key);
  }

  lemma OneArchived(x: Syntax, s: Store, r: Registry, raw: string, a: Archive, peers: seq<PeerView>, view: PeerView)
    requires Reflects(x, s, r) && Meant(x, raw).peers == peers
    requires Archived(x, a.text, view) && view.publicKey == a.publicKey
    ensures Reflects(x, Store(raw, s.archives + [a]), Registry(peers, r.archived + [view]))
  {
  }

  lemma GoodFacts(x: Syntax, s: Store, r: Registry)
    requires GoodStore(x, s) && Reflects(x, s, r)
    ensures Safe(x, Meant(x, s.raw)) && Closed(s.raw) && Meant(x, s.raw).peers == r.peers
  {
    hide Safe, Meant, GoodArchive, Archived;
  }

  lemma RemoveRegistered(x: Syntax, s: Store, r: Registry, key: string)
    requires GoodStore(x, s) && Reflects(x, s, r)
    ensures var result := EditText(x, s, Remove(key));
            && (result.Ok? ==> Permitted(x, r, Remove(key)) && Reflects(x, result.value, Register(x, r, Remove(key))))
            && (Permitted(x, r, Remove(key)) && result.Err? ==> result.error == TooLarge)
  {
    hide GoodStore, Reflects, RemoveText, Meant, Archived, Safe;
    GoodFacts(x, s, r);
    match RemoveText(x, s.raw, key)
    case Ok(removed) =>
      RemovedAt(x, s.raw, key, removed);
      var k := Position(r.peers, key);
      OneArchived(x, s, r, removed.text, Archive(key, removed.archived), r.peers[..k] + r.peers[k + 1..], r.peers[k]);
    case Err(_) =>
      if Listed(r.peers, key) {
        RemoveRefused(x, s.raw, key);
      }
  }

  lemma RestoreRegistered(x: Syntax, s: Store, r: Registry, k: nat)
    requires GoodStore(x, s) && Reflects(x, s, r)
    ensures var result := EditText(x, s, Restore(k));
            && (result.Ok? ==> Permitted(x, r, Restore(k)) && Reflects(x, result.value, Register(x, r, Restore(k))))
            && (Permitted(x, r, Restore(k)) && result.Err? ==> result.error == TooLarge)
  {
    if k < |s.archives| {
      var a, view := s.archives[k], r.archived[k];
      assert GoodArchive(x, a);
      RefusalIsUnsafe(x, s.raw);
      FindIs(AnalysisOf(x, s.raw).peers, a.publicKey);
      if !Listed(r.peers, view.publicKey) {
        RestoreSucceeds(x, s.raw, a.publicKey, a.text, view);
      }
      var result := RestoreText(x, s.raw, a.publicKey, a.text);
      if result.Ok? {
        RestoreEffect(x, s.raw, a.publicKey, a.text, view, result.value);
      }
    }
  }

  /** The registry after a run: every edit the document accepts is registered. */
  function Registered(x: Syntax, s: Store, r: Registry, edits: seq<Edit>): Option<Registry> {
    if edits == [] then Some(r) else
      var n := |edits| - 1;
      match Registered(x, s, r, edits[..n])
      case None => None
      case Some(before) =>
        if EditText(x, Run(x, s, edits[..n]), edits[n]).Err? then Some(before)
        else if Permitted(x, before, edits[n]) then Some(Register(x, before, edits[n]))
        else None
  }

  /** Over every sequence of edits the text stands for the registry those edits
      make, and no edit the document accepts is one the registry forbids. */
  lemma {:induction false} RunIsRegistered(x: Syntax, s: Store, r: Registry, edits: seq<Edit>)
    requires x.Lawful() && GoodStore(x, s) && Reflects(x, s, r) && forall i :: 0 <= i < |edits| ==> CleanEdit(edits[i])
    ensures Registered(x, s, r, edits).Some?
    ensures Reflects(x, Run(x, s, edits), Registered(x, s, r, edits).value)
    ensures Distinct(Registered(x, s, r, edits).value.peers)
  {
    RunKeeps(x, s, edits);
    if edits != [] {
      var n := |edits| - 1;
      RunIsRegistered(x, s, r, edits[..n]);
      RunKeeps(x, s, edits[..n]);
      EditIsRegistered(x, Run(x, s, edits[..n]), Registered(x, s, r, edits[..n]).value, edits[n]);
    }
  }
}
