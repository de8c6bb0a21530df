/** The one-pass analysis of a document, and what it computes: the sum of the
    document's blocks. */
module ConfigAnalysis {
  import opened Text
  import opened ConfigSyntax
  import opened ConfigMeaning

  datatype Code =
    | DuplicatePeerPublicKey | PeerPublicKeyMissing | PeerPublicKeyInvalid
    | InterfacePrivateKeyMissing | InterfacePrivateKeyInvalid | RepeatedSecretKey
    | UnknownSection | UnparsedStatement | UnknownInterfaceKey | UnknownPeerKey | AssignmentOutsideSection

  datatype Warning = Warning(line: nat, code: Code)

  datatype Peer = Peer(view: PeerView, blockStart: nat, blockEnd: nat, fields: map<Key, nat>)

  datatype Analysis = Analysis(interfaces: nat, privateKeyPresent: bool, saveConfig: bool, hasHooks: bool,
                               hasUnknown: bool, peers: seq<Peer>, warnings: seq<Warning>)

  const NOTHING := Analysis(0, false, false, false, false, [], [])
  const NO_VIEW := PeerView("", false, [], "", 0)

  /** The analysis while it walks over the nodes. */
  datatype Scan = Scan(analysis: Analysis, current: Option<Peer>, privateKeys: nat)

  predicate Blocking(code: Code) {
    code in {DuplicatePeerPublicKey, PeerPublicKeyMissing, PeerPublicKeyInvalid,
             InterfacePrivateKeyMissing, InterfacePrivateKeyInvalid, RepeatedSecretKey}
  }

  predicate Unblocked(warnings: seq<Warning>) {
    forall i :: 0 <= i < |warnings| ==> !Blocking(warnings[i].code)
  }

  predicate Clean(a: Analysis) {
    !a.hasUnknown && Unblocked(a.warnings)
  }

  predicate AdoptionSafe(a: Analysis) {
    a.interfaces == 1 && Clean(a)
  }

  predicate KnownInterfaceKey(key: Key) {
    key in {PrivateKey, Address, ListenPort, FwMark, Dns, Mtu, Table, PreUp, PostUp, PreDown, PostDown, SaveConfig}
  }

  predicate KnownPeerKey(key: Key) {
    key in {PublicKey, PresharedKey, AllowedIPs, Endpoint, PersistentKeepalive}
  }

  function Warn(a: Analysis, line: nat, code: Code): Analysis {
    a.(warnings := a.warnings + [Warning(line, code)])
  }

  function WarnIf(warn: bool, a: Analysis, line: nat, code: Code): Analysis {
    if warn then Warn(a, line, code) else a
  }

  predicate Taken(peers: seq<Peer>, publicKey: string) {
    exists i :: 0 <= i < |peers| && peers[i].view.publicKey == publicKey
  }

  function FinishPeer(a: Analysis, current: Option<Peer>, end: nat): Analysis {
    match current
    case None => a
    case Some(peer) =>
      if peer.view.publicKey == "" then Warn(a, peer.blockStart + 1, PeerPublicKeyMissing)
      else
        var b := WarnIf(Taken(a.peers, peer.view.publicKey), a, peer.blockStart + 1, DuplicatePeerPublicKey);
        b.(peers := b.peers + [peer.(blockEnd := end)])
  }

  function VisitHeader(scan: Scan, index: nat, section: Section): Scan {
    var a := FinishPeer(scan.analysis, scan.current, index);
    match section
    case InterfaceSection => Scan(a.(interfaces := a.interfaces + 1), None, scan.privateKeys)
    case PeerSection => Scan(a, Some(Peer(NO_VIEW, index, index, map[])), scan.privateKeys)
    case _ => Scan(Warn(a.(hasUnknown := true), index + 1, UnknownSection), None, scan.privateKeys)
  }

  function VisitUnknown(scan: Scan, index: nat, code: Code): Scan {
    scan.(analysis := Warn(scan.analysis.(hasUnknown := true), index + 1, code))
  }

  function VisitInterfaceKey(x: Syntax, scan: Scan, index: nat, key: Key, value: string): Scan {
    var a := WarnIf(!KnownInterfaceKey(key), scan.analysis, index + 1, UnknownInterfaceKey);
    match key
    case PrivateKey =>
      var b :=
        if scan.privateKeys > 0 then Warn(a, index + 1, RepeatedSecretKey)
        else if !x.validKey(Trim(value)) then Warn(a, index + 1, InterfacePrivateKeyInvalid)
        else a.(privateKeyPresent := true);
      Scan(b, scan.current, scan.privateKeys + 1)
    case SaveConfig => scan.(analysis := a.(saveConfig := Lower(Trim(value)) == "true"))
    case PreUp | PostUp | PreDown | PostDown => scan.(analysis := a.(hasHooks := true))
    case _ => scan.(analysis := a)
  }

  /** The view of a peer after one more assignment. */
  function Assigned(x: Syntax, view: PeerView, key: Key, value: string): PeerView {
    match key
    case PublicKey => if x.validKey(Trim(value)) then view.(publicKey := Trim(value)) else view
    case PresharedKey => view.(psk := Trim(value) != "")
    case AllowedIPs => view.(allowed := view.allowed + Items(x, value))
    case Endpoint => view.(endpoint := Trim(value))
    case PersistentKeepalive =>
      (match ParseUint16(Trim(value)) case Some(n) => view.(keepalive := n) case None => view)
    case _ => view
  }

  function VisitPeerKey(x: Syntax, scan: Scan, index: nat, key: Key, value: string): Scan {
    var a := WarnIf(!KnownPeerKey(key), scan.analysis, index + 1, UnknownPeerKey);
    match scan.current
    case None => scan.(analysis := a)
    case Some(peer) =>
      var repeated := key in peer.fields;
      var b := WarnIf(repeated && (key == PublicKey || key == PresharedKey), a, index + 1, RepeatedSecretKey);
      var c := WarnIf(key == PublicKey && !x.validKey(Trim(value)), b, index + 1, PeerPublicKeyInvalid);
      var fields := if repeated then peer.fields else peer.fields[key := index];
      Scan(c, Some(peer.(fields := fields, view := Assigned(x, peer.view, key, value))), scan.privateKeys)
  }

  function Visit(x: Syntax, scan: Scan, index: nat, node: Node): Scan {
    match node.kind
    case SectionHeader => VisitHeader(scan, index, SectionOf(node.section))
    case RawLine => VisitUnknown(scan, index, UnparsedStatement)
    case Assignment => (
      match SectionOf(node.section)
      case InterfaceSection => VisitInterfaceKey(x, scan, index, KeyOf(node.key), node.value)
      case PeerSection => VisitPeerKey(x, scan, index, KeyOf(node.key), node.value)
      case _ => VisitUnknown(scan, index, AssignmentOutsideSection))
    case _ => scan
  }

  function ScanNodes(x: Syntax, nodes: seq<Node>): Scan {
    if nodes == [] then Scan(NOTHING, None, 0)
    else Visit(x, ScanNodes(x, nodes[..|nodes| - 1]), |nodes| - 1, nodes[|nodes| - 1])
  }

  function Finish(scan: Scan, end: nat): Analysis {
    var a := FinishPeer(scan.analysis, scan.current, end);
    WarnIf(a.interfaces == 1 && scan.privateKeys == 0, a, 0, InterfacePrivateKeyMissing)
  }

  function Analyze(x: Syntax, nodes: seq<Node>): Analysis {
    Finish(ScanNodes(x, nodes), |nodes|)
  }

  function Views(peers: seq<Peer>): (views: seq<PeerView>)
    ensures |views| == |peers|
    ensures forall i :: 0 <= i < |peers| ==> views[i] == peers[i].view
  {
    seq(|peers|, i requires 0 <= i < |peers| => peers[i].view)
  }

  // ---- What the analysis computes ----

  function PrivateKeys(done: Sum, o: Open): seq<string> {
    done.privateKeys + (if o.section.InterfaceSection? then Values(o.body, PrivateKey) else [])
  }

  predicate OnceValid(x: Syntax, keys: seq<string>) {
    keys != [] ==> |keys| == 1 && x.validKey(keys[0])
  }

  /** The state of the scan after blocks summing up to `done` and the open block. */
  ghost predicate Agrees(x: Syntax, scan: Scan, done: Sum, o: Open) {
    && scan.analysis.interfaces == done.interfaces + (if o.section.InterfaceSection? then 1 else 0)
    && scan.privateKeys == |PrivateKeys(done, o)|
    && Views(scan.analysis.peers) == done.peers
    && (Clean(scan.analysis) <==>
        done.ok && OpenOk(x, o) && OnceValid(x, PrivateKeys(done, o)) && Distinct(done.peers))
    && (scan.current.Some? <==> o.section.PeerSection?)
    && (scan.current.Some? ==> PeerAgrees(x, scan.current.value, o.body))
  }

  ghost predicate PeerAgrees(x: Syntax, peer: Peer, body: seq<Stmt>) {
    && peer.view == ViewOf(x, body)
    && (PublicKey in peer.fields <==> Values(body, PublicKey) != [])
    && (PresharedKey in peer.fields <==> Values(body, PresharedKey) != [])
  }

  lemma UnblockedAppend(a: Analysis, line: nat, code: Code)
    ensures Unblocked(Warn(a, line, code).warnings) == (Unblocked(a.warnings) && !Blocking(code))
  {
    var w := Warn(a, line, code).warnings;
    assert w[|a.warnings|] == Warning(line, code);
    assert forall i :: 0 <= i < |a.warnings| ==> w[i] == a.warnings[i];
  }

  lemma DistinctAppend(peers: seq<PeerView>, view: PeerView)
    ensures Distinct(peers + [view]) <==>
            Distinct(peers) && forall i :: 0 <= i < |peers| ==> peers[i].publicKey != view.publicKey
  {
    var all := peers + [view];
    assert all[|peers|] == view;
    assert forall i :: 0 <= i < |peers| ==> all[i] == peers[i];
    if Distinct(all) {
      forall i | 0 <= i < |peers| ensures peers[i].publicKey != view.publicKey {
        assert all[i].publicKey != all[|peers|].publicKey;
      }
      assert Distinct(peers) by {
        forall i, j | 0 <= i < j < |peers| ensures peers[i].publicKey != peers[j].publicKey {
          assert all[i].publicKey != all[j].publicKey;
        }
      }
    }
  }

  lemma FinishPeerViews(a: Analysis, peer: Peer, end: nat)
    ensures var b := FinishPeer(a, Some(peer), end);
            && b.interfaces == a.interfaces
            && Views(b.peers) == Views(a.peers) + (if peer.view.publicKey == "" then [] else [peer.view])
            && (Distinct(Views(a.peers)) ==>
                (Clean(b) <==> Clean(a) && peer.view.publicKey != "" && Distinct(Views(b.peers))))
            && (Clean(b) ==> Clean(a))
  {
    var views := Views(a.peers);
    var b := FinishPeer(a, Some(peer), end);
    if peer.view.publicKey == "" {
      UnblockedAppend(a, peer.blockStart + 1, PeerPublicKeyMissing);
      assert views + [] == views;
    } else {
      UnblockedAppend(a, peer.blockStart + 1, DuplicatePeerPublicKey);
      DistinctAppend(views, peer.view);
      assert Views(b.peers) == views + [peer.view];
      if i :| 0 <= i < |a.peers| && a.peers[i].view.publicKey == peer.view.publicKey {
        assert views[i] == a.peers[i].view;
      }
    }
  }

  /** Closing the open block adds it to the sum. */
  lemma FinishAgrees(x: Syntax, scan: Scan, done: Sum, o: Open, end: nat)
    requires Agrees(x, scan, done, o)
    ensures var a := FinishPeer(scan.analysis, scan.current, end);
            var sum := Add(done, OpenSum(x, o));
            && a.interfaces == sum.interfaces && Views(a.peers) == sum.peers
            && PrivateKeys(done, o) == sum.privateKeys
            && (Clean(a) <==> sum.ok && OnceValid(x, sum.privateKeys) && Distinct(sum.peers))
  {
    var sum := OpenSum(x, o);
    if o.section.PeerSection? {
      var peer := scan.current.value;
      FinishPeerViews(scan.analysis, peer, end);
      if peer.view.publicKey != "" {
        DistinctAppend(done.peers, peer.view);
      }
      assert sum.ok <==> OpenOk(x, o) && peer.view.publicKey != "";
    } else {
      assert sum.ok <==> OpenOk(x, o);
      assert done.peers + sum.peers == done.peers;
    }
  }

  lemma HeaderAgrees(x: Syntax, scan: Scan, done: Sum, o: Open, index: nat, section: Section)
    requires Agrees(x, scan, done, o) && section != NoSection
    ensures Agrees(x, VisitHeader(scan, index, section), Add(done, OpenSum(x, o)), Open(section, []))
  {
    FinishAgrees(x, scan, done, o, index);
    var a := FinishPeer(scan.analysis, scan.current, index);
    UnblockedAppend(a.(hasUnknown := true), index + 1, UnknownSection);
    var sum := Add(done, OpenSum(x, o));
    assert PrivateKeys(sum, Open(section, [])) == sum.privateKeys;
  }

  lemma ValuesStep(body: seq<Stmt>, t: Stmt, key: Key)
    ensures Values(body + [t], key) == Values(body, key) + (if t.Assign? && t.key == key then [t.value] else [])
  {
    assert (body + [t])[..|body|] == body;
  }

  lemma LastStep(x: Syntax, values: seq<string>, v: string)
    ensures LastOr(values + [v], "") == v
    ensures PeerKey(x, values + [v]) == if x.validKey(v) then v else PeerKey(x, values)
    ensures Allowed(x, values + [v]) == Allowed(x, values) + Items(x, v)
    ensures Keepalive(values + [v]) == match ParseUint16(v) case Some(n) => n case None => Keepalive(values)
  {
    assert (values + [v])[..|values|] == values;
  }

  lemma OtherValues(body: seq<Stmt>, key: Key, value: string, other: Key)
    ensures Values(body + [Assign(key, value)], other) ==
            if other == key then Values(body, key) + [value] else Values(body, other)
  {
    ValuesStep(body, Assign(key, value), other);
  }

  lemma ItemsTrim(x: Syntax, value: string)
    ensures Items(x, Trim(value)) == Items(x, value)
  {
    var a, b := TrimSplit(value);
    ItemsPad(x, a, Trim(value), b);
  }

  function ViewFrom(x: Syntax, keys: seq<string>, psks: seq<string>, lists: seq<string>, endpoints: seq<string>,
                    keepalives: seq<string>): PeerView {
    PeerView(PeerKey(x, keys), LastOr(psks, "") != "", Allowed(x, lists), LastOr(endpoints, ""), Keepalive(keepalives))
  }

  function With(values: seq<string>, present: bool, value: string): seq<string> {
    if present then values + [value] else values
  }

  lemma AssignedFrom(x: Syntax, key: Key, value: string, keys: seq<string>, psks: seq<string>, lists: seq<string>,
                     endpoints: seq<string>, keepalives: seq<string>)
    ensures ViewFrom(x, With(keys, key == PublicKey, Trim(value)), With(psks, key == PresharedKey, Trim(value)),
                     With(lists, key == AllowedIPs, Trim(value)), With(endpoints, key == Endpoint, Trim(value)),
                     With(keepalives, key == PersistentKeepalive, Trim(value))) ==
            Assigned(x, ViewFrom(x, keys, psks, lists, endpoints, keepalives), key, value)
  {
    hide Trim, Items, LastOr, PeerKey, Allowed, Keepalive, ParseUint16;
    match key
    case PublicKey => LastStep(x, keys, Trim(value));
    case PresharedKey => LastStep(x, psks, Trim(value));
    case AllowedIPs =>
      LastStep(x, lists, Trim(value));
      ItemsTrim(x, value);
    case Endpoint => LastStep(x, endpoints, Trim(value));
    case PersistentKeepalive => LastStep(x, keepalives, Trim(value));
    case _ =>
  }

  /** A block that was read so far, with one more assignment. */
  lemma AssignedView(x: Syntax, body: seq<Stmt>, key: Key, value: string)
    ensures ViewOf(x, body + [Assign(key, Trim(value))]) == Assigned(x, ViewOf(x, body), key, value)
  {
    var v := Trim(value);
    OtherValues(body, key, v, PublicKey);
    OtherValues(body, key, v, PresharedKey);
    OtherValues(body, key, v, AllowedIPs);
    OtherValues(body, key, v, Endpoint);
    OtherValues(body, key, v, PersistentKeepalive);
    AssignedFrom(x, key, value, Values(body, PublicKey), Values(body, PresharedKey), Values(body, AllowedIPs),
                 Values(body, Endpoint), Values(body, PersistentKeepalive));
  }

  lemma IdentityStep(x: Syntax, body: seq<Stmt>, key: Key, value: string)
    ensures IdentityOk(x, body + [Assign(key, value)]) <==>
            && IdentityOk(x, body)
            && (key == PublicKey ==> Values(body, PublicKey) == [] && x.validKey(value))
            && (key == PresharedKey ==> Values(body, PresharedKey) == [])
  {
    ValuesStep(body, Assign(key, value), PublicKey);
    ValuesStep(body, Assign(key, value), PresharedKey);
  }

  lemma PeerKeyClean(x: Syntax, scan: Scan, index: nat, key: Key, value: string)
    requires scan.current.Some?
    ensures var a := VisitPeerKey(x, scan, index, key, value).analysis;
            && a.(warnings := scan.analysis.warnings) == scan.analysis
            && (Clean(a) <==>
                && Clean(scan.analysis)
                && (key == PublicKey ==> key !in scan.current.value.fields && x.validKey(Trim(value)))
                && (key == PresharedKey ==> key !in scan.current.value.fields))
  {
    hide Trim, Assigned, KnownPeerKey;
    var a := WarnIf(!KnownPeerKey(key), scan.analysis, index + 1, UnknownPeerKey);
    UnblockedAppend(scan.analysis, index + 1, UnknownPeerKey);
    UnblockedAppend(a, index + 1, RepeatedSecretKey);
    var repeated := key in scan.current.value.fields;
    var b := WarnIf(repeated && (key == PublicKey || key == PresharedKey), a, index + 1, RepeatedSecretKey);
    UnblockedAppend(b, index + 1, PeerPublicKeyInvalid);
  }

  lemma PeerKeyPeer(x: Syntax, scan: Scan, index: nat, key: Key, value: string, body: seq<Stmt>)
    requires scan.current.Some? && PeerAgrees(x, scan.current.value, body)
    ensures var next := VisitPeerKey(x, scan, index, key, value);
            next.current.Some? && PeerAgrees(x, next.current.value, body + [Assign(key, Trim(value))])
  {
    AssignedView(x, body, key, value);
    ValuesStep(body, Assign(key, Trim(value)), PublicKey);
    ValuesStep(body, Assign(key, Trim(value)), PresharedKey);
  }

  lemma PeerKeyOk(x: Syntax, body: seq<Stmt>, key: Key, value: string)
    ensures OpenOk(x, Open(PeerSection, body + [Assign(key, value)])) <==>
            && OpenOk(x, Open(PeerSection, body))
            && (key == PublicKey ==> Values(body, PublicKey) == [] && x.validKey(value))
            && (key == PresharedKey ==> Values(body, PresharedKey) == [])
  {
    IdentityStep(x, body, key, value);
    BodyAppend(body, [Assign(key, value)]);
  }

  lemma PeerKeyAgrees(x: Syntax, scan: Scan, done: Sum, o: Open, index: nat, key: Key, value: string)
    requires Agrees(x, scan, done, o) && o.section == PeerSection
    ensures Agrees(x, VisitPeerKey(x, scan, index, key, value), done,
                   Open(PeerSection, o.body + [Assign(key, Trim(value))]))
  {
    var t := Assign(key, Trim(value));
    PeerKeyClean(x, scan, index, key, value);
    PeerKeyPeer(x, scan, index, key, value, o.body);
    PeerKeyOk(x, o.body, key, Trim(value));
    assert PrivateKeys(done, Open(o.section, o.body + [t])) == PrivateKeys(done, o);
  }

  lemma InterfaceKeyClean(x: Syntax, scan: Scan, index: nat, key: Key, value: string)
    ensures var next := VisitInterfaceKey(x, scan, index, key, value);
            && next.current == scan.current
            && next.analysis.interfaces == scan.analysis.interfaces && next.analysis.peers == scan.analysis.peers
            && next.privateKeys == scan.privateKeys + (if key == PrivateKey then 1 else 0)
            && (Clean(next.analysis) <==>
                Clean(scan.analysis) && (key == PrivateKey ==> scan.privateKeys == 0 && x.validKey(Trim(value))))
  {
    var a := WarnIf(!KnownInterfaceKey(key), scan.analysis, index + 1, UnknownInterfaceKey);
    UnblockedAppend(scan.analysis, index + 1, UnknownInterfaceKey);
    UnblockedAppend(a, index + 1, RepeatedSecretKey);
    UnblockedAppend(a, index + 1, InterfacePrivateKeyInvalid);
  }

  lemma InterfaceKeyAgrees(x: Syntax, scan: Scan, done: Sum, o: Open, index: nat, key: Key, value: string)
    requires Agrees(x, scan, done, o) && o.section == InterfaceSection
    ensures Agrees(x, VisitInterfaceKey(x, scan, index, key, value), done,
                   Open(InterfaceSection, o.body + [Assign(key, Trim(value))]))
  {
    var t := Assign(key, Trim(value));
    InterfaceKeyClean(x, scan, index, key, value);
    ValuesStep(o.body, t, PrivateKey);
    BodyAppend(o.body, [t]);
    var keys := PrivateKeys(done, o);
    assert PrivateKeys(done, Open(InterfaceSection, o.body + [t])) ==
           keys + (if key == PrivateKey then [Trim(value)] else []);
  }

  /** What is neither a header nor an assignment says nothing about a peer. */
  lemma SilentView(x: Syntax, body: seq<Stmt>, t: Stmt)
    requires !t.Assign?
    ensures ViewOf(x, body + [t]) == ViewOf(x, body)
    ensures forall key :: Values(body + [t], key) == Values(body, key)
  {
    forall key ensures Values(body + [t], key) == Values(body, key) {
      ValuesStep(body, t, key);
    }
  }

  lemma UnknownAgrees(x: Syntax, scan: Scan, done: Sum, o: Open, index: nat, code: Code, t: Stmt)
    requires Agrees(x, scan, done, o)
    requires t.Raw? || (t.Assign? && (o.section.NoSection? || o.section.OtherSection?))
    ensures Agrees(x, VisitUnknown(scan, index, code), done, Open(o.section, o.body + [t]))
  {
    hide Values, ViewOf, Unblocked;
    BodyAppend(o.body, [t]);
    assert [t][0] == t;
    if !t.Assign? {
      SilentView(x, o.body, t);
    }
  }

  lemma SilentOk(x: Syntax, o: Open, t: Stmt)
    requires t.Blank? || t.Comment?
    ensures OpenOk(x, Open(o.section, o.body + [t])) == OpenOk(x, o)
  {
    BodyAppend(o.body, [t]);
    ValuesStep(o.body, t, PublicKey);
    ValuesStep(o.body, t, PresharedKey);
  }

  lemma SilentAgrees(x: Syntax, scan: Scan, done: Sum, o: Open, t: Stmt)
    requires Agrees(x, scan, done, o) && (t.Blank? || t.Comment?)
    ensures Agrees(x, scan, done, Open(o.section, o.body + [t]))
  {
    SilentOk(x, o, t);
    SilentView(x, o.body, t);
    assert PrivateKeys(done, Open(o.section, o.body + [t])) == PrivateKeys(done, o);
  }

  /** The section name a node carries stands for the section of the open block. */
  predicate InSection(name: string, section: Section) {
    SectionOf(name) == (if section.NoSection? then OtherSection("") else section)
  }

  lemma VisitAgrees(x: Syntax, scan: Scan, done: Sum, o: Open, index: nat, node: Node)
    requires Agrees(x, scan, done, o)
    requires node.kind.SectionHeader? || InSection(node.section, o.section)
    ensures var t := Named(Meaning(node));
            var next := Visit(x, scan, index, node);
            if t.Header? then Agrees(x, next, Add(done, OpenSum(x, o)), Open(t.section, []))
            else Agrees(x, next, done, Open(o.section, o.body + [t]))
  {
    var t := Named(Meaning(node));
    match node.kind
    case SectionHeader => HeaderAgrees(x, scan, done, o, index, t.section);
    case RawLine => UnknownAgrees(x, scan, done, o, index, UnparsedStatement, t);
    case Assignment =>
      if o.section == InterfaceSection {
        InterfaceKeyAgrees(x, scan, done, o, index, KeyOf(node.key), node.value);
      } else if o.section == PeerSection {
        PeerKeyAgrees(x, scan, done, o, index, KeyOf(node.key), node.value);
      } else {
        UnknownAgrees(x, scan, done, o, index, AssignmentOutsideSection, t);
      }
    case _ => SilentAgrees(x, scan, done, o, t);
  }

  lemma ParseStep(lines: seq<string>)
    requires lines != []
    ensures var n := |lines| - 1;
            var node := ParseLine(lines[n], SectionAfter(ParseNodes(lines[..n])));
            && ParseNodes(lines) == ParseNodes(lines[..n]) + [node]
            && SectionAfter(ParseNodes(lines)) == node.section
            && Meaning(node) == Classify(Trim(lines[n]))
            && (!Meaning(node).Header? ==> node.section == SectionAfter(ParseNodes(lines[..n])))
  {
    LineMeaning(lines[|lines| - 1], SectionAfter(ParseNodes(lines[..|lines| - 1])));
  }

  lemma StmtsStep(lines: seq<string>, line: string)
    ensures Stmts(lines + [line]) == Stmts(lines) + [StmtOf(line)]
  {
  }

  lemma ScanStep(x: Syntax, nodes: seq<Node>, node: Node)
    ensures ScanNodes(x, nodes + [node]) == Visit(x, ScanNodes(x, nodes), |nodes|, node)
  {
    assert (nodes + [node])[..|nodes|] == nodes;
  }

  /** The statements read, the last block still open. */
  ghost predicate Reading(x: Syntax, scan: Scan, name: string, s: seq<Stmt>, before: seq<Open>, o: Open) {
    Blocks(s) == before + [o] && Agrees(x, scan, Total(Sums(x, before)), o) && InSection(name, o.section)
  }

  lemma BlocksOpen(x: Syntax, s: seq<Stmt>, before: seq<Open>, o: Open, t: Stmt) returns (next: seq<Open>, last: Open)
    requires Blocks(s) == before + [o]
    ensures Blocks(s + [t]) == next + [last]
    ensures if t.Header?
            then last == Open(t.section, []) && Total(Sums(x, next)) == Add(Total(Sums(x, before)), OpenSum(x, o))
            else last == Open(o.section, o.body + [t]) && next == before
  {
    BlocksStep(s, t);
    assert (before + [o])[..|before|] == before;
    if t.Header? {
      SumsAppend(x, before, [o]);
      TotalOne(x, o);
      next, last := before + [o], Open(t.section, []);
    } else {
      next, last := before, Open(o.section, o.body + [t]);
    }
  }

  lemma ReadingStep(x: Syntax, scan: Scan, name: string, s: seq<Stmt>, before: seq<Open>, o: Open,
                    node: Node) returns (next: seq<Open>, last: Open)
    requires Reading(x, scan, name, s, before, o)
    requires !Meaning(node).Header? ==> node.section == name
    ensures Reading(x, Visit(x, scan, |s|, node), node.section, s + [Named(Meaning(node))], next, last)
  {
    VisitAgrees(x, scan, Total(Sums(x, before)), o, |s|, node);
    next, last := BlocksOpen(x, s, before, o, Named(Meaning(node)));
  }

  lemma {:induction false} ScanAgrees(x: Syntax, lines: seq<string>) returns (before: seq<Open>, o: Open)
    ensures Reading(x, ScanNodes(x, ParseNodes(lines)), SectionAfter(ParseNodes(lines)), Stmts(lines), before, o)
  {
    if lines == [] {
      before, o := [], Open(NoSection, []);
      assert SectionOf("") == OtherSection("");
    } else {
      var n := |lines| - 1;
      var nodes := ParseNodes(lines[..n]);
      var node := ParseLine(lines[n], SectionAfter(nodes));
      before, o := ScanAgrees(x, lines[..n]);
      ParseStep(lines);
      ScanStep(x, nodes, node);
      StmtsStep(lines[..n], lines[n]);
      FrontAndLast(lines);
      before, o := ReadingStep(x, ScanNodes(x, nodes), SectionAfter(nodes), Stmts(lines[..n]), before, o, node);
    }
  }

  lemma SummaryOfBlocks(x: Syntax, s: seq<Stmt>, before: seq<Open>, o: Open)
    requires Blocks(s) == before + [o]
    ensures Summary(x, s) == Add(Total(Sums(x, before)), OpenSum(x, o))
  {
    SumsAppend(x, before, [o]);
    TotalOne(x, o);
  }

  lemma FinishSafe(scan: Scan, end: nat)
    ensures var a := FinishPeer(scan.analysis, scan.current, end);
            var b := Finish(scan, end);
            && b.interfaces == a.interfaces && b.peers == a.peers
            && (AdoptionSafe(b) <==> a.interfaces == 1 && Clean(a) && scan.privateKeys > 0)
  {
    var a := FinishPeer(scan.analysis, scan.current, end);
    UnblockedAppend(a, 0, InterfacePrivateKeyMissing);
  }

  /** The analysis walks once over the lines with a dozen flags; what it finds is
      the sum of the blocks.  In particular `AdoptionSafe` accepts exactly the
      documents that have one interface block with one valid private key, no
      unknown section or statement, and distinct, valid, once-given peer keys. */
  lemma AnalysisIsSummary(x: Syntax, lines: seq<string>)
    ensures var a := Analyze(x, ParseNodes(lines));
            var sum := Summary(x, Stmts(lines));
            && Views(a.peers) == sum.peers
            && a.interfaces == sum.interfaces
            && (AdoptionSafe(a) <==> Safe(x, sum))
  {
    var before, o := ScanAgrees(x, lines);
    var scan := ScanNodes(x, ParseNodes(lines));
    FinishAgrees(x, scan, Total(Sums(x, before)), o, |lines|);
    SummaryOfBlocks(x, Stmts(lines), before, o);
    FinishSafe(scan, |lines|);
  }

  /** The same for a text without an interface section, such as one peer block. */
  lemma AnalysisWithoutInterface(x: Syntax, lines: seq<string>)
    requires Summary(x, Stmts(lines)).interfaces == 0
    ensures var a := Analyze(x, ParseNodes(lines));
            var sum := Summary(x, Stmts(lines));
            && a.interfaces == 0 && Views(a.peers) == sum.peers
            && (Clean(a) <==> sum.ok && OnceValid(x, sum.privateKeys) && Distinct(sum.peers))
  {
    var before, o := ScanAgrees(x, lines);
    var scan := ScanNodes(x, ParseNodes(lines));
    FinishAgrees(x, scan, Total(Sums(x, before)), o, |lines|);
    SummaryOfBlocks(x, Stmts(lines), before, o);
  }

  // ---- Where the peers are ----

  type Reader = seq<Stmt> -> PeerView

  /** `read` describes a block as the analysis does, one statement at a time. */
  ghost predicate Reads(x: Syntax, read: Reader) {
    && read([]) == NO_VIEW
    && (forall body: seq<Stmt>, key: Key, value: string {:trigger Assigned(x, read(body), key, value)} ::
          read(body + [Assign(key, Trim(value))]) == Assigned(x, read(body), key, value))
    && (forall body: seq<Stmt>, t: Stmt {:trigger read(body + [t])} :: !t.Assign? ==> read(body + [t]) == read(body))
  }

  function ViewReader(x: Syntax): Reader {
    body => ViewOf(x, body)
  }

  lemma ViewsAreRead(x: Syntax)
    ensures Reads(x, ViewReader(x))
  {
    var read := ViewReader(x);
    assert Values([], PublicKey) == [];
    forall body, key, value
      ensures read(body + [Assign(key, Trim(value))]) == Assigned(x, read(body), key, value)
    {
      AssignedView(x, body, key, value);
    }
    forall body, t: Stmt | !t.Assign? ensures read(body + [t]) == read(body) {
      SilentView(x, body, t);
    }
  }

  /** The statements `start..end` are a peer header and a body. */
  ghost predicate PeerBlock(s: seq<Stmt>, start: nat, end: nat) {
    start < end <= |s| && s[start] == Header(PeerSection) && NoHeader(s[start + 1..end])
  }

  /** The peer was read from the block of statements `start..end`. */
  ghost predicate PlacedPeer(read: Reader, s: seq<Stmt>, peer: Peer, end: nat) {
    && PeerBlock(s, peer.blockStart, end)
    && peer.view == read(s[peer.blockStart + 1..end])
  }

  /** The peer's block is followed by the next header or by the end. */
  ghost predicate Delimited(read: Reader, s: seq<Stmt>, peer: Peer) {
    PlacedPeer(read, s, peer, peer.blockEnd) && (peer.blockEnd < |s| ==> s[peer.blockEnd].Header?)
  }

  ghost predicate PlacedPeers(read: Reader, s: seq<Stmt>, peers: seq<Peer>) {
    forall i :: 0 <= i < |peers| ==> Delimited(read, s, peers[i])
  }

  ghost predicate Placed(read: Reader, scan: Scan, name: string, s: seq<Stmt>) {
    && PlacedPeers(read, s, scan.analysis.peers)
    && (forall i :: 0 <= i < |scan.analysis.peers| ==> scan.analysis.peers[i].blockEnd < |s|)
    && (scan.current.Some? ==> PlacedPeer(read, s, scan.current.value, |s|) && SectionOf(name) == PeerSection)
  }

  lemma PlacedLonger(read: Reader, s: seq<Stmt>, t: Stmt, peers: seq<Peer>)
    requires PlacedPeers(read, s, peers)
    requires t.Header? || forall i :: 0 <= i < |peers| ==> peers[i].blockEnd < |s|
    ensures PlacedPeers(read, s + [t], peers)
  {
    forall i | 0 <= i < |peers| ensures Delimited(read, s + [t], peers[i]) {
      var start, end := peers[i].blockStart, peers[i].blockEnd;
      assert (s + [t])[start + 1..end] == s[start + 1..end];
    }
  }

  lemma FinishPlaced(read: Reader, a: Analysis, current: Option<Peer>, s: seq<Stmt>)
    requires PlacedPeers(read, s, a.peers)
    requires current.Some? ==> PlacedPeer(read, s, current.value, |s|)
    ensures PlacedPeers(read, s, FinishPeer(a, current, |s|).peers)
  {
    if current.Some? {
      var peer := current.value.(blockEnd := |s|);
      assert Delimited(read, s, peer);
      var b := FinishPeer(a, current, |s|);
      assert b.peers == a.peers || b.peers == a.peers + [peer];
    }
  }

  /** The current peer's block grows by a statement that is not a header. */
  lemma CurrentGrows(read: Reader, s: seq<Stmt>, peer: Peer, grown: Peer, t: Stmt)
    requires PlacedPeer(read, s, peer, |s|) && !t.Header? && grown.blockStart == peer.blockStart
    requires read(s[peer.blockStart + 1..|s|] + [t]) == grown.view
    ensures PlacedPeer(read, s + [t], grown, |s| + 1)
  {
    SliceGrows(s, t, peer.blockStart + 1);
    BodyAppend(s[peer.blockStart + 1..|s|], [t]);
  }

  lemma SilentlyGrows(x: Syntax, read: Reader, s: seq<Stmt>, peer: Peer, t: Stmt)
    requires Reads(x, read) && PlacedPeer(read, s, peer, |s|) && !t.Header? && !t.Assign?
    ensures PlacedPeer(read, s + [t], peer, |s| + 1)
  {
    var body := s[peer.blockStart + 1..|s|];
    assert read(body + [t]) == read(body);
    CurrentGrows(read, s, peer, peer, t);
  }

  lemma PlacedPeerKey(x: Syntax, read: Reader, scan: Scan, s: seq<Stmt>, key: Key, value: string)
    requires Reads(x, read) && scan.current.Some? && PlacedPeer(read, s, scan.current.value, |s|)
    ensures var next := VisitPeerKey(x, scan, |s|, key, value);
            next.current.Some? && PlacedPeer(read, s + [Assign(key, Trim(value))], next.current.value, |s| + 1)
  {
    var peer := scan.current.value;
    var grown := VisitPeerKey(x, scan, |s|, key, value).current.value;
    assert grown.blockStart == peer.blockStart && grown.view == Assigned(x, peer.view, key, value);
    CurrentGrows(read, s, peer, grown, Assign(key, Trim(value)));
  }

  lemma PlacedHeader(x: Syntax, read: Reader, scan: Scan, name: string, s: seq<Stmt>, section: string)
    requires Reads(x, read) && Placed(read, scan, name, s)
    ensures Placed(read, VisitHeader(scan, |s|, SectionOf(section)), section, s + [Header(SectionOf(section))])
  {
    var t := Header(SectionOf(section));
    var a := FinishPeer(scan.analysis, scan.current, |s|);
    FinishPlaced(read, scan.analysis, scan.current, s);
    PlacedLonger(read, s, t, a.peers);
    assert (s + [t])[|s| + 1..|s| + 1] == [];
  }

  lemma InterfaceKeepsPeers(x: Syntax, scan: Scan, index: nat, key: Key, value: string)
    ensures var next := VisitInterfaceKey(x, scan, index, key, value);
            next.analysis.peers == scan.analysis.peers && next.current == scan.current
  {
    hide Trim, Lower, KnownInterfaceKey;
  }

  lemma PeerKeepsPeers(x: Syntax, scan: Scan, index: nat, key: Key, value: string)
    ensures var next := VisitPeerKey(x, scan, index, key, value);
            next.analysis.peers == scan.analysis.peers && next.current.Some? == scan.current.Some?
  {
    hide Trim, KnownPeerKey, Assigned;
  }

  lemma VisitKeepsPeers(x: Syntax, scan: Scan, index: nat, node: Node)
    requires !node.kind.SectionHeader?
    ensures Visit(x, scan, index, node).analysis.peers == scan.analysis.peers
    ensures Visit(x, scan, index, node).current.Some? == scan.current.Some?
    ensures !node.kind.Assignment? ==> Visit(x, scan, index, node).current == scan.current
  {
    hide VisitInterfaceKey, VisitPeerKey;
    if node.kind.Assignment? {
      InterfaceKeepsPeers(x, scan, index, KeyOf(node.key), node.value);
      PeerKeepsPeers(x, scan, index, KeyOf(node.key), node.value);
    }
  }

  /** Which statement a node is, and where it is dealt with. */
  lemma NodeMeans(x: Syntax, scan: Scan, index: nat, node: Node)
    ensures var t := Named(Meaning(node));
            && (node.kind.SectionHeader? ==>
                  t == Header(SectionOf(node.section)) && Visit(x, scan, index, node) == VisitHeader(scan, index, t.section))
            && (node.kind.Assignment? ==> t == Assign(KeyOf(node.key), Trim(node.value)))
            && (node.kind.Assignment? && SectionOf(node.section) == PeerSection ==>
                  Visit(x, scan, index, node) == VisitPeerKey(x, scan, index, KeyOf(node.key), node.value))
            && (t.Header? <==> node.kind.SectionHeader?) && (t.Assign? <==> node.kind.Assignment?)
  {
  }

  lemma PlacedStep(x: Syntax, read: Reader, scan: Scan, name: string, s: seq<Stmt>, node: Node)
    requires Reads(x, read) && Placed(read, scan, name, s)
    requires !node.kind.SectionHeader? ==> node.section == name
    ensures Placed(read, Visit(x, scan, |s|, node), node.section, s + [Named(Meaning(node))])
  {
    hide Visit, Named, Meaning, PlacedPeers, PlacedPeer, Reads;
    var t := Named(Meaning(node));
    NodeMeans(x, scan, |s|, node);
    if node.kind.SectionHeader? {
      PlacedHeader(x, read, scan, name, s, node.section);
    } else {
      PlacedLonger(read, s, t, scan.analysis.peers);
      VisitKeepsPeers(x, scan, |s|, node);
      if scan.current.Some? {
        if node.kind.Assignment? {
          PlacedPeerKey(x, read, scan, s, KeyOf(node.key), node.value);
        } else {
          SilentlyGrows(x, read, s, scan.current.value, t);
        }
      }
    }
  }

  lemma {:induction false} ScanPlaces(x: Syntax, read: Reader, lines: seq<string>)
    requires Reads(x, read)
    ensures Placed(read, ScanNodes(x, ParseNodes(lines)), SectionAfter(ParseNodes(lines)), Stmts(lines))
  {
    if lines != [] {
      var n := |lines| - 1;
      var nodes := ParseNodes(lines[..n]);
      var node := ParseLine(lines[n], SectionAfter(nodes));
      ScanPlaces(x, read, lines[..n]);
      ParseStep(lines);
      ScanStep(x, nodes, node);
      StmtsStep(lines[..n], lines[n]);
      FrontAndLast(lines);
      PlacedStep(x, read, ScanNodes(x, nodes), SectionAfter(nodes), Stmts(lines[..n]), node);
    }
  }

  /** Every peer found is described by its own block of lines, which a header or
      the end of the file follows. */
  lemma PeersArePlaced(x: Syntax, lines: seq<string>)
    ensures PlacedPeers(ViewReader(x), Stmts(lines), Analyze(x, ParseNodes(lines)).peers)
  {
    var scan := ScanNodes(x, ParseNodes(lines));
    ViewsAreRead(x);
    ScanPlaces(x, ViewReader(x), lines);
    FinishPlaced(ViewReader(x), scan.analysis, scan.current, Stmts(lines));
  }
}
