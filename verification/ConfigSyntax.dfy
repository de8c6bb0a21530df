/** What one line of a wg-quick file means, and the values such lines carry.
    A line is classified by its trimmed text alone.  The nodes the editor parses,
    which also remember the section they stand in and where in the line their
    value lies, are proved to mean the same. */
module ConfigSyntax {
  import opened Text

  /** The text formats this model leaves to their own parsers, base64 keys and
      IP prefixes: `canon` parses a prefix, masks it and prints it again, and
      `validKey` accepts a trimmed non-zero 32-byte base64 key. */
  datatype Syntax = Syntax(canon: string -> Option<string>, validKey: string -> bool) {
    ghost predicate Lawful() {
      && !validKey("")
      && canon("") == None
      && (forall s {:trigger canon(s)} :: canon(s).Some? ==> Token(canon(s).value) && canon(canon(s).value) == canon(s))
      && (forall s {:trigger canon(s)} :: canon(s).Some? ==> ' ' !in s)
      && (forall s {:trigger validKey(s)} :: validKey(s) ==> ' ' !in s)
    }
  }

  predicate Token(s: string) {
    s != "" && forall i :: 0 <= i < |s| ==> !IsSpace(s[i]) && s[i] != ','
  }

  // ---- Statements ----

  datatype Section = NoSection | InterfaceSection | PeerSection | OtherSection(name: string)

  datatype Key =
    | PrivateKey | Address | ListenPort | FwMark | Dns | Mtu | Table
    | PreUp | PostUp | PreDown | PostDown | SaveConfig
    | PublicKey | PresharedKey | AllowedIPs | Endpoint | PersistentKeepalive
    | OtherKey(name: string)

  /** Both take a name already in lower case. */
  function SectionOf(name: string): Section {
    if name == "interface" then InterfaceSection else if name == "peer" then PeerSection else OtherSection(name)
  }

  const KEYS: map<string, Key> := map[
    "privatekey" := PrivateKey, "address" := Address, "listenport" := ListenPort, "fwmark" := FwMark,
    "dns" := Dns, "mtu" := Mtu, "table" := Table, "preup" := PreUp, "postup" := PostUp,
    "predown" := PreDown, "postdown" := PostDown, "saveconfig" := SaveConfig,
    "publickey" := PublicKey, "presharedkey" := PresharedKey, "allowedips" := AllowedIPs,
    "endpoint" := Endpoint, "persistentkeepalive" := PersistentKeepalive]

  function KeyOf(name: string): Key {
    if name in KEYS then KEYS[name] else OtherKey(name)
  }

  /** What a line says: as a phrase with the names it spells, and as a
      statement with the sections and keys those names stand for. */
  datatype Statement<S, K> = Blank | Comment | Header(section: S) | Assign(key: K, value: string) | Raw

  type Phrase = Statement<string, string>
  type Stmt = Statement<Section, Key>

  /** The meaning of a line with the white space around it removed. */
  function Classify(t: string): Phrase {
    if t == "" then Blank
    else if t[0] == '#' || t[0] == ';' then Comment
    else if t[0] == '[' && t[|t| - 1] == ']' then Header(Lower(Trim(t[1..|t| - 1])))
    else
      var equal := IndexOf(t, '=');
      if equal < |t| && Lower(Trim(t[..equal])) != "" then
        Assign(Lower(Trim(t[..equal])), Trim(t[equal + 1..]))
      else Raw
  }

  function Named(p: Phrase): Stmt {
    match p
    case Blank => Blank
    case Comment => Comment
    case Header(name) => Header(SectionOf(name))
    case Assign(name, value) => Assign(KeyOf(name), value)
    case Raw => Raw
  }

  function StmtOf(line: string): Stmt {
    Named(Classify(Trim(line)))
  }

  function Stmts(lines: seq<string>): (r: seq<Stmt>)
    ensures |r| == |lines|
    ensures forall i :: 0 <= i < |r| ==> r[i] == StmtOf(lines[i])
  {
    seq(|lines|, i requires 0 <= i < |lines| => StmtOf(lines[i]))
  }

  lemma StmtsAppend(a: seq<string>, b: seq<string>)
    ensures Stmts(a + b) == Stmts(a) + Stmts(b)
  {
  }

  // ---- Nodes ----

  datatype NodeKind = RawLine | BlankLine | CommentLine | SectionHeader | Assignment

  datatype Node = Node(kind: NodeKind, raw: string, section: string, key: string, value: string,
                       valueStart: nat, valueEnd: nat)

  function TrimNewline(raw: string): string {
    var body := if raw != "" && raw[|raw| - 1] == '\n' then raw[..|raw| - 1] else raw;
    if body != "" && body[|body| - 1] == '\r' then body[..|body| - 1] else body
  }

  function SkipBlanks(body: string, start: nat): (r: nat)
    requires start <= |body|
    ensures start <= r <= |body|
    ensures forall i :: start <= i < r ==> IsBlank(body[i])
    ensures r < |body| ==> !IsBlank(body[r])
    decreases |body| - start
  {
    if start < |body| && IsBlank(body[start]) then SkipBlanks(body, start + 1) else start
  }

  function BackBlanks(body: string, start: nat, end: nat): (r: nat)
    requires start <= end <= |body|
    ensures start <= r <= end
    ensures forall i :: r <= i < end ==> IsBlank(body[i])
    ensures start < r ==> !IsBlank(body[r - 1])
  {
    if start < end && IsBlank(body[end - 1]) then BackBlanks(body, start, end - 1) else end
  }

  /** One line under the section header in force. */
  function ParseLine(raw: string, section: string): Node {
    var body := TrimNewline(raw);
    var trimmed := Trim(body);
    var plain := Node(RawLine, raw, section, "", "", 0, 0);
    if trimmed == "" then plain.(kind := BlankLine)
    else if trimmed[0] == '#' || trimmed[0] == ';' then plain.(kind := CommentLine)
    else if trimmed[0] == '[' && trimmed[|trimmed| - 1] == ']' then
      plain.(kind := SectionHeader, section := Lower(Trim(trimmed[1..|trimmed| - 1])))
    else
      var equal := IndexOf(body, '=');
      if equal < |body| && Lower(Trim(body[..equal])) != "" then
        var start := SkipBlanks(body, equal + 1);
        var end := BackBlanks(body, start, |body|);
        plain.(kind := Assignment, key := Lower(Trim(body[..equal])), value := body[start..end],
               valueStart := start, valueEnd := end)
      else plain
  }

  /** What a node says. */
  function Meaning(node: Node): Phrase {
    match node.kind
    case RawLine => Raw
    case BlankLine => Blank
    case CommentLine => Comment
    case SectionHeader => Header(node.section)
    case Assignment => Assign(node.key, Trim(node.value))
  }

  lemma TrimNewlineSplit(raw: string) returns (end: string)
    ensures raw == TrimNewline(raw) + end && AllSpace(end)
    ensures Trim(raw) == Trim(TrimNewline(raw))
  {
    end := raw[|TrimNewline(raw)|..];
    assert raw == "" + TrimNewline(raw) + end;
    TrimPad("", TrimNewline(raw), end);
  }

  lemma PaddedIndex(a: string, t: string, b: string)
    requires AllSpace(a) && AllSpace(b)
    ensures IndexOf(a + t + b, '=') == if IndexOf(t, '=') < |t| then |a| + IndexOf(t, '=') else |a + t + b|
  {
    var s := a + t + b;
    if IndexOf(t, '=') < |t| {
      IndexIs(s, '=', |a| + IndexOf(t, '='));
    } else {
      IndexNone(s, '=');
    }
  }

  /** What is between the first `=` and the end of the line, trimmed of blanks
      and then of white space, is the trimmed rest of the line. */
  lemma ValueMeaning(body: string, equal: nat)
    requires equal < |body|
    ensures var start := SkipBlanks(body, equal + 1);
            Trim(body[start..BackBlanks(body, start, |body|)]) == Trim(body[equal + 1..])
  {
    var start := SkipBlanks(body, equal + 1);
    var end := BackBlanks(body, start, |body|);
    assert body[equal + 1..] == body[equal + 1..start] + body[start..end] + body[end..];
    TrimPad(body[equal + 1..start], body[start..end], body[end..]);
  }

  /** The two sides of the first `=` of a line, with and without the white space
      around the line. */
  lemma SidesMeaning(a: string, t: string, b: string, e: nat)
    requires AllSpace(a) && AllSpace(b) && e < |t|
    ensures var body := a + t + b;
            && |a| + e < |body|
            && Trim(body[..|a| + e]) == Trim(t[..e]) && Trim(body[|a| + e + 1..]) == Trim(t[e + 1..])
  {
    var body := a + t + b;
    assert body[..|a| + e] == a + t[..e] + "";
    TrimPad(a, t[..e], "");
    assert body[|a| + e + 1..] == "" + t[e + 1..] + b;
    TrimPad("", t[e + 1..], b);
  }

  lemma EqualSign(body: string) returns (a: string, b: string)
    ensures body == a + Trim(body) + b && AllSpace(a) && AllSpace(b)
    ensures var e := IndexOf(Trim(body), '=');
            IndexOf(body, '=') == if e < |Trim(body)| then |a| + e else |body|
  {
    a, b := TrimSplit(body);
    PaddedIndex(a, Trim(body), b);
  }

  lemma AssignmentMeaning(body: string, t: string, equal: nat, e: nat)
    requires t == Trim(body) && equal == IndexOf(body, '=') && e == IndexOf(t, '=')
    ensures equal < |body| <==> e < |t|
    ensures equal < |body| ==> Trim(body[..equal]) == Trim(t[..e])
    ensures equal < |body| ==> Trim(body[equal + 1..]) == Trim(t[e + 1..])
  {
    var a, b := EqualSign(body);
    if e < |t| {
      SidesMeaning(a, t, b, e);
    }
  }

  lemma ParsedValue(raw: string, section: string)
    ensures var node, body := ParseLine(raw, section), TrimNewline(raw);
            var equal := IndexOf(body, '=');
            && node.raw == raw
            && (node.kind.Assignment? ==> equal < |body| && Trim(node.value) == Trim(body[equal + 1..]))
  {
    var body := TrimNewline(raw);
    var equal := IndexOf(body, '=');
    if equal < |body| {
      ValueMeaning(body, equal);
    }
  }

  /** A parsed line means what its trimmed text says, wherever it stands. */
  lemma LineMeaning(raw: string, section: string)
    ensures Meaning(ParseLine(raw, section)) == Classify(Trim(raw))
    ensures ParseLine(raw, section).raw == raw
    ensures !Classify(Trim(raw)).Header? ==> ParseLine(raw, section).section == section
  {
    hide Trim, TrimNewline, Lower, IndexOf, SkipBlanks, BackBlanks;
    var _ := TrimNewlineSplit(raw);
    var body := TrimNewline(raw);
    AssignmentMeaning(body, Trim(body), IndexOf(body, '='), IndexOf(Trim(body), '='));
    ParsedValue(raw, section);
  }

  /** Nodes of consecutive lines, carrying the section from header to header. */
  function ParseNodes(lines: seq<string>): (nodes: seq<Node>)
    ensures |nodes| == |lines|
  {
    if lines == [] then [] else
      var n := |lines| - 1;
      var before := ParseNodes(lines[..n]);
      before + [ParseLine(lines[n], SectionAfter(before))]
  }

  function SectionAfter(nodes: seq<Node>): string {
    if nodes == [] then "" else nodes[|nodes| - 1].section
  }

  lemma {:induction false} NodesPrefix(lines: seq<string>, i: nat)
    requires i <= |lines|
    ensures ParseNodes(lines)[..i] == ParseNodes(lines[..i])
  {
    var n := |lines| - 1;
    if i == |lines| {
      assert lines[..i] == lines;
    } else {
      NodesPrefix(lines[..n], i);
      assert lines[..n][..i] == lines[..i];
      assert ParseNodes(lines)[..n] == ParseNodes(lines[..n]);
      assert ParseNodes(lines)[..i] == ParseNodes(lines)[..n][..i];
    }
  }

  lemma NodeAt(lines: seq<string>, i: nat)
    requires i < |lines|
    ensures ParseNodes(lines)[i] == ParseLine(lines[i], SectionAfter(ParseNodes(lines)[..i]))
    ensures Meaning(ParseNodes(lines)[i]) == Classify(Trim(lines[i])) && ParseNodes(lines)[i].raw == lines[i]
  {
    NodesPrefix(lines, i);
    NodesPrefix(lines, i + 1);
    var upto := lines[..i + 1];
    assert upto[..i] == lines[..i] && upto[i] == lines[i];
    assert ParseNodes(lines)[i] == ParseNodes(upto)[i];
    LineMeaning(lines[i], SectionAfter(ParseNodes(lines)[..i]));
  }

  // ---- Values ----

  function SplitComma(s: string): (items: seq<string>)
    ensures items != []
    decreases |s|
  {
    var i := IndexOf(s, ',');
    if i < |s| then [s[..i]] + SplitComma(s[i + 1..]) else [s]
  }

  /** The prefixes among comma-separated items, canonically printed. */
  function Prefixes(x: Syntax, items: seq<string>): seq<string> {
    if items == [] then [] else
      match x.canon(Trim(items[0]))
      case Some(prefix) => [prefix] + Prefixes(x, items[1..])
      case None => Prefixes(x, items[1..])
  }

  function Items(x: Syntax, value: string): seq<string> {
    Prefixes(x, SplitComma(value))
  }

  function Join(items: seq<string>): string {
    if items == [] then "" else if |items| == 1 then items[0] else items[0] + ", " + Join(items[1..])
  }

  ghost predicate Canonical(x: Syntax, items: seq<string>) {
    forall i :: 0 <= i < |items| ==> Token(items[i]) && x.canon(items[i]) == Some(items[i])
  }

  lemma {:induction false} JoinIsTight(items: seq<string>)
    requires forall i :: 0 <= i < |items| ==> Token(items[i])
    ensures Tight(Join(items)) && NoBreak(Join(items))
    ensures items != [] ==> Join(items) != ""
  {
    if |items| > 1 {
      JoinIsTight(items[1..]);
    }
  }

  function Prefixed(x: Syntax, item: string): seq<string> {
    match x.canon(Trim(item)) case Some(prefix) => [prefix] case None => []
  }

  /** The items of a list: those before its first comma and the rest. */
  lemma ItemsStep(x: Syntax, s: string, i: nat)
    requires i < |s| && s[i] == ',' && ',' !in s[..i]
    ensures Items(x, s) == Prefixed(x, s[..i]) + Items(x, s[i + 1..])
  {
    assert forall k :: 0 <= k < i ==> s[k] == s[..i][k];
    IndexIs(s, ',', i);
    FirstAndRest(SplitComma(s));
    assert SplitComma(s)[1..] == SplitComma(s[i + 1..]);
  }

  lemma ItemsOne(x: Syntax, s: string)
    requires ',' !in s
    ensures Items(x, s) == Prefixed(x, s)
  {
    IndexNone(s, ',');
    assert [s][1..] == [] && Prefixes(x, [s][1..]) == [];
    assert Prefixed(x, s) + [] == Prefixed(x, s);
  }

  lemma PaddedStep(x: Syntax, a: string, value: string, b: string, i: nat)
    requires AllSpace(a) && AllSpace(b) && i < |value| && value[i] == ',' && ',' !in value[..i]
    ensures Items(x, a + value + b) == Prefixed(x, value[..i]) + Items(x, "" + value[i + 1..] + b)
  {
    hide Items, Trim;
    var s := a + value + b;
    assert s[|a| + i + 1..] == "" + value[i + 1..] + b && s[..|a| + i] == a + value[..i] + "";
    assert ',' !in s[..|a| + i] by { assert forall k :: 0 <= k < |a| ==> IsSpace(a[k]); }
    ItemsStep(x, s, |a| + i);
    TrimPad(a, value[..i], "");
  }

  /** White space around a list does not change its items. */
  lemma {:induction false} ItemsPad(x: Syntax, a: string, value: string, b: string)
    requires AllSpace(a) && AllSpace(b)
    ensures Items(x, a + value + b) == Items(x, value)
    decreases |value|
  {
    var s := a + value + b;
    var i := IndexOf(value, ',');
    if i < |value| {
      ItemsStep(x, value, i);
      PaddedStep(x, a, value, b, i);
      ItemsPad(x, "", value[i + 1..], b);
    } else {
      ItemsOne(x, value);
      ItemsOne(x, s);
      TrimPad(a, value, b);
    }
  }

  lemma ItemsBehind(x: Syntax, first: string, rest: string)
    requires ',' !in first
    ensures Items(x, first + ", " + rest) == Prefixed(x, first) + Items(x, rest)
  {
    var s := first + ", " + rest;
    assert s[..|first|] == first && s[|first| + 1..] == " " + rest + "";
    ItemsStep(x, s, |first|);
    ItemsPad(x, " ", rest, "");
  }

  lemma {:induction false} ItemsJoin(x: Syntax, items: seq<string>)
    requires x.Lawful() && Canonical(x, items)
    ensures Items(x, Join(items)) == items
  {
    if items == [] {
      ItemsOne(x, "");
    } else {
      var first := items[0];
      TrimTight(first);
      if |items| == 1 {
        ItemsOne(x, first);
      } else {
        ItemsBehind(x, first, Join(items[1..]));
        ItemsJoin(x, items[1..]);
      }
    }
  }

  function Digits(n: nat): (s: string)
    ensures s != ""
    ensures forall i :: 0 <= i < |s| ==> '0' <= s[i] <= '9'
  {
    if n < 10 then [n as char + '0'] else Digits(n / 10) + [(n % 10) as char + '0']
  }

  function DigitsValue(s: string): nat
    requires forall i :: 0 <= i < |s| ==> '0' <= s[i] <= '9'
  {
    if s == "" then 0 else 10 * DigitsValue(s[..|s| - 1]) + (s[|s| - 1] - '0') as nat
  }

  /** Unsigned decimal of at most 16 bits: no sign, no space, no empty text. */
  function ParseUint16(s: string): Option<nat> {
    if s != "" && (forall i :: 0 <= i < |s| ==> '0' <= s[i] <= '9') && DigitsValue(s) <= 65535
    then Some(DigitsValue(s)) else None
  }

  lemma {:induction false} DigitsRoundTrip(n: nat)
    ensures DigitsValue(Digits(n)) == n
  {
    var s := Digits(n);
    if n >= 10 {
      DigitsRoundTrip(n / 10);
      assert s[..|s| - 1] == Digits(n / 10);
    } else {
      assert s[..0] == "";
    }
  }

  lemma DigitsParse(n: nat)
    requires n <= 65535
    ensures ParseUint16(Digits(n)) == Some(n)
    ensures Tight(Digits(n)) && NoBreak(Digits(n))
  {
    DigitsRoundTrip(n);
  }
}
