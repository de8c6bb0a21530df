/** Rewriting one peer block in place, key by key.
    A block is a list of nodes.  A key that is there is overwritten where it first
    stands and deleted elsewhere; a key that is not is appended.  The lemmas say
    what a block says afterwards, which nodes survive, and when the lines of the
    block stay apart in the text. */
module ConfigPatch {
  import opened Text
  import opened ConfigSyntax
  import opened ConfigMeaning

  /** The keys a patch may set. */
  predicate Settable(key: Key) {
    key in {AllowedIPs, Endpoint, PersistentKeepalive, PresharedKey}
  }

  function Display(key: Key): string
    requires Settable(key)
  {
    match key
    case AllowedIPs => "AllowedIPs"
    case Endpoint => "Endpoint"
    case PersistentKeepalive => "PersistentKeepalive"
    case PresharedKey => "PresharedKey"
  }

  function KeyName(key: Key): string
    requires Settable(key)
  {
    match key
    case AllowedIPs => "allowedips"
    case Endpoint => "endpoint"
    case PersistentKeepalive => "persistentkeepalive"
    case PresharedKey => "presharedkey"
  }

  predicate IsNewline(nl: string) {
    nl == "\n" || nl == "\r\n"
  }

  /** What may stand behind `=` and be read back unchanged. */
  predicate Writable(value: string) {
    value != "" && Tight(value) && NoBreak(value)
  }

  predicate AssignsAny(node: Node, keys: set<Key>) {
    node.kind.Assignment? && KeyOf(node.key) in keys
  }

  predicate Assigns(node: Node, key: Key) {
    node.kind.Assignment? && KeyOf(node.key) == key
  }

  predicate HasKey(block: seq<Node>, key: Key) {
    exists i :: 0 <= i < |block| && Assigns(block[i], key)
  }

  /** The line with its value spliced out and another spliced in. */
  function SetValue(node: Node, value: string): Node {
    var bodyLength := |TrimNewline(node.raw)|;
    var raw := if node.valueStart > bodyLength || node.valueEnd > bodyLength then node.raw
               else node.raw[..node.valueStart] + value + node.raw[node.valueEnd..];
    node.(raw := raw, value := value)
  }

  function FreshNode(key: Key, value: string, nl: string): Node
    requires Settable(key)
  {
    Node(Assignment, Display(key) + " = " + value + nl, "peer", KeyName(key), value, 0, 0)
  }

  /** The nodes that assign none of the keys. */
  function Others(block: seq<Node>, keys: set<Key>): seq<Node> {
    if block == [] then []
    else if AssignsAny(block[0], keys) then Others(block[1..], keys)
    else [block[0]] + Others(block[1..], keys)
  }

  /** The first assignment takes the value, or goes when there is none; the
      others go. */
  function Rewrite(block: seq<Node>, key: Key, value: string): seq<Node> {
    if block == [] then []
    else if Assigns(block[0], key) then
      (if value == "" then [] else [SetValue(block[0], value)]) + Others(block[1..], {key})
    else [block[0]] + Rewrite(block[1..], key, value)
  }

  function Apply(block: seq<Node>, key: Key, value: string, nl: string): seq<Node>
    requires Settable(key)
  {
    if HasKey(block, key) then Rewrite(block, key, value)
    else if value == "" then block
    else block + [FreshNode(key, value, nl)]
  }

  datatype Request = Request(key: Key, value: string)

  predicate AllSettable(requests: seq<Request>) {
    forall i :: 0 <= i < |requests| ==> Settable(requests[i].key)
  }

  function PatchBlock(block: seq<Node>, requests: seq<Request>, nl: string): seq<Node>
    requires AllSettable(requests)
    decreases |requests|
  {
    if requests == [] then block
    else PatchBlock(Apply(block, requests[0].key, requests[0].value, nl), requests[1..], nl)
  }

  // ---- Lines that carry a given value ----

  /** A line `name = value`, whatever white space is around its parts. */
  lemma AssignmentLine(name: string, gap: string, value: string)
    requires name != "" && !IsSpace(name[0]) && name[0] !in {'#', ';', '['} && '=' !in name
    requires Lower(Trim(name)) != "" && AllSpace(gap) && value != "" && Tight(value)
    ensures Trim(name + "=" + gap + value) == name + "=" + gap + value
    ensures Classify(name + "=" + gap + value) == Assign(Lower(Trim(name)), value)
  {
    var t := name + "=" + gap + value;
    assert t[|t| - 1] == value[|value| - 1];
    TrimTight(t);
    IndexIs(t, '=', |name|);
    assert t[..|name|] == name && t[|name| + 1..] == gap + value + "";
    TrimPad(gap, value, "");
    TrimTight(value);
  }

  lemma FreshLine(name: string, value: string, nl: string)
    requires name != "" && Tight(name) && name[0] !in {'#', ';', '['} && '=' !in name && Lower(name) != ""
    requires Writable(value) && IsNewline(nl)
    ensures Classify(Trim(name + " = " + value + nl)) == Assign(Lower(name), value)
  {
    var spaced := name + " ";
    assert name + " = " + value + nl == "" + (spaced + "=" + " " + value) + nl;
    TrimPad("", spaced + "=" + " " + value, nl);
    assert spaced == "" + name + " ";
    TrimPad("", name, " ");
    TrimTight(name);
    AssignmentLine(spaced, " ", value);
  }

  lemma LowerIs(s: string, l: string)
    requires |s| == |l| && forall i :: 0 <= i < |s| ==> LowerChar(s[i]) == l[i]
    ensures Lower(s) == l
  {
  }

  lemma DisplayNames(key: Key)
    requires Settable(key)
    ensures Lower(Display(key)) == KeyName(key)
    ensures var name := Display(key); Tight(name) && name[0] !in {'#', ';', '['} && '=' !in name
  {
    match key
    case AllowedIPs => LowerIs("AllowedIPs", "allowedips");
    case Endpoint => LowerIs("Endpoint", "endpoint");
    case PersistentKeepalive => LowerIs("PersistentKeepalive", "persistentkeepalive");
    case PresharedKey => LowerIs("PresharedKey", "presharedkey");
  }

  lemma KeyNames(key: Key, name: string)
    requires Settable(key)
    ensures KeyOf(name) == key <==> name == KeyName(key)
  {
  }

  lemma TrimFirst(s: string)
    requires s != "" && !IsSpace(s[0])
    ensures Trim(s) != "" && Trim(s)[0] == s[0]
  {
    var a, b := TrimSplit(s);
    assert s[0] == (a + Trim(s) + b)[0];
  }

  lemma BodyOfLine(raw: string)
    requires IsLine(raw)
    ensures var body := TrimNewline(raw);
            && |body| <= |raw| && raw[..|body|] == body && AllSpace(raw[|body|..])
            && '\n' !in body && (Closed(raw) <==> |body| < |raw| && raw[|raw| - 1] == '\n')
  {
  }

  /** Where a parsed assignment has its name and its value. */
  ghost predicate AssignmentAt(body: string, key: string, start: nat, end: nat) {
    var equal := IndexOf(body, '=');
    && equal < start <= end <= |body|
    && key != "" && key == Lower(Trim(body[..equal]))
    && AllSpace(body[equal + 1..start]) && AllSpace(body[end..])
  }

  lemma AllBlank(s: string, from: nat, to: nat)
    requires from <= to <= |s| && forall i :: from <= i < to ==> IsBlank(s[i])
    ensures AllSpace(s[from..to])
  {
  }

  lemma ParsedAssignment(raw: string, section: string)
    requires ParseLine(raw, section).kind.Assignment?
    ensures var node := ParseLine(raw, section);
            AssignmentAt(TrimNewline(raw), node.key, node.valueStart, node.valueEnd)
  {
    hide Trim, Lower, TrimNewline, IndexOf, IsBlank, IsSpace, AllSpace, SkipBlanks, BackBlanks;
    var node, body := ParseLine(raw, section), TrimNewline(raw);
    AllBlank(body, IndexOf(body, '=') + 1, node.valueStart);
    AllBlank(body, node.valueEnd, |body|);
    assert body[node.valueEnd..|body|] == body[node.valueEnd..];
  }

  /** A name is the white space before it and the name proper. */
  lemma NameParts(s: string) returns (a: string, name: string)
    requires Lower(Trim(s)) != ""
    ensures s == a + name && AllSpace(a) && Trim(name) == Trim(s)
    ensures name != "" && !IsSpace(name[0])
  {
    var b: string;
    var core := Trim(s);
    a, b := TrimSplit(s);
    assert core != "" by { assert Lower("") == ""; }
    name := core + b;
    assert name == "" + core + b;
    TrimPad("", core, b);
    TrimOnce(s);
  }

  lemma SplicedParts(body: string, a: string, name: string, equal: nat, start: nat, value: string, rest: string)
    requires equal < start <= |body| && body[equal] == '=' && body[..equal] == a + name
    ensures body[..start] + value + rest == a + (name + "=" + body[equal + 1..start] + value) + rest
  {
  }

  lemma NamePlain(body: string, a: string, name: string, equal: nat, key: string)
    requires equal == IndexOf(body, '=') < |body| && body[..equal] == a + name
    requires name != "" && !IsSpace(name[0]) && key != "" && key == Lower(Trim(name))
    ensures '=' !in name && LowerChar(name[0]) == key[0]
  {
    TrimFirst(name);
    assert forall i :: 0 <= i < |name| ==> name[i] == body[..equal][|a| + i];
  }

  lemma AssignmentName(body: string, key: string, start: nat, end: nat) returns (a: string, name: string)
    requires AssignmentAt(body, key, start, end)
    ensures body[..IndexOf(body, '=')] == a + name && AllSpace(a)
    ensures name != "" && !IsSpace(name[0]) && '=' !in name && LowerChar(name[0]) == key[0] && Lower(Trim(name)) == key
  {
    var equal := IndexOf(body, '=');
    a, name := NameParts(body[..equal]);
    NamePlain(body, a, name, equal, key);
  }

  lemma SplicedLine(body: string, key: string, start: nat, end: nat, value: string, tail: string)
    requires AssignmentAt(body, key, start, end) && value != "" && Tight(value) && AllSpace(tail)
    requires key[0] in {'a', 'e', 'p'}
    ensures Classify(Trim(body[..start] + value + (body[end..] + tail))) == Assign(key, value)
  {
    var equal := IndexOf(body, '=');
    var gap, rest := body[equal + 1..start], body[end..] + tail;
    var a, name := AssignmentName(body, key, start, end);
    SplicedParts(body, a, name, equal, start, value, rest);
    TrimPad(a, name + "=" + gap + value, rest);
    AssignmentLine(name, gap, value);
  }

  lemma SplicedEnds(raw: string, start: nat, end: nat, value: string)
    requires IsLine(raw) && start <= end <= |TrimNewline(raw)| && value != "" && NoBreak(value)
    ensures var spliced := raw[..start] + value + raw[end..];
            IsLine(spliced) && Closed(spliced) == Closed(raw)
  {
    BodyOfLine(raw);
    assert forall i :: 0 <= i < start ==> raw[i] == TrimNewline(raw)[i];
  }

  /** Splicing a value into its line changes what the line assigns and nothing
      else: not the name, not the white space around, not the line end. */
  lemma SetValueLine(node: Node, key: Key, value: string)
    requires node == ParseLine(node.raw, node.section) && IsLine(node.raw)
    requires Settable(key) && Assigns(node, key) && Writable(value)
    ensures var after := SetValue(node, value);
            && Classify(Trim(after.raw)) == Assign(node.key, value)
            && IsLine(after.raw) && Closed(after.raw) == Closed(node.raw)
            && node.valueStart <= node.valueEnd <= |node.raw|
            && node.raw[..node.valueStart] + value + node.raw[node.valueEnd..] == after.raw
  {
    var raw, start, end := node.raw, node.valueStart, node.valueEnd;
    var body := TrimNewline(raw);
    KeyNames(key, node.key);
    ParsedAssignment(raw, node.section);
    BodyOfLine(raw);
    SplicedEnds(raw, start, end, value);
    SplicedLine(body, node.key, start, end, value, raw[|body|..]);
    SlicesOfLine(raw, body, start, end);
  }

  lemma SlicesOfLine(raw: string, body: string, start: nat, end: nat)
    requires |body| <= |raw| && raw[..|body|] == body && start <= end <= |body|
    ensures raw[..start] == body[..start] && raw[end..] == body[end..] + raw[|body|..]
  {
  }

  // ---- Blocks ----

  function Raws(block: seq<Node>): (raws: seq<string>)
    ensures |raws| == |block|
    ensures forall i :: 0 <= i < |block| ==> raws[i] == block[i].raw
  {
    seq(|block|, i requires 0 <= i < |block| => block[i].raw)
  }

  /** What the nodes claim to say. */
  function Said(block: seq<Node>): (said: seq<Stmt>)
    ensures |said| == |block|
    ensures forall i :: 0 <= i < |block| ==> said[i] == Named(Meaning(block[i]))
  {
    seq(|block|, i requires 0 <= i < |block| => Named(Meaning(block[i])))
  }

  /** The node is a line and says what the line means. */
  ghost predicate True(node: Node) {
    IsLine(node.raw) && Meaning(node) == Classify(Trim(node.raw))
  }

  ghost predicate AllTrue(block: seq<Node>) {
    forall node :: node in block ==> True(node)
  }

  /** Nodes that assign the key still know where its value is. */
  ghost predicate Spliceable(block: seq<Node>, key: Key) {
    forall node :: node in block && Assigns(node, key) ==> node == ParseLine(node.raw, node.section)
  }

  lemma SaidIsMeant(block: seq<Node>)
    requires AllTrue(block)
    ensures Stmts(Raws(block)) == Said(block)
  {
    forall i | 0 <= i < |block| ensures Stmts(Raws(block))[i] == Said(block)[i] {
      assert True(block[i]);
    }
  }

  lemma SaidAppend(a: seq<Node>, b: seq<Node>)
    ensures Said(a + b) == Said(a) + Said(b) && Raws(a + b) == Raws(a) + Raws(b)
  {
  }

  lemma SaidFirst(block: seq<Node>)
    requires block != []
    ensures Said(block) == [Named(Meaning(block[0]))] + Said(block[1..])
    ensures Raws(block) == [block[0].raw] + Raws(block[1..])
  {
    hide Named, Meaning;
  }

  lemma ValuesFirst(t: Stmt, rest: seq<Stmt>, key: Key)
    ensures Values([t] + rest, key) == (if t.Assign? && t.key == key then [t.value] else []) + Values(rest, key)
  {
    ValuesAppend([t], rest, key);
    assert [t][..0] == [];
  }

  lemma StmtKey(node: Node, keys: set<Key>)
    ensures AssignsAny(node, keys) <==> Named(Meaning(node)).Assign? && Named(Meaning(node)).key in keys
  {
  }

  /** What the other nodes say decides the values of the other keys, and what
      lines the block has that are not assignments. */
  lemma {:induction false} OthersDecide(block: seq<Node>, keys: set<Key>, key: Key)
    requires key !in keys
    ensures Values(Said(block), key) == Values(Said(Others(block, keys)), key)
  {
    hide Named, Meaning, AssignsAny;
    if block != [] {
      OthersDecide(block[1..], keys, key);
      StmtKey(block[0], keys);
      NothingAround(Values(Said(block[1..]), key));
      SaidFirst(block);
      ValuesFirst(Named(Meaning(block[0])), Said(block[1..]), key);
      if !AssignsAny(block[0], keys) {
        SaidFirst(Others(block, keys));
        ValuesFirst(Named(Meaning(block[0])), Said(Others(block[1..], keys)), key);
      }
    }
  }

  lemma {:induction false} OthersAmong(block: seq<Node>, keys: set<Key>)
    ensures |Others(block, keys)| <= |block|
    ensures forall node :: node in Others(block, keys) <==> node in block && !AssignsAny(node, keys)
  {
    if block != [] {
      OthersAmong(block[1..], keys);
      FirstAndRest(block);
    }
  }

  predicate ClosedFront(block: seq<Node>) {
    forall i :: 0 <= i < |block| - 1 ==> Closed(block[i].raw)
  }

  predicate ClosedNodes(block: seq<Node>) {
    forall i :: 0 <= i < |block| ==> Closed(block[i].raw)
  }

  lemma {:induction false} OthersClosed(block: seq<Node>, keys: set<Key>)
    ensures ClosedFront(block) ==> ClosedFront(Others(block, keys))
    ensures ClosedNodes(block) ==> ClosedNodes(Others(block, keys))
  {
    if block != [] {
      OthersClosed(block[1..], keys);
      if block[1..] == [] {
        assert Others(block[1..], keys) == [];
      } else {
        assert block[0] == block[..1][0];
      }
    }
  }

  predicate NoKind(block: seq<Node>, kind: NodeKind) {
    forall node :: node in block ==> node.kind != kind
  }

  lemma SaidKinds(block: seq<Node>)
    ensures NoRaw(Said(block)) == NoKind(block, RawLine)
    ensures NoHeader(Said(block)) == NoKind(block, SectionHeader)
  {
    var said := Said(block);
    forall i | 0 <= i < |block|
      ensures said[i].Raw? == block[i].kind.RawLine? && said[i].Header? == block[i].kind.SectionHeader?
    {
    }
    if NoKind(block, RawLine) {
      assert forall i :: 0 <= i < |block| ==> block[i] in block;
    }
    if NoKind(block, SectionHeader) {
      assert forall i :: 0 <= i < |block| ==> block[i] in block;
    }
  }

  // ---- One key rewritten ----

  predicate Valued(value: string) {
    value == "" || Writable(value)
  }

  /** The node that carries the new value. */
  lemma SetValueTrue(node: Node, key: Key, value: string)
    requires True(node) && node == ParseLine(node.raw, node.section)
    requires Settable(key) && Assigns(node, key) && Writable(value)
    ensures var after := SetValue(node, value);
            && True(after) && Closed(after.raw) == Closed(node.raw)
            && Assigns(after, key) && Named(Meaning(after)) == Assign(key, value)
  {
    hide ParseLine, Classify, Trim, IsLine, IsSpace, AllSpace;
    SetValueLine(node, key, value);
    TrimTight(value);
  }

  lemma FreshNodeTrue(key: Key, value: string, nl: string)
    requires Settable(key) && Writable(value) && IsNewline(nl)
    ensures var made := FreshNode(key, value, nl);
            && True(made) && Closed(made.raw)
            && Assigns(made, key) && Named(Meaning(made)) == Assign(key, value)
  {
    DisplayNames(key);
    KeyNames(key, KeyName(key));
    FreshLine(Display(key), value, nl);
    TrimTight(value);
    BreakFree(key);
  }

  lemma BreakFree(key: Key)
    requires Settable(key)
    ensures NoBreak(Display(key) + " = ")
  {
  }

  /** Everything but the rewritten assignments stays, in place and in order. */
  lemma {:induction false} RewriteOthers(block: seq<Node>, key: Key, value: string, keys: set<Key>)
    requires key in keys
    ensures Others(Rewrite(block, key, value), keys) == Others(block, keys)
  {
    if block != [] {
      if Assigns(block[0], key) {
        OthersTwice(block[1..], {key}, keys);
        var others := Others(block[1..], {key});
        assert [] + others == others && ([SetValue(block[0], value)] + others)[1..] == others;
      } else {
        RewriteOthers(block[1..], key, value, keys);
      }
    }
  }

  lemma {:induction false} OthersTwice(block: seq<Node>, few: set<Key>, many: set<Key>)
    requires few <= many
    ensures Others(Others(block, few), many) == Others(block, many)
  {
    if block != [] {
      OthersTwice(block[1..], few, many);
    }
  }

  /** The nodes after a rewrite are old ones, and one that carries the value. */
  lemma {:induction false} RewriteAmong(block: seq<Node>, key: Key, value: string)
    ensures forall node :: node in Rewrite(block, key, value) ==>
              || (node in block && !Assigns(node, key))
              || (value != "" && exists was :: was in block && Assigns(was, key) && node == SetValue(was, value))
  {
    if block != [] {
      FirstAndRest(block);
      if Assigns(block[0], key) {
        OthersAmong(block[1..], {key});
      } else {
        RewriteAmong(block[1..], key, value);
      }
    }
  }

  lemma {:induction false} RewriteClosed(block: seq<Node>, key: Key, value: string)
    requires AllTrue(block) && Spliceable(block, key) && Settable(key) && Valued(value)
    ensures ClosedFront(block) ==> ClosedFront(Rewrite(block, key, value))
    ensures ClosedNodes(block) ==> ClosedNodes(Rewrite(block, key, value))
    ensures |Rewrite(block, key, value)| <= |block|
  {
    if block != [] {
      assert ClosedFront(block) && block[1..] != [] ==> Closed(block[0].raw);
      OthersClosed(block[1..], {key});
      OthersAmong(block[1..], {key});
      if Assigns(block[0], key) {
        if value != "" {
          SetValueTrue(block[0], key, value);
        }
      } else {
        RewriteClosed(block[1..], key, value);
      }
    }
  }

  lemma NoValues(block: seq<Node>, key: Key)
    requires forall node :: node in block ==> !Assigns(node, key)
    ensures Values(Said(block), key) == []
  {
    hide Named, Meaning;
    if block != [] {
      SaidFirst(block);
      NoValues(block[1..], key);
      StmtKey(block[0], {key});
      ValuesFirst(Named(Meaning(block[0])), Said(block[1..]), key);
      assert block[0] in block;
    }
  }

  lemma HasKeyRest(block: seq<Node>, key: Key)
    requires block != []
    ensures HasKey(block, key) <==> Assigns(block[0], key) || HasKey(block[1..], key)
  {
    var rest := block[1..];
    assert forall i :: 0 <= i < |rest| ==> rest[i] == block[i + 1];
    if HasKey(block, key) && !Assigns(block[0], key) {
      var i :| 0 <= i < |block| && Assigns(block[i], key);
      assert rest[i - 1] == block[i];
    }
    if HasKey(rest, key) {
      var i :| 0 <= i < |rest| && Assigns(rest[i], key);
      assert rest[i] == block[i + 1];
    }
  }

  lemma SaidCons(h: Node, rest: seq<Node>)
    ensures Said([h] + rest) == [Named(Meaning(h))] + Said(rest)
  {
    SaidAppend([h], rest);
    assert Said([h]) == [Named(Meaning(h))];
  }

  lemma StmtAssigns(node: Node, key: Key)
    ensures var t := Named(Meaning(node));
            (t.Assign? && t.key == key <==> Assigns(node, key)) && (t.Assign? ==> t.value == Trim(node.value))
  {
  }

  lemma NodeValues(h: Node, rest: seq<Node>, key: Key)
    ensures Values(Said([h] + rest), key) ==
            (if Assigns(h, key) then [Trim(h.value)] else []) + Values(Said(rest), key)
  {
    SaidCons(h, rest);
    ValuesFirst(Named(Meaning(h)), Said(rest), key);
    StmtAssigns(h, key);
  }

  /** After a rewrite the key has its value and no other. */
  lemma {:induction false} RewriteValues(block: seq<Node>, key: Key, value: string)
    requires AllTrue(block) && Spliceable(block, key) && Settable(key) && Valued(value)
    ensures Values(Said(Rewrite(block, key, value)), key) ==
            if value != "" && HasKey(block, key) then [value] else []
  {
    if block != [] {
      var h, rest := block[0], block[1..];
      HasKeyRest(block, key);
      if Assigns(h, key) {
        var others := Others(rest, {key});
        OthersAmong(rest, {key});
        NoValues(others, key);
        if value != "" {
          SetValueTrue(h, key, value);
          TrimTight(value);
          NodeValues(SetValue(h, value), others, key);
        } else {
          assert [] + others == others;
        }
      } else {
        RewriteValues(rest, key, value);
        NodeValues(h, Rewrite(rest, key, value), key);
      }
    }
  }

  lemma RewriteTrue(block: seq<Node>, key: Key, value: string)
    requires AllTrue(block) && Spliceable(block, key) && Settable(key) && Valued(value)
    ensures AllTrue(Rewrite(block, key, value))
    ensures forall other :: other != key && Spliceable(block, other) ==> Spliceable(Rewrite(block, key, value), other)
  {
    RewriteAmong(block, key, value);
    forall node | node in Rewrite(block, key, value) && !(node in block && !Assigns(node, key))
      ensures True(node) && Assigns(node, key)
    {
      var was :| was in block && Assigns(was, key) && node == SetValue(was, value);
      SetValueTrue(was, key, value);
    }
  }

  lemma NoKey(block: seq<Node>, key: Key)
    requires !HasKey(block, key)
    ensures forall node :: node in block ==> !Assigns(node, key)
  {
    forall node | node in block ensures !Assigns(node, key) {
      var i :| 0 <= i < |block| && block[i] == node;
    }
  }

  lemma AppendTrue(block: seq<Node>, key: Key, value: string, nl: string)
    requires AllTrue(block) && Settable(key) && Writable(value) && IsNewline(nl)
    ensures var after := block + [FreshNode(key, value, nl)];
            && AllTrue(after)
            && (forall other :: other != key && Spliceable(block, other) ==> Spliceable(after, other))
  {
    FreshNodeTrue(key, value, nl);
  }

  lemma AppendValues(block: seq<Node>, key: Key, value: string, nl: string)
    requires !HasKey(block, key) && Settable(key) && Writable(value) && IsNewline(nl)
    ensures Values(Said(block + [FreshNode(key, value, nl)]), key) == [value]
  {
    var made := FreshNode(key, value, nl);
    var t: Stmt := Assign(key, value);
    NoKey(block, key);
    NoValues(block, key);
    FreshNodeTrue(key, value, nl);
    SaidAppend(block, [made]);
    assert Said([made]) == [t];
    ValuesAppend(Said(block), [t], key);
    assert [t][..0] == [];
  }

  /** The key now has exactly the value, every node is still true, and the other
      keys can still be rewritten. */
  lemma ApplyValues(block: seq<Node>, key: Key, value: string, nl: string)
    requires AllTrue(block) && Spliceable(block, key) && Settable(key) && Valued(value) && IsNewline(nl)
    ensures var after := Apply(block, key, value, nl);
            && AllTrue(after)
            && Values(Said(after), key) == (if value == "" then [] else [value])
            && (forall other :: other != key && Spliceable(block, other) ==> Spliceable(after, other))
  {
    if HasKey(block, key) {
      RewriteTrue(block, key, value);
      RewriteValues(block, key, value);
    } else if value == "" {
      NoKey(block, key);
      NoValues(block, key);
    } else {
      AppendTrue(block, key, value, nl);
      AppendValues(block, key, value, nl);
    }
  }

  lemma {:induction false} OthersAppend(a: seq<Node>, b: seq<Node>, keys: set<Key>)
    ensures Others(a + b, keys) == Others(a, keys) + Others(b, keys)
  {
    if a == [] {
      assert a + b == b;
    } else {
      assert (a + b)[1..] == a[1..] + b;
      OthersAppend(a[1..], b, keys);
    }
  }

  lemma ApplyOthers(block: seq<Node>, key: Key, value: string, nl: string, keys: set<Key>)
    requires Settable(key) && key in keys
    ensures Others(Apply(block, key, value, nl), keys) == Others(block, keys)
  {
    RewriteOthers(block, key, value, keys);
    var made := FreshNode(key, value, nl);
    KeyNames(key, KeyName(key));
    OthersAppend(block, [made], keys);
    assert Others([made], keys) == [];
  }

  /** A key rewritten keeps the lines apart exactly if it is not appended to a
      line the text leaves open. */
  lemma ApplyClosed(block: seq<Node>, key: Key, value: string, nl: string)
    requires AllTrue(block) && Spliceable(block, key) && Settable(key) && Valued(value) && IsNewline(nl)
    requires ClosedFront(block) && block != []
    ensures ClosedFront(Apply(block, key, value, nl)) <==>
            HasKey(block, key) || value == "" || Closed(block[|block| - 1].raw)
    ensures ClosedNodes(block) ==> ClosedNodes(Apply(block, key, value, nl))
  {
    RewriteClosed(block, key, value);
    if !HasKey(block, key) && value != "" {
      FreshNodeTrue(key, value, nl);
      OneMoreNode(block, FreshNode(key, value, nl));
    }
  }

  lemma OneMoreNode(block: seq<Node>, made: Node)
    requires block != [] && ClosedFront(block) && Closed(made.raw)
    ensures ClosedFront(block + [made]) <==> Closed(block[|block| - 1].raw)
    ensures ClosedNodes(block) ==> ClosedNodes(block + [made])
  {
    assert (block + [made])[|block| - 1] == block[|block| - 1];
  }

  lemma ApplyFirst(block: seq<Node>, key: Key, value: string, nl: string)
    requires Settable(key) && block != [] && !block[0].kind.Assignment?
    ensures Apply(block, key, value, nl) != [] && Apply(block, key, value, nl)[0] == block[0]
  {
  }

  // ---- The patch ----

  predicate DistinctKeys(requests: seq<Request>) {
    forall i, j :: 0 <= i < j < |requests| ==> requests[i].key != requests[j].key
  }

  function Keys(requests: seq<Request>): set<Key> {
    set i | 0 <= i < |requests| :: requests[i].key
  }

  ghost predicate Patchable(block: seq<Node>, requests: seq<Request>, nl: string) {
    && AllTrue(block) && block != [] && !block[0].kind.Assignment? && IsNewline(nl)
    && AllSettable(requests) && DistinctKeys(requests)
    && forall i :: 0 <= i < |requests| ==> Valued(requests[i].value) && Spliceable(block, requests[i].key)
  }

  lemma PatchableStep(block: seq<Node>, requests: seq<Request>, nl: string)
    requires Patchable(block, requests, nl) && requests != []
    ensures Patchable(Apply(block, requests[0].key, requests[0].value, nl), requests[1..], nl)
    ensures requests[0].key !in Keys(requests[1..])
    ensures Keys(requests) == {requests[0].key} + Keys(requests[1..])
  {
    ApplyValues(block, requests[0].key, requests[0].value, nl);
    ApplyFirst(block, requests[0].key, requests[0].value, nl);
    var rest := requests[1..];
    assert forall i :: 0 <= i < |rest| ==> rest[i] == requests[i + 1];
    forall key | key in Keys(requests) ensures key in {requests[0].key} + Keys(rest) {
      var i :| 0 <= i < |requests| && requests[i].key == key;
      assert i > 0 ==> rest[i - 1].key == key;
    }
  }

  /** Everything but the requested assignments is untouched, in place and in
      order: the header, comments, blank lines, unknown keys and the keys that
      were not requested. */
  lemma {:induction false} PatchOthers(block: seq<Node>, requests: seq<Request>, nl: string, keys: set<Key>)
    requires Patchable(block, requests, nl) && Keys(requests) <= keys
    ensures Others(PatchBlock(block, requests, nl), keys) == Others(block, keys)
    ensures AllTrue(PatchBlock(block, requests, nl))
    ensures PatchBlock(block, requests, nl) != [] && PatchBlock(block, requests, nl)[0] == block[0]
    decreases |requests|
  {
    if requests != [] {
      PatchableStep(block, requests, nl);
      ApplyOthers(block, requests[0].key, requests[0].value, nl, keys);
      ApplyFirst(block, requests[0].key, requests[0].value, nl);
      PatchOthers(Apply(block, requests[0].key, requests[0].value, nl), requests[1..], nl, keys);
    }
  }

  lemma KeptValues(a: seq<Node>, b: seq<Node>, keys: set<Key>, key: Key)
    requires Others(a, keys) == Others(b, keys) && key !in keys
    ensures Values(Said(a), key) == Values(Said(b), key)
  {
    OthersDecide(a, keys, key);
    OthersDecide(b, keys, key);
  }

  /** Every requested key ends with its value alone, whatever the block said. */
  lemma {:induction false} PatchValues(block: seq<Node>, requests: seq<Request>, nl: string, k: nat)
    requires Patchable(block, requests, nl) && k < |requests|
    ensures Values(Said(PatchBlock(block, requests, nl)), requests[k].key) ==
            if requests[k].value == "" then [] else [requests[k].value]
    decreases |requests|
  {
    PatchableStep(block, requests, nl);
    var next := Apply(block, requests[0].key, requests[0].value, nl);
    if k > 0 {
      PatchValues(next, requests[1..], nl, k - 1);
    } else {
      ApplyValues(block, requests[0].key, requests[0].value, nl);
      PatchOthers(next, requests[1..], nl, Keys(requests[1..]));
      KeptValues(next, PatchBlock(next, requests[1..], nl), Keys(requests[1..]), requests[0].key);
    }
  }

  lemma {:induction false} PatchClosed(block: seq<Node>, requests: seq<Request>, nl: string)
    requires Patchable(block, requests, nl) && ClosedNodes(block)
    ensures ClosedNodes(PatchBlock(block, requests, nl))
    decreases |requests|
  {
    if requests != [] {
      PatchableStep(block, requests, nl);
      ApplyClosed(block, requests[0].key, requests[0].value, nl);
      PatchClosed(Apply(block, requests[0].key, requests[0].value, nl), requests[1..], nl);
    }
  }

  // ---- A block whose last line the text leaves open ----

  lemma RewriteRest(h: Node, rest: seq<Node>, key: Key, value: string)
    ensures Rewrite([h] + rest, key, value) ==
            if Assigns(h, key) then (if value == "" then [] else [SetValue(h, value)]) + Others(rest, {key})
            else [h] + Rewrite(rest, key, value)
  {
    assert ([h] + rest)[1..] == rest;
  }

  lemma {:induction false} RewriteAppend(a: seq<Node>, b: seq<Node>, key: Key, value: string)
    ensures Rewrite(a + b, key, value) ==
            if HasKey(a, key) then Rewrite(a, key, value) + Others(b, {key}) else a + Rewrite(b, key, value)
  {
    if a == [] {
      assert a + b == b && [] + Rewrite(b, key, value) == Rewrite(b, key, value);
    } else {
      var h, rest := a[0], a[1..];
      FirstAndRest(a);
      Associate([h], rest, b);
      HasKeyRest(a, key);
      RewriteRest(h, rest, key, value);
      RewriteRest(h, rest + b, key, value);
      if Assigns(h, key) {
        OthersAppend(rest, b, {key});
        Associate(if value == "" then [] else [SetValue(h, value)], Others(rest, {key}), Others(b, {key}));
      } else {
        RewriteAppend(rest, b, key, value);
        Associate([h], Rewrite(rest, key, value), Others(b, {key}));
        Associate([h], rest, Rewrite(b, key, value));
      }
    }
  }

  lemma {:induction false} OthersNone(a: seq<Node>, key: Key)
    requires !HasKey(a, key)
    ensures Others(a, {key}) == a
  {
    if a != [] {
      HasKeyRest(a, key);
      assert Assigns(a[0], key) == AssignsAny(a[0], {key});
      OthersNone(a[1..], key);
    }
  }

  lemma HasKeyAppend(a: seq<Node>, b: seq<Node>, key: Key)
    ensures HasKey(a + b, key) <==> HasKey(a, key) || HasKey(b, key)
  {
    assert forall i :: 0 <= i < |a| ==> (a + b)[i] == a[i];
    assert forall i :: 0 <= i < |b| ==> (a + b)[|a| + i] == b[i];
  }

  /** The request removes the line behind the block `a`. */
  predicate Removes(a: seq<Node>, l: Node, r: Request) {
    Assigns(l, r.key) && (r.value == "" || HasKey(a, r.key))
  }

  /** The request adds a line at the end of the block. */
  predicate Adds(a: seq<Node>, l: Node, r: Request) {
    r.value != "" && !HasKey(a, r.key) && !Assigns(l, r.key)
  }

  /** A block whose one open line is followed by lines added since, none of which
      assigns a key still to come. */
  ghost predicate OneOpen(a: seq<Node>, l: Node, f: seq<Node>, requests: seq<Request>) {
    && ClosedNodes(a) && !Closed(l.raw) && ClosedNodes(f)
    && forall i :: 0 <= i < |requests| ==> !HasKey(f, requests[i].key)
  }

  /** One key rewritten in such a block, by where it occurs. */
  lemma OpenApplied(a: seq<Node>, l: Node, f: seq<Node>, r: Request, nl: string)
    requires Settable(r.key) && !HasKey(f, r.key)
    ensures Apply(a + [l] + f, r.key, r.value, nl) ==
            if HasKey(a, r.key) then Rewrite(a, r.key, r.value) + (if Assigns(l, r.key) then [] else [l]) + f
            else if Assigns(l, r.key) then a + (if r.value == "" then [] else [SetValue(l, r.value)]) + f
            else if r.value == "" then a + [l] + f
            else a + [l] + (f + [FreshNode(r.key, r.value, nl)])
  {
    Associate(a, [l], f);
    HasKeyAppend(a, [l] + f, r.key);
    HasKeyAppend([l], f, r.key);
    assert [l][0] == l;
    RewriteAppend(a, [l] + f, r.key, r.value);
    assert ([l] + f)[1..] == f;
    OthersNone(f, r.key);
    if HasKey(a, r.key) {
      Associate(Rewrite(a, r.key, r.value), if Assigns(l, r.key) then [] else [l], f);
      assert [] + f == f;
    } else if Assigns(l, r.key) {
      Associate(a, if r.value == "" then [] else [SetValue(l, r.value)], f);
    } else {
      Associate(a + [l], f, [FreshNode(r.key, r.value, nl)]);
    }
  }

  lemma RewriteHasKey(a: seq<Node>, key: Key, value: string, other: Key)
    requires other != key
    ensures HasKey(Rewrite(a, key, value), other) <==> HasKey(a, other)
  {
    RewriteOthers(a, key, value, {key});
    HasKeyOthers(a, {key}, other);
    HasKeyOthers(Rewrite(a, key, value), {key}, other);
  }

  lemma HasKeyOthers(a: seq<Node>, keys: set<Key>, other: Key)
    requires other !in keys
    ensures HasKey(Others(a, keys), other) <==> HasKey(a, other)
  {
    OthersAmong(a, keys);
    if HasKey(a, other) {
      var i :| 0 <= i < |a| && Assigns(a[i], other);
      assert a[i] in Others(a, keys);
    }
    if HasKey(Others(a, keys), other) {
      var i :| 0 <= i < |Others(a, keys)| && Assigns(Others(a, keys)[i], other);
      assert Others(a, keys)[i] in a;
    }
  }

  /** The step in the terms of the parts. */
  lemma OpenStep(a: seq<Node>, l: Node, f: seq<Node>, requests: seq<Request>, nl: string)
    returns (a': seq<Node>, l': Node, f': seq<Node>)
    requires requests != [] && Patchable(a + [l] + f, requests, nl) && OneOpen(a, l, f, requests)
    requires !Removes(a, l, requests[0])
    ensures Apply(a + [l] + f, requests[0].key, requests[0].value, nl) == a' + [l'] + f'
    ensures OneOpen(a', l', f', requests[1..])
    ensures f' == if Adds(a, l, requests[0]) then f + [FreshNode(requests[0].key, requests[0].value, nl)] else f
    ensures l' == if Assigns(l, requests[0].key) then SetValue(l, requests[0].value) else l
    ensures forall other :: other != requests[0].key ==>
              (HasKey(a', other) <==> HasKey(a, other)) && (Assigns(l', other) <==> Assigns(l, other))
  {
    var r := requests[0];
    var block := a + [l] + f;
    assert forall node :: node in a ==> node in block;
    assert l in block && True(l);
    OpenApplied(a, l, f, r, nl);
    a', l', f' := a, l, f;
    if HasKey(a, r.key) {
      a' := Rewrite(a, r.key, r.value);
      RewriteClosed(a, r.key, r.value);
      forall other | other != r.key ensures HasKey(a', other) <==> HasKey(a, other) {
        RewriteHasKey(a, r.key, r.value, other);
      }
    } else if Assigns(l, r.key) {
      l' := SetValue(l, r.value);
      SetValueTrue(l, r.key, r.value);
    } else if r.value != "" {
      f' := f + [FreshNode(r.key, r.value, nl)];
      FreshNodeTrue(r.key, r.value, nl);
      NoLaterKey(f, requests, nl);
    }
  }

  lemma NoLaterKey(f: seq<Node>, requests: seq<Request>, nl: string)
    requires requests != [] && DistinctKeys(requests) && Settable(requests[0].key)
    requires forall i :: 0 <= i < |requests| ==> !HasKey(f, requests[i].key)
    ensures forall i :: 0 <= i < |requests[1..]| ==>
              !HasKey(f + [FreshNode(requests[0].key, requests[0].value, nl)], requests[1..][i].key)
  {
    var made := FreshNode(requests[0].key, requests[0].value, nl);
    KeyNames(requests[0].key, KeyName(requests[0].key));
    forall i | 0 <= i < |requests[1..]| ensures !HasKey(f + [made], requests[1..][i].key) {
      assert requests[1..][i] == requests[i + 1];
      HasKeyAppend(f, [made], requests[i + 1].key);
    }
  }

  lemma FrontTrue(a: seq<Node>, b: seq<Node>, key: Key)
    requires AllTrue(a + b) && Spliceable(a + b, key)
    ensures AllTrue(a) && Spliceable(a, key)
  {
    hide True, Assigns, ParseLine;
    forall node | node in a ensures node in a + b {
    }
  }

  lemma JoinClosed(a: seq<Node>, f: seq<Node>)
    requires ClosedNodes(a) && ClosedNodes(f)
    ensures ClosedNodes(a + [] + f)
  {
  }

  lemma OpenRemoved(a: seq<Node>, l: Node, f: seq<Node>, requests: seq<Request>, nl: string)
    requires requests != [] && Patchable(a + [l] + f, requests, nl) && OneOpen(a, l, f, requests)
    requires Removes(a, l, requests[0])
    ensures ClosedNodes(Apply(a + [l] + f, requests[0].key, requests[0].value, nl))
  {
    hide Apply, Rewrite, AllTrue, Spliceable, HasKey, Assigns, ClosedNodes, SetValue, FreshNode, Valued;
    var r := requests[0];
    Associate(a, [l], f);
    FrontTrue(a, [l] + f, r.key);
    OpenApplied(a, l, f, r, nl);
    RewriteClosed(a, r.key, r.value);
    JoinClosed(Rewrite(a, r.key, r.value), f);
    JoinClosed(a, f);
  }

  ghost predicate SomeRemoves(a: seq<Node>, l: Node, requests: seq<Request>) {
    exists i :: 0 <= i < |requests| && Removes(a, l, requests[i])
  }

  ghost predicate SomeAdds(a: seq<Node>, l: Node, requests: seq<Request>) {
    exists i :: 0 <= i < |requests| && Adds(a, l, requests[i])
  }

  lemma SomeLater(a: seq<Node>, l: Node, a': seq<Node>, l': Node, requests: seq<Request>)
    requires requests != [] && DistinctKeys(requests)
    requires forall other :: other != requests[0].key ==>
               (HasKey(a', other) <==> HasKey(a, other)) && (Assigns(l', other) <==> Assigns(l, other))
    ensures SomeRemoves(a, l, requests) <==> Removes(a, l, requests[0]) || SomeRemoves(a', l', requests[1..])
    ensures SomeAdds(a, l, requests) <==> Adds(a, l, requests[0]) || SomeAdds(a', l', requests[1..])
  {
    var rest := requests[1..];
    forall i | 0 <= i < |rest|
      ensures Removes(a', l', rest[i]) == Removes(a, l, requests[i + 1])
      ensures Adds(a', l', rest[i]) == Adds(a, l, requests[i + 1])
    {
      assert rest[i] == requests[i + 1];
    }
    if SomeRemoves(a, l, requests) && !Removes(a, l, requests[0]) {
      var i :| 0 <= i < |requests| && Removes(a, l, requests[i]);
      assert Removes(a', l', rest[i - 1]);
    }
    if SomeAdds(a, l, requests) && !Adds(a, l, requests[0]) {
      var i :| 0 <= i < |requests| && Adds(a, l, requests[i]);
      assert Adds(a', l', rest[i - 1]);
    }
    if SomeRemoves(a', l', rest) {
      var i :| 0 <= i < |rest| && Removes(a', l', rest[i]);
      assert Removes(a, l, requests[i + 1]);
    }
    if SomeAdds(a', l', rest) {
      var i :| 0 <= i < |rest| && Adds(a', l', rest[i]);
      assert Adds(a, l, requests[i + 1]);
    }
  }

  lemma ClosedIsFront(a: seq<Node>, l: Node, f: seq<Node>)
    requires ClosedNodes(a) && !Closed(l.raw) && ClosedNodes(f)
    ensures ClosedFront(a + [l] + f) <==> f == []
  {
    var all := a + [l] + f;
    assert all[|a|] == l;
    assert forall i :: 0 <= i < |a| ==> all[i] == a[i];
  }

  /** The lines stay apart exactly if the open line goes or no line is added. */
  lemma {:induction false} OpenPatched(a: seq<Node>, l: Node, f: seq<Node>, requests: seq<Request>, nl: string)
    requires Patchable(a + [l] + f, requests, nl) && OneOpen(a, l, f, requests)
    ensures ClosedFront(PatchBlock(a + [l] + f, requests, nl)) <==>
            SomeRemoves(a, l, requests) || (f == [] && !SomeAdds(a, l, requests))
    decreases |requests|
  {
    if requests == [] {
      ClosedIsFront(a, l, f);
    } else {
      PatchableStep(a + [l] + f, requests, nl);
      if Removes(a, l, requests[0]) {
        OpenRemoved(a, l, f, requests, nl);
        PatchClosed(Apply(a + [l] + f, requests[0].key, requests[0].value, nl), requests[1..], nl);
      } else {
        var a', l', f' := OpenStep(a, l, f, requests, nl);
        SomeLater(a, l, a', l', requests);
        OpenPatched(a', l', f', requests[1..], nl);
      }
    }
  }
}
