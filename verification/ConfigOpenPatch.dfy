/** Patching the last block of a text that leaves its last line open. */
module ConfigOpenPatch {
  // A line the patch adds to such a block runs into the open line.  This module says
  // exactly when the text still says what the patch put together, and exactly when
  // the peers still read as the patch asked.

  import opened Text
  import opened ConfigSyntax
  import opened ConfigMeaning
  import opened ConfigAnalysis
  import opened ConfigPatch
  import opened ConfigDocument

  // ---- The block ----

  predicate FirstAdds(a: seq<Node>, l: Node, requests: seq<Request>, i: nat) {
    i < |requests| && Adds(a, l, requests[i]) && forall j :: 0 <= j < i ==> !Adds(a, l, requests[j])
  }

  /** Lines made for requests. */
  ghost predicate Made(f: seq<Node>, requests: seq<Request>, nl: string)
    requires AllSettable(requests)
  {
    forall node :: node in f ==>
      exists i :: 0 <= i < |requests| && node == FreshNode(requests[i].key, requests[i].value, nl)
  }

  lemma FirstLater(a: seq<Node>, l: Node, a': seq<Node>, l': Node, requests: seq<Request>, i: nat)
    requires requests != [] && DistinctKeys(requests) && !Adds(a, l, requests[0])
    requires forall other :: other != requests[0].key ==>
               (HasKey(a', other) <==> HasKey(a, other)) && (Assigns(l', other) <==> Assigns(l, other))
    requires FirstAdds(a', l', requests[1..], i)
    ensures FirstAdds(a, l, requests, i + 1)
  {
    forall j | 0 <= j <= i ensures Adds(a', l', requests[1..][j]) == Adds(a, l, requests[j + 1]) {
      assert requests[1..][j] == requests[j + 1];
    }
    forall j | 0 <= j < i + 1 ensures !Adds(a, l, requests[j]) {
      if j > 0 {
        assert !Adds(a', l', requests[1..][j - 1]);
      }
    }
  }

  lemma MadeMore(f: seq<Node>, more: seq<Node>, requests: seq<Request>, nl: string)
    requires requests != [] && AllSettable(requests) && Made(more, requests[1..], nl)
    requires f == [] || f == [FreshNode(requests[0].key, requests[0].value, nl)]
    ensures Made(f + more, requests, nl)
  {
    forall node | node in f + more
      ensures exists i :: 0 <= i < |requests| && node == FreshNode(requests[i].key, requests[i].value, nl)
    {
      if node in more {
        var i :| 0 <= i < |requests[1..]| && node == FreshNode(requests[1..][i].key, requests[1..][i].value, nl);
        assert requests[1..][i] == requests[i + 1];
      } else {
        assert node == FreshNode(requests[0].key, requests[0].value, nl);
      }
    }
  }

  lemma NothingAsked(a: seq<Node>, l: Node, f: seq<Node>, nl: string)
    requires OneOpen(a, l, f, [])
    ensures PatchBlock(a + [l] + f, [], nl) == a + [l] + f && ClosedNodes(a) && !Closed(l.raw) && ClosedNodes(f)
    ensures Made([], [], nl) && !SomeAdds(a, l, [])
  {
  }

  /** What becomes of the lines before the open one, of the open one, and which
      lines are added behind it. */
  lemma {:induction false} OpenShape(a: seq<Node>, l: Node, f: seq<Node>, requests: seq<Request>, nl: string)
    returns (a': seq<Node>, l': Node, more: seq<Node>, first: nat)
    requires Patchable(a + [l] + f, requests, nl) && OneOpen(a, l, f, requests) && !SomeRemoves(a, l, requests)
    ensures PatchBlock(a + [l] + f, requests, nl) == a' + [l'] + (f + more)
    ensures ClosedNodes(a') && !Closed(l'.raw) && ClosedNodes(f + more) && Made(more, requests, nl)
    ensures l'.kind == l.kind && l'.key == l.key
    ensures (forall i :: 0 <= i < |requests| ==> !Assigns(l, requests[i].key)) ==> l' == l
    ensures SomeAdds(a, l, requests) ==>
              && FirstAdds(a, l, requests, first) && more != []
              && more[0] == FreshNode(requests[first].key, requests[first].value, nl)
    decreases |requests|
  {
    hide ClosedNodes, OneOpen, SomeRemoves, SomeAdds, FirstAdds, Assigns, Adds, FreshNode, Made, Apply, AllTrue, Spliceable;
    if requests == [] {
      a', l', more, first := a, l, [], 0;
      NothingAsked(a, l, f, nl);
      NothingAround(f);
    } else {
      PatchableStep(a + [l] + f, requests, nl);
      SomeRemovesNow(a, l, requests);
      var a1, l1, f1 := OpenStep(a, l, f, requests, nl);
      SomeLater(a, l, a1, l1, requests);
      var rest: seq<Node>;
      a', l', rest, first := OpenShape(a1, l1, f1, requests[1..], nl);
      var now := if Adds(a, l, requests[0]) then [FreshNode(requests[0].key, requests[0].value, nl)] else [];
      assert f1 == f + now;
      Associate(f, now, rest);
      more := now + rest;
      MadeMore(now, rest, requests, nl);
      OpenFirst(a, l, a1, l1, requests, now, rest, nl, first);
      first := if now == [] then first + 1 else 0;
      if forall i :: 0 <= i < |requests| ==> !Assigns(l, requests[i].key) {
        assert forall i :: 0 <= i < |requests[1..]| ==> requests[1..][i] == requests[i + 1];
      }
    }
  }

  lemma SomeRemovesNow(a: seq<Node>, l: Node, requests: seq<Request>)
    requires requests != [] && !SomeRemoves(a, l, requests)
    ensures !Removes(a, l, requests[0])
  {
  }

  lemma OpenFirst(a: seq<Node>, l: Node, a1: seq<Node>, l1: Node, requests: seq<Request>, now: seq<Node>,
                  rest: seq<Node>, nl: string, first: nat)
    requires requests != [] && DistinctKeys(requests) && AllSettable(requests)
    requires now == if Adds(a, l, requests[0]) then [FreshNode(requests[0].key, requests[0].value, nl)] else []
    requires forall other :: other != requests[0].key ==>
               (HasKey(a1, other) <==> HasKey(a, other)) && (Assigns(l1, other) <==> Assigns(l, other))
    requires SomeAdds(a1, l1, requests[1..]) ==>
               && FirstAdds(a1, l1, requests[1..], first) && rest != []
               && rest[0] == FreshNode(requests[1..][first].key, requests[1..][first].value, nl)
    ensures SomeAdds(a, l, requests) ==>
              var i := if now == [] then first + 1 else 0;
              && FirstAdds(a, l, requests, i) && now + rest != []
              && (now + rest)[0] == FreshNode(requests[i].key, requests[i].value, nl)
  {
    SomeLater(a, l, a1, l1, requests);
    if SomeAdds(a, l, requests) && now == [] {
      FirstLater(a, l, a1, l1, requests, first);
      assert requests[1..][first] == requests[first + 1];
      assert now + rest == rest;
    }
  }

  // ---- The text ----

  lemma ClosedRaws(block: seq<Node>)
    requires AllTrue(block) && ClosedNodes(block)
    ensures AllClosed(Raws(block))
  {
    forall i | 0 <= i < |block| ensures IsLine(Raws(block)[i]) && Closed(Raws(block)[i]) {
      assert block[i] in block && True(block[i]);
    }
  }

  lemma TruePart(a: seq<Node>, b: seq<Node>, c: seq<Node>)
    requires AllTrue(a + b + c)
    ensures AllTrue(a) && AllTrue(b) && AllTrue(c)
  {
    forall node | node in a || node in b || node in c ensures True(node) {
      assert node in a + b + c;
    }
  }

  lemma GrownConcat(a: seq<string>, line: string, m: string, rest: seq<string>)
    ensures Concat(a + [line + m] + rest) == Concat(a + [line] + ([m] + rest))
  {
    ConcatThree(a, [line + m], rest);
    ConcatThree(a, [line], [m] + rest);
    ConcatAppend([m], rest);
    ConcatOne(m);
    ConcatOne(line);
    ConcatOne(line + m);
    MoveOver(Concat(a), line, m, Concat(rest));
  }

  lemma MoveOver(a: string, line: string, m: string, rest: string)
    ensures a + (line + m) + rest == a + line + (m + rest)
  {
    Associate(a, line + m, rest);
    Associate(line, m, rest);
    Associate(a, line, m + rest);
  }

  lemma GrownLines(a: seq<string>, line: string, m: string, rest: seq<string>)
    requires AllClosed(a) && IsLine(line) && !Closed(line) && IsLine(m) && Closed(m) && AllClosed(rest)
    ensures AllClosed(a + [line + m] + rest)
    ensures Concat(a + [line + m] + rest) == Concat(a + [line] + ([m] + rest))
  {
    LineGrows(line, m);
    assert (line + m)[|line + m| - 1] == m[|m| - 1];
    GrownConcat(a, line, m, rest);
  }

  lemma OpenRaws(a: seq<Node>, l: Node, f: seq<Node>)
    requires AllTrue(a + [l] + f) && ClosedNodes(a) && ClosedNodes(f) && f != []
    ensures Raws(a + [l] + f) == Raws(a) + [l.raw] + ([f[0].raw] + Raws(f[1..]))
    ensures AllClosed(Raws(a)) && IsLine(l.raw) && IsLine(f[0].raw) && Closed(f[0].raw) && AllClosed(Raws(f[1..]))
  {
    TruePart(a, [l], f);
    assert [l][0] in [l] && True(l);
    assert f[0] in f && True(f[0]) && Closed(f[0].raw);
    ClosedRaws(a);
    ClosedTail(f);
    SaidAppend(a + [l], f);
    SaidAppend(a, [l]);
    SaidFirst(f);
    assert Raws([l]) == [l.raw];
  }

  lemma ClosedTail(f: seq<Node>)
    requires AllTrue(f) && ClosedNodes(f) && f != []
    ensures AllClosed(Raws(f[1..]))
  {
    FirstAndRest(f);
    assert forall node :: node in f[1..] ==> node in f;
    assert forall i :: 0 <= i < |f| - 1 ==> f[1..][i] == f[i + 1];
    ClosedRaws(f[1..]);
  }

  /** The lines of a text whose open line runs into the first added one. */
  lemma OpenLines(before: seq<string>, a: seq<Node>, l: Node, f: seq<Node>)
    requires AllClosed(before) && AllTrue(a + [l] + f) && ClosedNodes(a) && !Closed(l.raw) && ClosedNodes(f) && f != []
    ensures var after := Raws(a) + [l.raw + f[0].raw] + Raws(f[1..]);
            Lines(Concat(before) + Concat(Raws(a + [l] + f)) + "") == before + after
  {
    OpenRaws(a, l, f);
    GrownText(before, Raws(a), l.raw, f[0].raw, Raws(f[1..]));
  }

  lemma GrownText(before: seq<string>, a: seq<string>, line: string, m: string, rest: seq<string>)
    requires AllClosed(before) && AllClosed(a) && IsLine(line) && !Closed(line)
    requires IsLine(m) && Closed(m) && AllClosed(rest)
    ensures Lines(Concat(before) + Concat(a + [line] + ([m] + rest)) + "") == before + (a + [line + m] + rest)
  {
    var after := a + [line + m] + rest;
    GrownLines(a, line, m, rest);
    ConcatAppend(before, after);
    JoinSplit(before, after);
    LinesJoin(before + after);
    assert Concat(before) + Concat(after) + "" == Concat(before) + Concat(after);
  }

  // ---- The line run into ----

  lemma BlankGoesOn(line: string, more: string)
    requires StmtOf(line) == Blank
    ensures StmtOf(line + more) == StmtOf(more)
  {
    var a, b := TrimSplit(line);
    assert Trim(line) == "" && a + "" + b == a + b;
    assert line + more == (a + b) + more + "";
    TrimPad(a + b, more, "");
  }

  lemma NotTrimmed(s: string, c: char)
    requires c in s && !IsSpace(c)
    ensures c in Trim(s)
  {
    var a, b := TrimSplit(s);
    assert c in a || c in Trim(s) || c in b;
    AllSpaceWithout(a, c);
    AllSpaceWithout(b, c);
  }

  lemma AllSpaceWithout(s: string, c: char)
    requires AllSpace(s) && !IsSpace(c)
    ensures c !in s
  {
  }

  lemma LowerKeeps(s: string)
    requires '=' in s
    ensures '=' in Lower(s)
  {
    var i :| 0 <= i < |s| && s[i] == '=';
    assert Lower(s)[i] == '=';
  }

  /** The value of a line whose value grows at its end. */
  lemma ValueGrows(tail: string, b: string, core: string) returns (pad: string)
    requires AllSpace(b) && core != "" && Tight(core)
    ensures AllSpace(pad) && Trim(tail + b + core) == Trim(tail) + pad + core
  {
    var p, q := TrimSplit(tail);
    var v := Trim(tail);
    if v == "" {
      pad := "";
      assert tail + b + core == (p + q + b) + core + "";
      TrimPad(p + q + b, core, "");
      TrimTight(core);
      assert "" + "" + core == core;
    } else {
      pad := q + b;
      var grown := v + pad + core;
      assert tail + b + core == p + grown + "";
      TrimPad(p, grown, "");
      assert grown[0] == v[0] && grown[|grown| - 1] == core[|core| - 1];
      TrimTight(grown);
    }
  }

  /** A section header that is not one of the two known ones. */
  predicate Strange(t: Stmt) {
    t.Header? && t.section.OtherSection?
  }

  lemma StrangeHeader(t: string)
    requires |t| > 1 && t[0] == '[' && t[|t| - 1] == ']' && '=' in t[1..|t| - 1]
    ensures Strange(Named(Classify(t)))
  {
    NotTrimmed(t[1..|t| - 1], '=');
    LowerKeeps(Trim(t[1..|t| - 1]));
    var name := Lower(Trim(t[1..|t| - 1]));
    assert '=' !in "interface" && '=' !in "peer";
    assert name != "interface" && name != "peer";
  }

  lemma GrownTrim(line: string, core: string, end: string) returns (b: string)
    requires Trim(line) != "" && core != "" && Tight(core) && AllSpace(end)
    ensures AllSpace(b) && Trim(line + (core + end)) == Trim(line) + b + core
  {
    var a: string;
    a, b := TrimSplit(line);
    var grown := Trim(line) + b + core;
    assert line + (core + end) == a + grown + end;
    TrimPad(a, grown, end);
    assert grown[0] == Trim(line)[0] && grown[|grown| - 1] == core[|core| - 1];
    TrimTight(grown);
  }

  lemma SidesGrow(t: string, more: string, e: nat)
    requires e == IndexOf(t, '=') < |t|
    ensures IndexOf(t + more, '=') == e && (t + more)[..e] == t[..e] && (t + more)[e + 1..] == t[e + 1..] + more
  {
    assert forall i :: 0 <= i < e ==> (t + more)[i] == t[i];
    IndexIs(t + more, '=', e);
  }

  lemma GrownSides(t: string, b: string, core: string)
    requires IndexOf(t, '=') < |t|
    ensures var grown, e := t + b + core, IndexOf(t, '=');
            && e < |grown| && IndexOf(grown, '=') == e
            && grown[..e] == t[..e] && grown[e + 1..] == t[e + 1..] + b + core
  {
    var e := IndexOf(t, '=');
    Associate(t, b, core);
    SidesGrow(t, b + core, e);
    Associate(t[e + 1..], b, core);
  }

  lemma GrownPhrase(t: string, b: string, core: string) returns (pad: string)
    requires Classify(t).Assign? && AllSpace(b) && core != "" && Tight(core)
    ensures AllSpace(pad)
    ensures var p, p' := Classify(t), Classify(t + b + core);
            || p' == Assign(p.key, p.value + pad + core)
            || (Strange(Named(p')) && core[|core| - 1] == ']')
  {
    hide IsSpace, Trim, AllSpace, Lower;
    var e, grown := IndexOf(t, '='), t + b + core;
    GrownSides(t, b, core);
    pad := ValueGrows(t[e + 1..], b, core);
    assert grown[0] == t[0] && grown[|grown| - 1] == core[|core| - 1];
    if grown[0] == '[' && grown[|grown| - 1] == ']' {
      assert grown[1..|grown| - 1][e - 1] == '=';
      StrangeHeader(grown);
    }
  }

  /** An assignment that goes on still assigns its key, unless brackets make a
      header of it. */
  lemma AssignGoesOn(line: string, core: string, end: string) returns (pad: string)
    requires StmtOf(line).Assign? && core != "" && Tight(core) && AllSpace(end)
    ensures AllSpace(pad)
    ensures var t, t' := StmtOf(line), StmtOf(line + (core + end));
            || t' == Assign(t.key, t.value + pad + core)
            || (Strange(t') && core[|core| - 1] == ']')
  {
    var b := GrownTrim(line, core, end);
    pad := GrownPhrase(Trim(line), b, core);
  }

  function Core(u: Stmt): string
    requires u.Assign? && Settable(u.key)
  {
    Display(u.key) + " = " + u.value
  }

  /** What is said when a line that says `t` runs into an added line `u`. */
  ghost predicate RunsInto(t: Stmt, u: Stmt, m: Stmt)
    requires u.Assign? && Settable(u.key) && u.value != ""
  {
    match t
    case Blank => m == u
    case Comment => m == Comment
    case Assign(key, value) =>
      || (exists pad :: AllSpace(pad) && m == Assign(key, value + pad + Core(u)))
      || (Strange(m) && u.value[|u.value| - 1] == ']')
    case _ => false
  }

  lemma CoreTight(u: Stmt)
    requires u.Assign? && Settable(u.key) && Writable(u.value)
    ensures Core(u) != "" && Tight(Core(u)) && Core(u)[|Core(u)| - 1] == u.value[|u.value| - 1]
  {
    DisplayNames(u.key);
  }

  lemma RunInAssign(line: string, u: Stmt, nl: string)
    requires u.Assign? && Settable(u.key) && Writable(u.value) && IsNewline(nl) && StmtOf(line).Assign?
    ensures RunsInto(StmtOf(line), u, StmtOf(line + (Core(u) + nl)))
  {
    hide StmtOf, Core, Strange, Writable;
    CoreTight(u);
    var pad := AssignGoesOn(line, Core(u), nl);
  }

  lemma RunIn(line: string, key: Key, value: string, nl: string)
    requires Settable(key) && Writable(value) && IsNewline(nl)
    requires !StmtOf(line).Header? && !StmtOf(line).Raw?
    ensures RunsInto(StmtOf(line), Assign(key, value), StmtOf(line + FreshNode(key, value, nl).raw))
  {
    var u, made := Assign(key, value), FreshNode(key, value, nl).raw;
    assert made == Core(u) + nl;
    if StmtOf(line).Blank? {
      FreshNodeTrue(key, value, nl);
      BlankGoesOn(line, made);
    } else if StmtOf(line).Comment? {
      CommentGoesOn(line, made);
    } else {
      RunInAssign(line, u, nl);
    }
  }

  // ---- A patch that does not stay apart ----

  predicate FirstAdded(lines: seq<string>, requests: seq<Request>, i: nat) {
    i < |requests| && AddsLine(lines, requests[i]) && forall j :: 0 <= j < i ==> !AddsLine(lines, requests[j])
  }

  lemma OpenRequests(block: seq<Node>, requests: seq<Request>)
    requires AllTrue(block) && block != []
    ensures var n := |block| - 1;
            && (SomeRemoves(block[..n], block[n], requests) <==> LastRemoved(Raws(block), requests))
            && (SomeAdds(block[..n], block[n], requests) <==> LineAdded(Raws(block), requests))
            && forall i :: FirstAdds(block[..n], block[n], requests, i) <==> FirstAdded(Raws(block), requests, i)
  {
    RequestsLines(block, requests);
    forall i | 0 <= i < |requests|
      ensures Adds(block[..|block| - 1], block[|block| - 1], requests[i]) <==> AddsLine(Raws(block), requests[i])
    {
      RequestLines(block, requests[i]);
    }
  }

  /** The patched block in nodes. */
  lemma OpenNodes(block: seq<Node>, requests: seq<Request>, nl: string)
    returns (a: seq<Node>, l: Node, more: seq<Node>, first: nat)
    requires Patchable(block, requests, nl) && ClosedFront(block) && !Closed(block[|block| - 1].raw)
    requires !LastRemoved(Raws(block), requests) && LineAdded(Raws(block), requests)
    ensures PatchBlock(block, requests, nl) == a + [l] + more && AllTrue(a + [l] + more)
    ensures ClosedNodes(a) && !Closed(l.raw) && ClosedNodes(more) && Made(more, requests, nl) && more != []
    ensures FirstAdded(Raws(block), requests, first)
    ensures more[0] == FreshNode(requests[first].key, requests[first].value, nl)
    ensures var last := block[|block| - 1];
            && l.kind == last.kind && l.key == last.key
            && ((forall i :: 0 <= i < |requests| ==> !Assigns(last, requests[i].key)) ==> l == last)
  {
    var n := |block| - 1;
    OpenRequests(block, requests);
    FrontAndLast(block);
    assert block[..n] + [block[n]] + [] == block;
    assert forall i :: 0 <= i < n ==> block[..n][i] == block[i];
    a, l, more, first := OpenShape(block[..n], block[n], [], requests, nl);
    assert [] + more == more;
    PatchOthers(block, requests, nl, Keys(requests));
  }

  /** A block behind its header: what the patch put together, with `t` the line
      left open and `u` the first line added, and `m` what the two say as one. */
  datatype Ran = Ran(front: seq<Stmt>, t: Stmt, u: Stmt, m: Stmt, rest: seq<Stmt>)

  function Intended(r: Ran): seq<Stmt> {
    r.front + [r.t] + ([r.u] + r.rest)
  }

  function Actual(r: Ran): seq<Stmt> {
    r.front + [r.m] + r.rest
  }

  /** What the patch may do to the line left open. */
  predicate Remains(before: Stmt, after: Stmt, keys: set<Key>) {
    && (before.Assign? <==> after.Assign?)
    && (before.Assign? ==> after.key == before.key)
    && (!before.Assign? || before.key !in keys ==> after == before)
  }

  ghost predicate RanInto(lines: seq<string>, requests: seq<Request>, r: Ran) {
    && lines != [] && Remains(StmtOf(lines[|lines| - 1]), r.t, Keys(requests))
    && r.u.Assign? && Settable(r.u.key) && r.u.value != "" && RunsInto(r.t, r.u, r.m)
    && (exists i: nat :: FirstAdded(lines, requests, i) && r.u == Assign(requests[i].key, requests[i].value))
    && (forall i :: 0 <= i < |r.rest| ==> r.rest[i].Assign? && r.rest[i].key in Keys(requests))
  }

  lemma MadeSaid(f: seq<Node>, requests: seq<Request>, nl: string)
    requires AllSettable(requests) && Made(f, requests, nl)
    ensures forall i :: 0 <= i < |Said(f)| ==> Said(f)[i].Assign? && Said(f)[i].key in Keys(requests)
  {
    forall i | 0 <= i < |f| ensures Said(f)[i].Assign? && Said(f)[i].key in Keys(requests) {
      assert f[i] in f;
      var j :| 0 <= j < |requests| && f[i] == FreshNode(requests[j].key, requests[j].value, nl);
      KeyNames(requests[j].key, KeyName(requests[j].key));
    }
  }

  lemma LastRemains(l: Node, last: Node, requests: seq<Request>)
    requires l.kind == last.kind && l.key == last.key
    requires (forall i :: 0 <= i < |requests| ==> !Assigns(last, requests[i].key)) ==> l == last
    requires !last.kind.Assignment? ==> l == last
    ensures Remains(Named(Meaning(last)), Named(Meaning(l)), Keys(requests))
  {
    var t := Named(Meaning(last));
    forall i | 0 <= i < |requests| ensures Assigns(last, requests[i].key) <==> t.Assign? && t.key == requests[i].key {
      StmtAssigns(last, requests[i].key);
    }
  }

  lemma RanLast(block: seq<Node>, requests: seq<Request>, l: Node)
    requires block != [] && AllTrue(block) && True(l)
    requires var last := block[|block| - 1];
             && l.kind == last.kind && l.key == last.key
             && ((forall i :: 0 <= i < |requests| ==> !Assigns(last, requests[i].key)) ==> l == last)
    ensures Remains(StmtOf(Raws(block)[|block| - 1]), StmtOf(l.raw), Keys(requests))
  {
    var last := block[|block| - 1];
    assert last in block && True(last);
    LastRemains(l, last, requests);
  }

  lemma RanMade(l: Node, r: Request, nl: string)
    requires True(l) && !l.kind.SectionHeader? && !l.kind.RawLine? && Settable(r.key) && Writable(r.value) && IsNewline(nl)
    ensures var made := FreshNode(r.key, r.value, nl).raw;
            && StmtOf(made) == Assign(r.key, r.value)
            && RunsInto(StmtOf(l.raw), Assign(r.key, r.value), StmtOf(l.raw + made))
  {
    RunIn(l.raw, r.key, r.value, nl);
    FreshNodeTrue(r.key, r.value, nl);
  }

  lemma RestSaid(more: seq<Node>, requests: seq<Request>, nl: string)
    requires AllSettable(requests) && Made(more, requests, nl) && more != []
    ensures forall i :: 0 <= i < |Said(more[1..])| ==>
              Said(more[1..])[i].Assign? && Said(more[1..])[i].key in Keys(requests)
  {
    assert forall node :: node in more[1..] ==> node in more;
    MadeSaid(more[1..], requests, nl);
  }

  /** The patched block in statements, as put together and as it will be read. */
  lemma OpenSaid(before: seq<string>, block: seq<Node>, requests: seq<Request>, nl: string)
    returns (r: Ran, lines: seq<string>)
    requires AllClosed(before) && Patchable(block, requests, nl) && |block| > 1
    requires ClosedFront(block) && !Closed(block[|block| - 1].raw)
    requires block[0].kind.SectionHeader? && NoHeader(Said(block[1..])) && NoRaw(Said(block[1..]))
    requires !LastRemoved(Raws(block), requests) && LineAdded(Raws(block), requests)
    ensures Said(PatchBlock(block, requests, nl)) == [Said(block)[0]] + Intended(r)
    ensures Lines(Concat(before) + Concat(Raws(PatchBlock(block, requests, nl))) + "") == before + lines
    ensures Stmts(lines) == [Said(block)[0]] + Actual(r)
    ensures RanInto(Raws(block), requests, r)
  {
    var a, l, more, first := OpenNodes(block, requests, nl);
    TruePart(a, [l], more);
    assert [l][0] in [l];
    LastBody(block);
    RanLast(block, requests, l);
    RanMade(l, requests[first], nl);
    RestSaid(more, requests, nl);
    PatchOthers(block, requests, nl, Keys(requests));
    FirstOfThree(a, l, more, block);
    r := Ran(Said(a[1..]), StmtOf(l.raw), StmtOf(more[0].raw), StmtOf(l.raw + more[0].raw), Said(more[1..]));
    OpenLines(before, a, l, more);
    lines := Raws(a) + [l.raw + more[0].raw] + Raws(more[1..]);
    SaidThree(a, l, more);
    StmtsThree(a, l.raw + more[0].raw, more[1..]);
    Associate([Said(block)[0]], Said(a[1..]), [r.t]);
    Associate([Said(block)[0]], Said(a[1..]) + [r.t], [r.u] + r.rest);
    Associate([Said(block)[0]], Said(a[1..]), [r.m]);
    Associate([Said(block)[0]], Said(a[1..]) + [r.m], r.rest);
  }

  lemma LastBody(block: seq<Node>)
    requires |block| > 1 && NoHeader(Said(block[1..])) && NoRaw(Said(block[1..]))
    ensures !block[|block| - 1].kind.SectionHeader? && !block[|block| - 1].kind.RawLine?
  {
    var said := Said(block[1..]);
    assert said[|said| - 1] == Named(Meaning(block[|block| - 1]));
    SaidKinds(block[1..]);
    assert block[1..][|block| - 2] == block[|block| - 1];
  }

  lemma FirstOfThree(a: seq<Node>, l: Node, more: seq<Node>, block: seq<Node>)
    requires block != [] && a + [l] + more != [] && (a + [l] + more)[0] == block[0] && block[0].kind.SectionHeader? && !l.kind.SectionHeader?
    ensures a != [] && a[0] == block[0]
  {
  }

  lemma SaidThree(a: seq<Node>, l: Node, more: seq<Node>)
    requires a != [] && more != [] && True(l) && True(more[0])
    ensures Said(a + [l] + more) ==
            [Named(Meaning(a[0]))] + Said(a[1..]) + [StmtOf(l.raw)] + ([StmtOf(more[0].raw)] + Said(more[1..]))
  {
    SaidAppend(a + [l], more);
    SaidAppend(a, [l]);
    SaidFirst(a);
    SaidFirst(more);
    assert Said([l]) == [Named(Meaning(l))];
  }

  lemma StmtsThree(a: seq<Node>, line: string, rest: seq<Node>)
    requires a != [] && AllTrue(a) && AllTrue(rest)
    ensures Stmts(Raws(a) + [line] + Raws(rest)) == [Named(Meaning(a[0]))] + Said(a[1..]) + [StmtOf(line)] + Said(rest)
  {
    StmtsAppend(Raws(a) + [line], Raws(rest));
    StmtsAppend(Raws(a), [line]);
    SaidIsMeant(a);
    SaidIsMeant(rest);
    SaidFirst(a);
    assert Stmts([line]) == [StmtOf(line)];
  }

  /** The last line of the text is white space only. */
  predicate LastBlank(raw: string) {
    Lines(raw) != [] && StmtOf(Lines(raw)[|Lines(raw)| - 1]) == Blank
  }

  lemma OpenCondition(x: Syntax, raw: string, publicKey: string, peer: Peer, patch: PeerPatch)
    requires !StaysApart(x, raw, publicKey, patch) && Requests(x, patch).Ok?
    requires Find(AnalysisOf(x, raw).peers, publicKey) == Some(peer) && peer.blockStart < peer.blockEnd <= |Lines(raw)|
    ensures !Closed(raw) && peer.blockEnd == |Lines(raw)|
    ensures var lines := PlaceOf(Lines(raw), peer).block;
            && lines != [] && lines[|lines| - 1] == Lines(raw)[|Lines(raw)| - 1]
            && !LastRemoved(lines, Requests(x, patch).value) && LineAdded(lines, Requests(x, patch).value)
  {
  }

  lemma BodyNotEmpty(x: Syntax, place: Place, view: PeerView, body: seq<Stmt>)
    requires Holds(x, place, view, body)
    requires Safe(x, Summary(x, Stmts(place.before + place.block + place.after)))
    ensures body != [] && NoRaw(body)
  {
    SafePlace(x, place, view, body);
  }

  /** A successful patch whose lines do not stay apart, in statements. */
  lemma OpenText(x: Syntax, raw: string, publicKey: string, patch: PeerPatch, next: string)
    returns (peer: Peer, body: seq<Stmt>, block: seq<string>, lines: seq<string>, r: Ran)
    requires x.Lawful() && Unbroken(patch) && PatchText(x, raw, publicKey, patch) == Ok(next)
    requires !StaysApart(x, raw, publicKey, patch)
    ensures Safe(x, Meant(x, raw)) && Requests(x, patch).Ok? && peer.view.publicKey == publicKey
    ensures Find(AnalysisOf(x, raw).peers, publicKey) == Some(peer)
    ensures peer.blockStart < peer.blockEnd == |Lines(raw)| && block == PatchedLines(x, raw, peer, patch)
    ensures var p := PlaceOf(Lines(raw), peer);
            && p.after == [] && p.before + p.block + p.after == Lines(raw)
            && Holds(x, p, peer.view, body) && OpenOk(x, Open(PeerSection, body))
            && Holds(x, Place(p.before, block, p.after), Patched(x, peer.view, patch), Intended(r))
            && OpenOk(x, Open(PeerSection, Intended(r)))
            && next == Concat(p.before) + Concat(block) + Concat(p.after)
            && Lines(next) == p.before + lines && Stmts(lines) == [Header(PeerSection)] + Actual(r)
            && RanInto(p.block, Requests(x, patch).value, r)
            && p.block != [] && p.block[|p.block| - 1] == Lines(raw)[|Lines(raw)| - 1]
    ensures forall q :: q in Requests(x, patch).value ==> Values(Intended(r), q.key) == OneValue(q.value)
  {
    var after: seq<Stmt>;
    peer, body, block, after := PatchParts(x, raw, publicKey, patch, next);
    var p, nodes := PlaceOf(Lines(raw), peer), BlockNodes(raw, peer);
    OpenCondition(x, raw, publicKey, peer, patch);
    OpenBlock(raw, peer);
    BlockIs(raw, peer);
    BlockHeader(x, raw, peer, body);
    BodyNotEmpty(x, p, peer.view, body);
    BlockPatchable(x, raw, peer, patch);
    r, lines := OpenSaid(p.before, nodes, Requests(x, patch).value, Newline(raw));
    SameSaid(nodes, Requests(x, patch).value, Newline(raw), after, Intended(r));
    AskedOnce(nodes, Requests(x, patch).value, Newline(raw), after);
  }

  lemma AskedOnce(nodes: seq<Node>, requests: seq<Request>, nl: string, after: seq<Stmt>)
    requires Patchable(nodes, requests, nl)
    requires Stmts(Raws(PatchBlock(nodes, requests, nl))) == [Header(PeerSection)] + after
    ensures forall q :: q in requests ==> Values(after, q.key) == OneValue(q.value)
  {
    PatchedBody(nodes, requests, nl);
    var patched := PatchBlock(nodes, requests, nl);
    SaidIsMeant(patched);
    SaidFirst(patched);
    assert ([Header(PeerSection)] + after)[1..] == after;
    assert ([Named(Meaning(patched[0]))] + Said(patched[1..]))[1..] == Said(patched[1..]);
  }

  lemma SameSaid(nodes: seq<Node>, requests: seq<Request>, nl: string, after: seq<Stmt>, intended: seq<Stmt>)
    requires Patchable(nodes, requests, nl) && Said(nodes)[0] == Header(PeerSection)
    requires Stmts(Raws(PatchBlock(nodes, requests, nl))) == [Header(PeerSection)] + after
    requires Said(PatchBlock(nodes, requests, nl)) == [Said(nodes)[0]] + intended
    ensures after == intended
  {
    PatchOthers(nodes, requests, nl, Keys(requests));
    SaidIsMeant(PatchBlock(nodes, requests, nl));
    assert ([Header(PeerSection)] + after)[1..] == after;
    assert ([Header(PeerSection)] + intended)[1..] == intended;
  }

  // ---- What the text says ----

  /** The statements that are not blank lines or comments. */
  function Spoken(s: seq<Stmt>): seq<Stmt> {
    if s == [] then [] else (if s[0].Blank? || s[0].Comment? then [] else [s[0]]) + Spoken(s[1..])
  }

  lemma {:induction false} SpokenAppend(a: seq<Stmt>, b: seq<Stmt>)
    ensures Spoken(a + b) == Spoken(a) + Spoken(b)
  {
    if a == [] {
      assert a + b == b;
    } else {
      assert (a + b)[1..] == a[1..] + b;
      SpokenAppend(a[1..], b);
    }
  }

  lemma SpokenOne(t: Stmt)
    ensures Spoken([t]) == if t.Blank? || t.Comment? then [] else [t]
  {
    assert [t][1..] == [];
  }

  lemma RunLists<T>(a: seq<T>, f: seq<T>, t: seq<T>, u: seq<T>, m: seq<T>, rest: seq<T>)
    requires (t == [] && m == u) || |m| < |t| + |u|
    ensures a + (f + t + (u + rest)) == a + (f + m + rest) <==> t == [] && m == u
  {
    if t == [] && m == u {
      assert f + t == f;
      Associate(f, u, rest);
    } else {
      assert |a + (f + t + (u + rest))| > |a + (f + m + rest)|;
    }
  }

  lemma SpokenIntended(r: Ran)
    ensures Spoken(Intended(r)) == Spoken(r.front) + Spoken([r.t]) + (Spoken([r.u]) + Spoken(r.rest))
    ensures Spoken(Actual(r)) == Spoken(r.front) + Spoken([r.m]) + Spoken(r.rest)
  {
    SpokenAppend(r.front + [r.t], [r.u] + r.rest);
    SpokenAppend(r.front, [r.t]);
    SpokenAppend([r.u], r.rest);
    SpokenAppend(r.front + [r.m], r.rest);
    SpokenAppend(r.front, [r.m]);
  }

  /** A line that runs into the first added one is lost, unless it was blank. */
  lemma RunSpoken(head: seq<Stmt>, lines: seq<string>, requests: seq<Request>, r: Ran)
    requires RanInto(lines, requests, r)
    ensures Spoken(head + Intended(r)) == Spoken(head + Actual(r)) <==> r.t.Blank?
  {
    SpokenAppend(head, Intended(r));
    SpokenAppend(head, Actual(r));
    SpokenIntended(r);
    SpokenOne(r.t);
    SpokenOne(r.u);
    SpokenOne(r.m);
    RunLists(Spoken(head), Spoken(r.front), Spoken([r.t]), Spoken([r.u]), Spoken([r.m]), Spoken(r.rest));
  }

  lemma OpenSays(x: Syntax, raw: string, publicKey: string, patch: PeerPatch, next: string)
    returns (peer: Peer, place: Place, block: seq<string>)
    requires x.Lawful() && Unbroken(patch) && PatchText(x, raw, publicKey, patch) == Ok(next)
    requires !StaysApart(x, raw, publicKey, patch)
    ensures Find(AnalysisOf(x, raw).peers, publicKey) == Some(peer) && peer.blockStart < peer.blockEnd <= |Lines(raw)|
    ensures place == PlaceOf(Lines(raw), peer) && Requests(x, patch).Ok? && block == PatchedLines(x, raw, peer, patch)
    ensures Lines(raw) == place.before + place.block + place.after
    ensures next == Concat(place.before) + Concat(block) + Concat(place.after)
    ensures Spoken(Stmts(Lines(next))) == Spoken(Stmts(place.before + block + place.after)) <==> LastBlank(raw)
  {
    hide *;
    var body, actual, r;
    peer, body, block, actual, r := OpenText(x, raw, publicKey, patch, next);
    place := PlaceOf(Lines(raw), peer);
    OpenSpoken(x, raw, place, block, actual, Requests(x, patch).value, r);
  }

  /** What is said exactly: the patched text says what the patch put together,
      blank lines and comments aside, if and only if the lines stay apart or the
      open line was blank. */
  lemma PatchSays(x: Syntax, raw: string, publicKey: string, patch: PeerPatch, next: string)
    returns (peer: Peer, place: Place, block: seq<string>)
    requires x.Lawful() && Unbroken(patch) && PatchText(x, raw, publicKey, patch) == Ok(next)
    ensures Find(AnalysisOf(x, raw).peers, publicKey) == Some(peer) && peer.blockStart < peer.blockEnd <= |Lines(raw)|
    ensures place == PlaceOf(Lines(raw), peer) && Requests(x, patch).Ok? && block == PatchedLines(x, raw, peer, patch)
    ensures Lines(raw) == place.before + place.block + place.after
    ensures next == Concat(place.before) + Concat(block) + Concat(place.after)
    ensures Spoken(Stmts(Lines(next))) == Spoken(Stmts(place.before + block + place.after)) <==>
            StaysApart(x, raw, publicKey, patch) || LastBlank(raw)
  {
    hide *;
    if StaysApart(x, raw, publicKey, patch) {
      peer, place, block := PatchKeepsLines(x, raw, publicKey, patch, next);
    } else {
      peer, place, block := OpenSays(x, raw, publicKey, patch, next);
    }
  }

  lemma OpenSpoken(x: Syntax, raw: string, place: Place, block: seq<string>, actual: seq<string>,
                   requests: seq<Request>, r: Ran)
    requires place.after == [] && Stmts(block) == [Header(PeerSection)] + Intended(r)
    requires Stmts(actual) == [Header(PeerSection)] + Actual(r) && RanInto(place.block, requests, r)
    requires Lines(raw) != [] && place.block != []
    requires place.block[|place.block| - 1] == Lines(raw)[|Lines(raw)| - 1]
    ensures Spoken(Stmts(place.before + actual)) == Spoken(Stmts(place.before + block + place.after)) <==> LastBlank(raw)
  {
    hide Spoken, StmtOf, RunsInto, Intended, Actual;
    var head := Stmts(place.before) + [Header(PeerSection)];
    StmtsAppend(place.before, actual);
    StmtsAppend(place.before, block);
    assert place.before + block + place.after == place.before + block;
    Associate(Stmts(place.before), [Header(PeerSection)], Intended(r));
    Associate(Stmts(place.before), [Header(PeerSection)], Actual(r));
    RunSpoken(head, place.block, requests, r);
  }

  // ---- How the peer reads ----

  lemma OneValues(t: Stmt, key: Key)
    ensures Values([t], key) == if t.Assign? && t.key == key then [t.value] else []
  {
    assert [t][..0] == [];
  }

  lemma RunValues(r: Ran, key: Key)
    ensures Values(Intended(r), key) ==
            Values(r.front, key) + Values([r.t], key) + (Values([r.u], key) + Values(r.rest, key))
    ensures Values(Actual(r), key) == Values(r.front, key) + Values([r.m], key) + Values(r.rest, key)
  {
    ValuesAppend(r.front + [r.t], [r.u] + r.rest, key);
    ValuesAppend(r.front, [r.t], key);
    ValuesAppend([r.u], r.rest, key);
    ValuesAppend(r.front + [r.m], r.rest, key);
    ValuesAppend(r.front, [r.m], key);
  }

  /** A peer in which the key makes a difference. */
  predicate Shows(view: PeerView, key: Key) {
    match key
    case AllowedIPs => view.allowed != []
    case Endpoint => view.endpoint != ""
    case PersistentKeepalive => view.keepalive != 0
    case PresharedKey => view.psk
    case _ => true
  }

  lemma NotShown(x: Syntax, body: seq<Stmt>, key: Key)
    requires Settable(key) && Values(body, key) == []
    ensures !Shows(ViewOf(x, body), key)
  {
  }

  /** The first added line is lost. */
  lemma FirstLost(r: Ran)
    requires r.u.Assign? && Settable(r.u.key) && r.u.value != "" && RunsInto(r.t, r.u, r.m) && !r.t.Blank?
    requires |Values(Intended(r), r.u.key)| == 1
    ensures Values(Actual(r), r.u.key) == []
    ensures r.t.Assign? ==> r.t.key != r.u.key
  {
    RunValues(r, r.u.key);
    OneValues(r.t, r.u.key);
    OneValues(r.u, r.u.key);
    OneValues(r.m, r.u.key);
  }

  const ZERO_LINE := "PersistentKeepalive = 0"

  lemma ZeroLine()
    ensures ZERO_LINE != "" && Tight(ZERO_LINE) && ' ' in ZERO_LINE && ',' !in ZERO_LINE
  {
    assert ZERO_LINE[19] == ' ';
  }

  /** The last item of a list is a prefix. */
  predicate EndsInPrefix(x: Syntax, value: string)
    decreases |value|
  {
    var i := IndexOf(value, ',');
    if i < |value| then EndsInPrefix(x, value[i + 1..]) else x.canon(Trim(value)).Some?
  }

  lemma GrownNoPrefix(x: Syntax, value: string, pad: string)
    requires x.Lawful() && AllSpace(pad)
    ensures Prefixed(x, value + pad + ZERO_LINE) == []
  {
    ZeroLine();
    var gap := ValueGrows(value, pad, ZERO_LINE);
    assert ' ' in Trim(value) + gap + ZERO_LINE;
  }

  lemma CommaGrows(value: string, pad: string, i: nat)
    requires i < |value| && value[i] == ',' && ',' !in value[..i]
    ensures var s := value + pad + ZERO_LINE;
            i < |s| && s[i] == ',' && s[..i] == value[..i] && s[i + 1..] == value[i + 1..] + pad + ZERO_LINE
  {
  }

  /** What a list reads as when the line goes on: its last item is lost. */
  lemma {:induction false} ItemsGrow(x: Syntax, value: string, pad: string)
    requires x.Lawful() && AllSpace(pad)
    ensures Items(x, value + pad + ZERO_LINE) == Items(x, value) <==> !EndsInPrefix(x, value)
    decreases |value|
  {
    var s, i := value + pad + ZERO_LINE, IndexOf(value, ',');
    if i < |value| {
      CommaGrows(value, pad, i);
      ItemsStep(x, value, i);
      ItemsStep(x, s, i);
      ItemsGrow(x, value[i + 1..], pad);
      SameFront(Prefixed(x, value[..i]), Items(x, value[i + 1..]), Items(x, s[i + 1..]));
    } else {
      ZeroLine();
      assert ',' !in value && ',' !in pad by { AllSpaceNoComma(pad); }
      ItemsOne(x, value);
      ItemsOne(x, s);
      GrownNoPrefix(x, value, pad);
    }
  }

  lemma AllSpaceNoComma(s: string)
    requires AllSpace(s)
    ensures ',' !in s
  {
  }

  lemma SameFront<T>(a: seq<T>, b: seq<T>, c: seq<T>)
    ensures a + b == a + c <==> b == c
  {
    assert (a + b)[|a|..] == b && (a + c)[|a|..] == c;
  }

  lemma SameEnds<T>(a: seq<T>, b: seq<T>, c: seq<T>, d: seq<T>)
    ensures a + b + d == a + c + d <==> b == c
  {
    if a + b + d == a + c + d {
      assert |b| == |c|;
      assert (a + b + d)[|a|..|a| + |b|] == b && (a + c + d)[|a|..|a| + |b|] == c;
    }
  }

  lemma AllowedLast(x: Syntax, values: seq<string>, value: string)
    ensures Allowed(x, values + [value]) == Allowed(x, values) + Items(x, value)
  {
    assert (values + [value])[..|values|] == values;
  }

  lemma {:induction false} AllowedAppend(x: Syntax, a: seq<string>, b: seq<string>)
    ensures Allowed(x, a + b) == Allowed(x, a) + Allowed(x, b)
  {
    if b == [] {
      assert a + b == a;
    } else {
      var n := |b| - 1;
      FrontAndLast(b);
      Associate(a, b[..n], [b[n]]);
      AllowedLast(x, a + b[..n], b[n]);
      AllowedLast(x, b[..n], b[n]);
      AllowedAppend(x, a, b[..n]);
      Associate(Allowed(x, a), Allowed(x, b[..n]), Items(x, b[n]));
    }
  }

  /** A line that says the same of the peer when a keepalive of zero runs into it. */
  predicate Harmless(x: Syntax, t: Stmt) {
    t.Comment? || (t.Assign? &&
      match t.key
      case PublicKey => false
      case Endpoint => false
      case PresharedKey => t.value != ""
      case AllowedIPs => !EndsInPrefix(x, t.value)
      case _ => true)
  }

  lemma ZeroMerges(r: Ran)
    requires r.u == Assign(PersistentKeepalive, "0") && RunsInto(r.t, r.u, r.m) && !r.t.Blank?
    ensures r.t.Comment? ==> r.m == Comment
    ensures r.t.Assign? ==> exists pad :: AllSpace(pad) && r.m == Assign(r.t.key, r.t.value + pad + ZERO_LINE)
    ensures r.t.Comment? || r.t.Assign?
  {
    assert Core(r.u) == ZERO_LINE;
  }

  lemma OtherFields(r: Ran, key: Key)
    requires r.u == Assign(PersistentKeepalive, "0") && RunsInto(r.t, r.u, r.m) && !r.t.Blank?
    requires key != PersistentKeepalive && !(r.t.Assign? && r.t.key == key)
    ensures Values(Actual(r), key) == Values(Intended(r), key)
  {
    ZeroMerges(r);
    RunValues(r, key);
    OneValues(r.t, key);
    OneValues(r.u, key);
    OneValues(r.m, key);
    assert Values(r.front, key) + [] == Values(r.front, key) && [] + Values(r.rest, key) == Values(r.rest, key);
  }

  /** The field of the line run into. */
  lemma GrownField(r: Ran) returns (pad: string)
    requires r.u == Assign(PersistentKeepalive, "0") && RunsInto(r.t, r.u, r.m)
    requires r.t.Assign? && r.t.key != PersistentKeepalive
    ensures AllSpace(pad)
    ensures Values(Intended(r), r.t.key) == Values(r.front, r.t.key) + [r.t.value] + Values(r.rest, r.t.key)
    ensures Values(Actual(r), r.t.key) ==
            Values(r.front, r.t.key) + [r.t.value + pad + ZERO_LINE] + Values(r.rest, r.t.key)
  {
    ZeroMerges(r);
    pad :| AllSpace(pad) && r.m == Assign(r.t.key, r.t.value + pad + ZERO_LINE);
    RunValues(r, r.t.key);
    OneValues(r.t, r.t.key);
    OneValues(r.u, r.t.key);
    OneValues(r.m, r.t.key);
    assert [] + Values(r.rest, r.t.key) == Values(r.rest, r.t.key);
  }

  lemma ZeroValue()
    ensures Digits(0) == "0" && ParseUint16("0") == Some(0)
  {
    DigitsParse(0);
  }

  lemma KeepaliveZero(x: Syntax, r: Ran)
    requires r.u == Assign(PersistentKeepalive, "0") && RunsInto(r.t, r.u, r.m) && !r.t.Blank?
    requires Values(Intended(r), PersistentKeepalive) == ["0"]
    ensures Keepalive(Values(Intended(r), PersistentKeepalive)) == 0 == Keepalive(Values(Actual(r), PersistentKeepalive))
    ensures r.t.Assign? ==> r.t.key != PersistentKeepalive
  {
    FirstLost(r);
    ZeroValue();
  }

  lemma PublicKeyGrown(x: Syntax, r: Ran)
    requires x.Lawful() && r.u == Assign(PersistentKeepalive, "0") && RunsInto(r.t, r.u, r.m)
    requires r.t.Assign? && r.t.key == PublicKey && IdentityOk(x, Intended(r))
    ensures !IdentityOk(x, Actual(r))
  {
    var pad := GrownField(r);
    ZeroLine();
    var values := Values(Actual(r), PublicKey);
    assert |values| == 1 && values[0] == r.t.value + pad + ZERO_LINE;
    assert ' ' in r.t.value + pad + ZERO_LINE;
  }

  lemma EndpointGrown(x: Syntax, r: Ran)
    requires r.u == Assign(PersistentKeepalive, "0") && RunsInto(r.t, r.u, r.m)
    requires r.t.Assign? && r.t.key == Endpoint && Values(r.rest, Endpoint) == []
    ensures LastOr(Values(Actual(r), Endpoint), "") != LastOr(Values(Intended(r), Endpoint), "")
  {
    var pad := GrownField(r);
    var front := Values(r.front, Endpoint);
    assert front + [r.t.value] + [] == front + [r.t.value];
    assert |r.t.value + pad + ZERO_LINE| > |r.t.value|;
  }

  predicate HasPsk(values: seq<string>) {
    LastOr(values, "") != ""
  }

  lemma OnlyMiddle<T>(a: seq<T>, v: T, w: T, b: seq<T>)
    requires |a + [v] + b| <= 1
    ensures a + [v] + b == [v] && a + [w] + b == [w]
  {
    assert a == [] && b == [];
  }

  lemma PskGrown(x: Syntax, r: Ran)
    requires r.u == Assign(PersistentKeepalive, "0") && RunsInto(r.t, r.u, r.m)
    requires r.t.Assign? && r.t.key == PresharedKey && |Values(Intended(r), PresharedKey)| <= 1
    ensures |Values(Actual(r), PresharedKey)| == 1
    ensures HasPsk(Values(Actual(r), PresharedKey)) == HasPsk(Values(Intended(r), PresharedKey)) <==> r.t.value != ""
  {
    var pad := GrownField(r);
    OnlyMiddle(Values(r.front, PresharedKey), r.t.value, r.t.value + pad + ZERO_LINE, Values(r.rest, PresharedKey));
  }

  lemma AllowedGrown(x: Syntax, r: Ran)
    requires x.Lawful() && r.u == Assign(PersistentKeepalive, "0") && RunsInto(r.t, r.u, r.m)
    requires r.t.Assign? && r.t.key == AllowedIPs
    ensures Allowed(x, Values(Actual(r), AllowedIPs)) == Allowed(x, Values(Intended(r), AllowedIPs)) <==>
            !EndsInPrefix(x, r.t.value)
  {
    var pad := GrownField(r);
    var front, rest, grown := Values(r.front, AllowedIPs), Values(r.rest, AllowedIPs), r.t.value + pad + ZERO_LINE;
    AllowedAppend(x, front + [r.t.value], rest);
    AllowedLast(x, front, r.t.value);
    AllowedAppend(x, front + [grown], rest);
    AllowedLast(x, front, grown);
    SameEnds(Allowed(x, front), Items(x, grown), Items(x, r.t.value), Allowed(x, rest));
    ItemsGrow(x, r.t.value, pad);
  }

  /** Two bodies that differ in one field at most. */
  lemma SameOtherwise(x: Syntax, a: seq<Stmt>, b: seq<Stmt>, key: Key)
    requires Keepalive(Values(a, PersistentKeepalive)) == Keepalive(Values(b, PersistentKeepalive))
    requires forall other :: other != PersistentKeepalive && other != key ==> Values(a, other) == Values(b, other)
    ensures ViewOf(x, a) == ViewOf(x, b) <==>
            match key
            case PublicKey => PeerKey(x, Values(a, PublicKey)) == PeerKey(x, Values(b, PublicKey))
            case PresharedKey => HasPsk(Values(a, PresharedKey)) == HasPsk(Values(b, PresharedKey))
            case AllowedIPs => Allowed(x, Values(a, AllowedIPs)) == Allowed(x, Values(b, AllowedIPs))
            case Endpoint => LastOr(Values(a, Endpoint), "") == LastOr(Values(b, Endpoint), "")
            case _ => true
  {
  }

  predicate ReadsSame(x: Syntax, r: Ran) {
    OpenOk(x, Open(PeerSection, Actual(r))) && ViewOf(x, Actual(r)) == ViewOf(x, Intended(r))
  }

  lemma ShapeKept(x: Syntax, r: Ran)
    requires r.u == Assign(PersistentKeepalive, "0") && RunsInto(r.t, r.u, r.m) && !r.t.Blank?
    requires NoRaw(Intended(r)) && NoHeader(Intended(r))
    ensures NoRaw(Actual(r)) && NoHeader(Actual(r))
  {
    ZeroMerges(r);
    BodyAppend(r.front + [r.t], [r.u] + r.rest);
    BodyAppend(r.front, [r.t]);
    BodyAppend([r.u], r.rest);
    BodyAppend(r.front + [r.m], r.rest);
    BodyAppend(r.front, [r.m]);
  }

  /** A keepalive of zero that is lost changes nothing, unless the line it runs
      into is harmed. */
  lemma ZeroKept(x: Syntax, r: Ran)
    requires x.Lawful() && r.u == Assign(PersistentKeepalive, "0") && RunsInto(r.t, r.u, r.m) && !r.t.Blank?
    requires OpenOk(x, Open(PeerSection, Intended(r))) && NoHeader(Intended(r))
    requires Values(Intended(r), PersistentKeepalive) == ["0"]
    requires r.t.Assign? ==> Values(r.rest, r.t.key) == []
    ensures ReadsSame(x, r) <==> Harmless(x, r.t)
    ensures NoHeader(Actual(r))
  {
    hide RunsInto, EndsInPrefix, PeerKey, LastOr, Allowed, Values, Intended, Actual;
    ShapeKept(x, r);
    KeepaliveZero(x, r);
    ZeroMerges(r);
    var key := if r.t.Assign? then r.t.key else PersistentKeepalive;
    forall other | other != PersistentKeepalive && other != key
      ensures Values(Actual(r), other) == Values(Intended(r), other)
    {
      OtherFields(r, other);
    }
    SameOtherwise(x, Actual(r), Intended(r), key);
    ZeroField(x, r);
  }

  /** The one field, by its key. */
  lemma ZeroField(x: Syntax, r: Ran)
    requires x.Lawful() && r.u == Assign(PersistentKeepalive, "0") && RunsInto(r.t, r.u, r.m)
    requires IdentityOk(x, Intended(r))
    ensures r.t.Assign? && r.t.key == PublicKey ==> !IdentityOk(x, Actual(r))
    ensures r.t.Assign? && r.t.key == Endpoint && Values(r.rest, Endpoint) == [] ==>
              LastOr(Values(Actual(r), Endpoint), "") != LastOr(Values(Intended(r), Endpoint), "")
    ensures r.t.Assign? && r.t.key == PresharedKey ==>
              && |Values(Actual(r), PresharedKey)| == 1
              && (HasPsk(Values(Actual(r), PresharedKey)) == HasPsk(Values(Intended(r), PresharedKey)) <==> r.t.value != "")
    ensures r.t.Assign? && r.t.key == AllowedIPs ==>
              (Allowed(x, Values(Actual(r), AllowedIPs)) == Allowed(x, Values(Intended(r), AllowedIPs)) <==>
               !EndsInPrefix(x, r.t.value))
  {
    if r.t.Assign? {
      match r.t.key
      case PublicKey => PublicKeyGrown(x, r);
      case Endpoint =>
        if Values(r.rest, Endpoint) == [] {
          EndpointGrown(x, r);
        }
      case PresharedKey => PskGrown(x, r);
      case AllowedIPs => AllowedGrown(x, r);
      case _ =>
    }
  }

  // ---- How the peers read ----

  /** A strange header makes the text unsafe. */
  lemma StrangeUnsafe(x: Syntax, head: seq<Stmt>, m: Stmt, rest: seq<Stmt>)
    requires Strange(m) && NoHeader(rest)
    ensures !Safe(x, Summary(x, head + ([m] + rest)))
  {
    SummaryAppend(x, head, [m] + rest);
    assert m == Header(m.section);
    BlockSummary(x, m.section, rest);
  }

  lemma NewBlockSum(x: Syntax, before: seq<string>, lines: seq<string>, body: seq<Stmt>)
    requires Stmts(lines) == [Header(PeerSection)] + body && NoHeader(body)
    ensures Summary(x, Stmts(before + lines)) == Add(Summary(x, Stmts(before)), OpenSum(x, Open(PeerSection, body)))
  {
    StmtsAppend(before, lines);
    SummaryAppend(x, Stmts(before), Stmts(lines));
    BlockSummary(x, PeerSection, body);
  }

  lemma LastReplaced(a: Sum, view: PeerView, other: PeerView, s: Sum)
    requires Add(a, OnePeer(view)).peers == a.peers + [view]
    requires s.peers == [] || |s.peers| == 1
    ensures Add(a, s).peers == (a.peers + [view])[|a.peers| := other] <==> s.peers == [other]
  {
    assert (a.peers + [view])[|a.peers| := other] == a.peers + [other];
    SameFront(a.peers, s.peers, [other]);
  }

  /** The peers read as asked exactly if the body that will be read is sound and
      reads as asked. */
  lemma LastBlockReads(x: Syntax, before: seq<string>, block: seq<string>, lines: seq<string>, view: PeerView,
                       body: seq<Stmt>, actual: seq<Stmt>, other: PeerView)
    requires Stmts(block) == [Header(PeerSection)] + body && NoHeader(body) && view == ViewOf(x, body)
    requires Safe(x, Summary(x, Stmts(before + block)))
    requires Stmts(lines) == [Header(PeerSection)] + actual && NoHeader(actual) && other.publicKey == view.publicKey
    ensures var was, now, k := Summary(x, Stmts(before + block)), Summary(x, Stmts(before + lines)), |Summary(x, Stmts(before)).peers|;
            && k < |was.peers| && was.peers[k] == view
            && (Safe(x, now) && now.peers == was.peers[k := other] <==>
                OpenOk(x, Open(PeerSection, actual)) && ViewOf(x, actual) == other)
  {
    NewBlockSum(x, before, block, body);
    NewBlockSum(x, before, lines, actual);
    var a := Summary(x, Stmts(before));
    var s := OpenSum(x, Open(PeerSection, actual));
    SafeBlock(x, body);
    LastReplaced(a, view, other, s);
    SafeReplaced(x, a, view, other, s);
    if OpenOk(x, Open(PeerSection, actual)) && ViewOf(x, actual) == other {
      BlockIsPeer(x, actual, other);
    }
  }

  lemma BlockIsPeer(x: Syntax, body: seq<Stmt>, view: PeerView)
    requires OpenOk(x, Open(PeerSection, body)) && ViewOf(x, body) == view && view.publicKey != ""
    ensures OpenSum(x, Open(PeerSection, body)) == OnePeer(view)
  {
  }

  lemma SafeReplaced(x: Syntax, a: Sum, view: PeerView, other: PeerView, s: Sum)
    requires Safe(x, Add(a, OnePeer(view))) && other.publicKey == view.publicKey && view.publicKey != ""
    ensures Safe(x, Add(a, OnePeer(other)))
    ensures Safe(x, Add(a, s)) ==> s.ok
  {
    assert a.peers + [view] + [] == a.peers + [view] && a.peers + [other] + [] == a.peers + [other];
    SwapDistinct(a.peers, view, [], other);
  }

  /** A line left open says the same of the peer when a keepalive of zero runs into
      it, whatever the patch makes of the line before. */
  predicate Idle(x: Syntax, t: Stmt, keys: set<Key>) {
    t.Comment? || (t.Assign? &&
      match t.key
      case PublicKey => false
      case Endpoint => false
      case PresharedKey => t.value != "" || PresharedKey in keys
      case AllowedIPs => AllowedIPs !in keys && !EndsInPrefix(x, t.value)
      case _ => true)
  }

  /** The first line the patch adds sets a keepalive of zero. */
  ghost predicate ZeroFirst(lines: seq<string>, requests: seq<Request>) {
    exists i: nat :: FirstAdded(lines, requests, i) && requests[i] == Request(PersistentKeepalive, "0")
  }

  lemma FirstUnique(lines: seq<string>, requests: seq<Request>, r: Ran)
    requires RanInto(lines, requests, r)
    ensures ZeroFirst(lines, requests) <==> r.u == Assign(PersistentKeepalive, "0")
  {
    var i: nat :| FirstAdded(lines, requests, i) && r.u == Assign(requests[i].key, requests[i].value);
    if j: nat :| FirstAdded(lines, requests, j) {
      assert i == j;
    }
    assert requests[i] == Request(requests[i].key, requests[i].value);
  }

  lemma EndsPadded(x: Syntax, s: string)
    ensures EndsInPrefix(x, " " + s) <==> EndsInPrefix(x, s)
  {
    var i := IndexOf(s, ',');
    if i < |s| {
      IndexIs(" " + s, ',', i + 1);
      assert (" " + s)[i + 2..] == s[i + 1..];
    } else {
      IndexNone(" " + s, ',');
      assert " " + s + "" == " " + s;
      TrimPad(" ", s, "");
    }
  }

  lemma EndsBehind(x: Syntax, first: string, rest: string)
    requires ',' !in first
    ensures EndsInPrefix(x, first + ", " + rest) <==> EndsInPrefix(x, rest)
  {
    CommaBehind(first, rest);
    EndsPadded(x, rest);
  }

  lemma CommaBehind(first: string, rest: string)
    requires ',' !in first
    ensures var s := first + ", " + rest;
            |first| < |s| && IndexOf(s, ',') == |first| && s[|first| + 1..] == " " + rest
  {
    IndexIs(first + ", " + rest, ',', |first|);
  }

  lemma {:induction false} JoinEnds(x: Syntax, items: seq<string>)
    requires Canonical(x, items) && items != []
    ensures EndsInPrefix(x, Join(items))
  {
    if |items| == 1 {
      TrimTight(items[0]);
      IndexNone(items[0], ',');
    } else {
      EndsBehind(x, items[0], Join(items[1..]));
      JoinEnds(x, items[1..]);
    }
  }

  lemma RequestIs(x: Syntax, patch: PeerPatch, q: Request)
    requires Requests(x, patch).Ok? && q in Requests(x, patch).value
    ensures match q.key
            case AllowedIPs => NewAllowed(x, patch) == Some(q.value)
            case Endpoint => NewEndpoint(patch) == Some(q.value)
            case PersistentKeepalive => NewKeepalive(patch) == Some(q.value)
            case PresharedKey => NewPsk(patch) == Some(q.value)
            case _ => false
  {
  }

  /** A requested value shows in the peer asked for, unless it is none or zero. */
  lemma RequestShows(x: Syntax, patch: PeerPatch, q: Request, view: PeerView)
    requires x.Lawful() && Unbroken(patch) && Requests(x, patch).Ok? && q in Requests(x, patch).value
    requires q.value != "" && q != Request(PersistentKeepalive, "0")
    ensures Shows(Patched(x, view, patch), q.key)
  {
    RequestIs(x, patch, q);
    ZeroValue();
  }

  lemma {:induction false} RestSilent(rest: seq<Stmt>, keys: set<Key>, key: Key)
    requires forall i :: 0 <= i < |rest| ==> rest[i].Assign? && rest[i].key in keys
    requires key !in keys
    ensures Values(rest, key) == []
  {
    if rest != [] {
      RestSilent(rest[..|rest| - 1], keys, key);
    }
  }

  /** The requested key of the open line has the requested value there, and only
      there. */
  lemma OpenLineValue(r: Ran, q: Request)
    requires r.t.Assign? && r.t.key == q.key && Values(Intended(r), q.key) == OneValue(q.value)
    ensures r.t.value == q.value && q.value != "" && Values(r.rest, q.key) == []
  {
    RunValues(r, q.key);
    OneValues(r.t, q.key);
    var a, b, c := Values(r.front, q.key), Values([r.u], q.key), Values(r.rest, q.key);
    assert a + [r.t.value] + (b + c) == OneValue(q.value);
    assert |a| + 1 + |b| + |c| <= 1;
    assert (a + [r.t.value] + (b + c))[|a|] == r.t.value;
  }

  lemma AskedFacts(x: Syntax, patch: PeerPatch, lines: seq<string>, r: Ran)
    requires x.Lawful() && Requests(x, patch).Ok? && RanInto(lines, Requests(x, patch).value, r)
    requires forall q :: q in Requests(x, patch).value ==> Values(Intended(r), q.key) == OneValue(q.value)
    ensures r.t.Assign? ==> Values(r.rest, r.t.key) == []
    ensures !r.t.Blank? ==> (Idle(x, StmtOf(lines[|lines| - 1]), Keys(Requests(x, patch).value)) <==> Harmless(x, r.t))
  {
    var requests := Requests(x, patch).value;
    if r.t.Assign? {
      if r.t.key in Keys(requests) {
        var i :| 0 <= i < |requests| && requests[i].key == r.t.key;
        var q := requests[i];
        assert q in requests;
        OpenLineValue(r, q);
        RequestIs(x, patch, q);
        if q.key == AllowedIPs {
          CanonicalsAre(x, patch.allowedIPs.value);
          JoinEnds(x, Canonicals(x, patch.allowedIPs.value).value);
        }
      } else {
        RestSilent(r.rest, Keys(requests), r.t.key);
      }
    }
  }

  lemma ActualShape(r: Ran)
    requires NoHeader(Intended(r)) && !r.m.Header?
    ensures NoHeader(Actual(r)) && (NoRaw(Intended(r)) && !r.m.Raw? ==> NoRaw(Actual(r)))
    ensures r.u.Assign? && r.m == r.u && r.t.Blank? ==> NoRaw(Actual(r)) == NoRaw(Intended(r))
  {
    BodyAppend(r.front + [r.t], [r.u] + r.rest);
    BodyAppend(r.front, [r.t]);
    BodyAppend([r.u], r.rest);
    BodyAppend(r.front + [r.m], r.rest);
    BodyAppend(r.front, [r.m]);
  }

  lemma BlankValues(r: Ran, key: Key)
    requires r.t.Blank? && r.m == r.u
    ensures Values(Actual(r), key) == Values(Intended(r), key)
  {
    RunValues(r, key);
    OneValues(r.t, key);
    assert Values(r.front, key) + [] == Values(r.front, key);
    Associate(Values(r.front, key), Values([r.u], key), Values(r.rest, key));
  }

  lemma BlankKept(x: Syntax, r: Ran)
    requires r.t.Blank? && r.u.Assign? && r.m == r.u && NoHeader(Intended(r)) && OpenOk(x, Open(PeerSection, Intended(r)))
    ensures NoHeader(Actual(r)) && ReadsSame(x, r)
  {
    hide Values, Intended, Actual, PeerKey, LastOr, Allowed, Keepalive;
    forall key ensures Values(Actual(r), key) == Values(Intended(r), key) {
      BlankValues(r, key);
    }
    ActualShape(r);
  }

  lemma LostReads(x: Syntax, patch: PeerPatch, q: Request, r: Ran, view: PeerView)
    requires x.Lawful() && Unbroken(patch) && Requests(x, patch).Ok? && q in Requests(x, patch).value
    requires q != Request(PersistentKeepalive, "0") && r.u == Assign(q.key, q.value) && Settable(q.key) && q.value != ""
    requires RunsInto(r.t, r.u, r.m) && !r.t.Blank? && Values(Intended(r), q.key) == OneValue(q.value)
    requires ViewOf(x, Intended(r)) == Patched(x, view, patch)
    ensures !ReadsSame(x, r)
  {
    hide RunsInto, ViewOf, Patched, Requests, Values, Intended, Actual, Shows, Unbroken;
    FirstLost(r);
    RequestShows(x, patch, q, view);
    NotShown(x, Actual(r), q.key);
  }

  lemma FirstRequest(lines: seq<string>, requests: seq<Request>, r: Ran) returns (q: Request)
    requires RanInto(lines, requests, r)
    ensures q in requests && r.u == Assign(q.key, q.value) && Settable(q.key) && q.value != ""
  {
    var i: nat :| FirstAdded(lines, requests, i) && r.u == Assign(requests[i].key, requests[i].value);
    q := requests[i];
  }

  lemma StrangeFacts(r: Ran)
    requires r.u.Assign? && Settable(r.u.key) && r.u.value != "" && RunsInto(r.t, r.u, r.m)
    ensures Strange(r.m) ==> !r.t.Blank? && r.u != Assign(PersistentKeepalive, "0")
    ensures Strange(r.m) <==> r.m.Header?
    ensures !r.t.Blank? ==> !r.m.Raw?
  {
  }

  lemma RanFacts(lines: seq<string>, requests: seq<Request>, r: Ran)
    requires RanInto(lines, requests, r)
    ensures r.u.Assign? && Settable(r.u.key) && r.u.value != "" && RunsInto(r.t, r.u, r.m)
    ensures r.t.Blank? ==> r.m == r.u
  {
  }

  /** How the body that will be read compares with the one put together. */
  lemma ActualReads(x: Syntax, patch: PeerPatch, lines: seq<string>, r: Ran, view: PeerView)
    requires x.Lawful() && Unbroken(patch) && Requests(x, patch).Ok? && RanInto(lines, Requests(x, patch).value, r)
    requires forall q :: q in Requests(x, patch).value ==> Values(Intended(r), q.key) == OneValue(q.value)
    requires OpenOk(x, Open(PeerSection, Intended(r))) && NoHeader(Intended(r))
    requires ViewOf(x, Intended(r)) == Patched(x, view, patch)
    ensures Strange(r.m) ==> !r.t.Blank? && r.u != Assign(PersistentKeepalive, "0")
    ensures !Strange(r.m) ==>
              && NoHeader(Actual(r))
              && (ReadsSame(x, r) <==> r.t.Blank? || (r.u == Assign(PersistentKeepalive, "0") && Harmless(x, r.t)))
  {
    hide RanInto, RunsInto, ReadsSame, Harmless, Intended, Actual, OpenOk, ViewOf, Values, NoHeader, Patched, Requests;
    RanFacts(lines, Requests(x, patch).value, r);
    StrangeFacts(r);
    if r.t.Blank? {
      BlankKept(x, r);
    } else if !Strange(r.m) {
      var q := FirstRequest(lines, Requests(x, patch).value, r);
      AskedFacts(x, patch, lines, r);
      ActualShape(r);
      if q == Request(PersistentKeepalive, "0") {
        ZeroKept(x, r);
      } else {
        LostReads(x, patch, q, r, view);
      }
    }
  }

  // ---- Exactly when a patch reads back ----

  /** The peers read as the patch asks: its lines stay apart, or the open line was
      blank, or all that is lost is a keepalive of zero behind an idle line. */
  ghost predicate ReadsBack(x: Syntax, raw: string, publicKey: string, patch: PeerPatch) {
    StaysApart(x, raw, publicKey, patch) || LastBlank(raw) || ZeroLost(x, raw, publicKey, patch)
  }

  ghost predicate ZeroLost(x: Syntax, raw: string, publicKey: string, patch: PeerPatch) {
    var found := Find(AnalysisOf(x, raw).peers, publicKey);
    && found.Some? && found.value.blockStart <= found.value.blockEnd <= |Lines(raw)| && Requests(x, patch).Ok?
    && ZeroFirst(PlaceOf(Lines(raw), found.value).block, Requests(x, patch).value)
    && Lines(raw) != [] && Idle(x, StmtOf(Lines(raw)[|Lines(raw)| - 1]), Keys(Requests(x, patch).value))
  }

  lemma StrangeLost(x: Syntax, before: seq<string>, lines: seq<string>, r: Ran)
    requires Stmts(lines) == [Header(PeerSection)] + Actual(r) && Strange(r.m) && NoHeader(Intended(r))
    ensures !Safe(x, Summary(x, Stmts(before + lines)))
  {
    StmtsAppend(before, lines);
    BodyAppend(r.front + [r.t], [r.u] + r.rest);
    BodyAppend([r.u], r.rest);
    var head := Stmts(before) + [Header(PeerSection)];
    Associate(Stmts(before), [Header(PeerSection)], Actual(r));
    Associate(r.front, [r.m], r.rest);
    Associate(head, r.front, [r.m] + r.rest);
    StrangeUnsafe(x, head + r.front, r.m, r.rest);
  }

  /** The last block, with everything the text around it contributes. */
  lemma OpenReads(x: Syntax, patch: PeerPatch, p: Place, lines: seq<string>, r: Ran, view: PeerView, body: seq<Stmt>)
    requires x.Lawful() && Unbroken(patch) && Requests(x, patch).Ok? && RanInto(p.block, Requests(x, patch).value, r)
    requires forall q :: q in Requests(x, patch).value ==> Values(Intended(r), q.key) == OneValue(q.value)
    requires OpenOk(x, Open(PeerSection, Intended(r))) && NoHeader(Intended(r))
    requires ViewOf(x, Intended(r)) == Patched(x, view, patch)
    requires Stmts(p.block) == [Header(PeerSection)] + body && NoHeader(body) && view == ViewOf(x, body)
    requires Safe(x, Summary(x, Stmts(p.before + p.block)))
    requires Stmts(lines) == [Header(PeerSection)] + Actual(r)
    ensures var was, now, k := Summary(x, Stmts(p.before + p.block)), Summary(x, Stmts(p.before + lines)),
                               |Summary(x, Stmts(p.before)).peers|;
            && k < |was.peers| && was.peers[k] == view
            && (Safe(x, now) && now.peers == was.peers[k := Patched(x, view, patch)] <==>
                r.t.Blank? || (r.u == Assign(PersistentKeepalive, "0") && Harmless(x, r.t)))
  {
    hide RanInto, Summary, Safe, Harmless, Intended, Actual, OpenOk;
    ActualReads(x, patch, p.block, r, view);
    if Strange(r.m) {
      StrangeLost(x, p.before, lines, r);
      LastPeer(x, p.before, p.block, view, body);
    } else {
      LastBlockReads(x, p.before, p.block, lines, view, body, Actual(r), Patched(x, view, patch));
    }
  }

  lemma LastPeer(x: Syntax, before: seq<string>, block: seq<string>, view: PeerView, body: seq<Stmt>)
    requires Stmts(block) == [Header(PeerSection)] + body && NoHeader(body) && view == ViewOf(x, body)
    requires Safe(x, Summary(x, Stmts(before + block)))
    ensures var was, k := Summary(x, Stmts(before + block)), |Summary(x, Stmts(before)).peers|;
            k < |was.peers| && was.peers[k] == view
  {
    NewBlockSum(x, before, block, body);
    SafeBlock(x, body);
  }

  lemma OpenPeers(x: Syntax, raw: string, publicKey: string, patch: PeerPatch, next: string)
    returns (k: nat, view: PeerView)
    requires x.Lawful() && Unbroken(patch) && PatchText(x, raw, publicKey, patch) == Ok(next)
    requires !StaysApart(x, raw, publicKey, patch)
    ensures k < |Meant(x, raw).peers| && Meant(x, raw).peers[k] == view && view.publicKey == publicKey
    ensures Requests(x, patch).Ok?
    ensures Safe(x, Meant(x, next)) && Meant(x, next).peers == Meant(x, raw).peers[k := Patched(x, view, patch)] <==>
            LastBlank(raw) || ZeroLost(x, raw, publicKey, patch)
  {
    var peer, body, block, lines, r := OpenText(x, raw, publicKey, patch, next);
    var p := PlaceOf(Lines(raw), peer);
    view, k := peer.view, |Summary(x, Stmts(p.before)).peers|;
    LastPlace(x, p, view, body, Lines(raw));
    OpenReads(x, patch, p, lines, r, view, body);
    OpenLost(x, raw, publicKey, patch, peer, r);
  }

  lemma LastPlace(x: Syntax, p: Place, view: PeerView, body: seq<Stmt>, lines: seq<string>)
    requires Holds(x, p, view, body) && p.after == [] && p.before + p.block + p.after == lines
    ensures p.before + p.block == lines
    ensures Stmts(p.block) == [Header(PeerSection)] + body && NoHeader(body) && view == ViewOf(x, body)
  {
    assert p.before + p.block + [] == p.before + p.block;
  }

  lemma BlankRemains(lines: seq<string>, requests: seq<Request>, r: Ran)
    requires RanInto(lines, requests, r) && lines != []
    ensures StmtOf(lines[|lines| - 1]) == Blank <==> r.t.Blank?
  {
  }

  lemma OpenLost(x: Syntax, raw: string, publicKey: string, patch: PeerPatch, peer: Peer, r: Ran)
    requires x.Lawful() && Requests(x, patch).Ok? && Find(AnalysisOf(x, raw).peers, publicKey) == Some(peer)
    requires peer.blockStart < peer.blockEnd <= |Lines(raw)| && Lines(raw) != []
    requires RanInto(PlaceOf(Lines(raw), peer).block, Requests(x, patch).value, r)
    requires var block := PlaceOf(Lines(raw), peer).block;
             block != [] && block[|block| - 1] == Lines(raw)[|Lines(raw)| - 1]
    requires forall q :: q in Requests(x, patch).value ==> Values(Intended(r), q.key) == OneValue(q.value)
    ensures LastBlank(raw) || ZeroLost(x, raw, publicKey, patch) <==>
            r.t.Blank? || (r.u == Assign(PersistentKeepalive, "0") && Harmless(x, r.t))
  {
    hide RanInto, Harmless, Idle, ZeroFirst, Requests, Intended, StmtOf, Values, RunsInto, AnalysisOf, Find, Keys, Lines, OneValue;
    var lines := PlaceOf(Lines(raw), peer).block;
    BlankRemains(lines, Requests(x, patch).value, r);
    FirstUnique(lines, Requests(x, patch).value, r);
    AskedFacts(x, patch, lines, r);
  }

  /** Exactly when a patch does what it should, for every document and every patch:
      read again the text is safe and has the same peers but for the requested
      fields, if and only if the lines of the block stay apart, or the open line was
      blank, or all that is lost is a keepalive of zero behind an idle line. */
  lemma PatchReadsBack(x: Syntax, raw: string, publicKey: string, patch: PeerPatch, next: string)
    returns (k: nat, view: PeerView)
    requires x.Lawful() && Unbroken(patch) && PatchText(x, raw, publicKey, patch) == Ok(next)
    ensures k < |Meant(x, raw).peers| && Meant(x, raw).peers[k] == view && view.publicKey == publicKey
    ensures patch.allowedIPs.Some? ==> Canonicals(x, patch.allowedIPs.value).Some?
    ensures Safe(x, Meant(x, next)) && Meant(x, next).peers == Meant(x, raw).peers[k := Patched(x, view, patch)] <==>
            ReadsBack(x, raw, publicKey, patch)
  {
    hide PatchText, StaysApart, Meant, Safe, Patched, LastBlank, ZeroLost;
    if StaysApart(x, raw, publicKey, patch) {
      var _, _, _, at := PatchPeerEffect(x, raw, publicKey, patch, next);
      k, view := at, Meant(x, raw).peers[at];
    } else {
      k, view := OpenPeers(x, raw, publicKey, patch, next);
    }
  }
}
