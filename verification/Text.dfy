/** Text as the configuration code sees it: white space, lines and sizes.
    A text is the sequence of its Unicode characters.  The functions follow the
    standard library's trimming, splitting and lower-casing as far as the
    configuration code can tell the difference; the lemmas say how they behave
    when texts are put together and taken apart. */
module Text {

  datatype Option<+T> = None | Some(value: T)

  lemma FirstAndRest<T>(s: seq<T>)
    requires s != []
    ensures s == [s[0]] + s[1..]
  {
  }

  lemma FrontAndLast<T>(s: seq<T>)
    requires s != []
    ensures s == s[..|s| - 1] + [s[|s| - 1]]
  {
  }

  lemma SameParts<T>(a: T, s: seq<T>, b: T, t: seq<T>)
    requires [a] + s == [b] + t
    ensures a == b && s == t
  {
    assert ([a] + s)[0] == a && ([a] + s)[1..] == s;
  }

  lemma NothingAround<T>(s: seq<T>)
    ensures [] + s == s == s + []
  {
  }

  lemma SliceGrows<T>(s: seq<T>, t: T, k: nat)
    requires k <= |s|
    ensures (s + [t])[k..|s| + 1] == s[k..|s|] + [t]
  {
  }

  lemma Associate<T>(a: seq<T>, b: seq<T>, c: seq<T>)
    ensures (a + b) + c == a + (b + c)
  {
  }

  /** White space as trimmed from both ends of a line or a value. */
  predicate IsSpace(c: char) {
    || '\t' <= c <= '\r' || c == ' ' || c == '\U{0085}' || c == '\U{00A0}' || c == '\U{1680}'
    || '\U{2000}' <= c <= '\U{200A}' || c in {'\U{2028}', '\U{2029}', '\U{202F}', '\U{205F}', '\U{3000}'}
  }

  predicate IsBlank(c: char) {
    c == ' ' || c == '\t'
  }

  predicate AllSpace(s: string) {
    forall i :: 0 <= i < |s| ==> IsSpace(s[i])
  }

  predicate NoBreak(s: string) {
    forall i :: 0 <= i < |s| ==> s[i] != '\n' && s[i] != '\r'
  }

  function TrimLeft(s: string): string {
    if s != "" && IsSpace(s[0]) then TrimLeft(s[1..]) else s
  }

  function TrimRight(s: string): string {
    if s != "" && IsSpace(s[|s| - 1]) then TrimRight(s[..|s| - 1]) else s
  }

  function Trim(s: string): string {
    TrimRight(TrimLeft(s))
  }

  /** Neither end is white space. */
  predicate Tight(s: string) {
    s != "" ==> !IsSpace(s[0]) && !IsSpace(s[|s| - 1])
  }

  lemma {:induction false} TrimLeftPad(a: string, x: string)
    requires AllSpace(a)
    ensures TrimLeft(a + x) == TrimLeft(x)
  {
    if a == "" {
      assert a + x == x;
    } else {
      assert (a + x)[1..] == a[1..] + x;
      TrimLeftPad(a[1..], x);
    }
  }

  lemma {:induction false} TrimRightPad(x: string, b: string)
    requires AllSpace(b)
    ensures TrimRight(x + b) == TrimRight(x)
  {
    if b == "" {
      assert x + b == x;
    } else {
      assert (x + b)[..|x + b| - 1] == x + b[..|b| - 1];
      TrimRightPad(x, b[..|b| - 1]);
    }
  }

  lemma {:induction false} TrimLeftTail(x: string, b: string)
    requires AllSpace(b)
    ensures TrimLeft(x + b) == if TrimLeft(x) == "" then "" else TrimLeft(x) + b
  {
    if x == "" {
      TrimLeftPad(b, "");
      assert x + b == b == b + "";
    } else if IsSpace(x[0]) {
      assert (x + b)[1..] == x[1..] + b;
      TrimLeftTail(x[1..], b);
    }
  }

  /** White space around a text does not change what is left after trimming. */
  lemma TrimPad(a: string, x: string, b: string)
    requires AllSpace(a) && AllSpace(b)
    ensures Trim(a + x + b) == Trim(x)
  {
    TrimLeftTail(a + x, b);
    TrimLeftPad(a, x);
    if TrimLeft(x) != "" {
      TrimRightPad(TrimLeft(x), b);
    }
  }

  lemma {:induction false} TrimLeftSplit(s: string)
    ensures |TrimLeft(s)| <= |s|
    ensures s == s[..|s| - |TrimLeft(s)|] + TrimLeft(s)
    ensures AllSpace(s[..|s| - |TrimLeft(s)|])
    ensures TrimLeft(s) != "" ==> !IsSpace(TrimLeft(s)[0])
  {
    if s != "" && IsSpace(s[0]) {
      TrimLeftSplit(s[1..]);
      var k := |s| - |TrimLeft(s)|;
      assert s[..k] == [s[0]] + s[1..][..k - 1];
    }
  }

  lemma SplitLater(s: string, front: string)
    requires s != "" && |front| <= |s| - 1 && s[..|s| - 1] == front + s[..|s| - 1][|front|..]
    requires IsSpace(s[|s| - 1]) && AllSpace(s[..|s| - 1][|front|..])
    ensures s == front + s[|front|..] && AllSpace(s[|front|..])
  {
    hide IsSpace;
    assert s[|front|..] == s[..|s| - 1][|front|..] + [s[|s| - 1]];
  }

  lemma {:induction false} TrimRightSplit(s: string)
    ensures |TrimRight(s)| <= |s|
    ensures s == TrimRight(s) + s[|TrimRight(s)|..]
    ensures AllSpace(s[|TrimRight(s)|..])
    ensures TrimRight(s) != "" ==> !IsSpace(TrimRight(s)[|TrimRight(s)| - 1])
  {
    if s != "" && IsSpace(s[|s| - 1]) {
      hide IsSpace;
      var n := |s| - 1;
      TrimRightSplit(s[..n]);
      FrontAndLast(s);
      SplitLater(s, TrimRight(s));
    } else {
      assert s + s[|s|..] == s;
    }
  }

  /** A text is its trimmed core between two stretches of white space. */
  lemma TrimSplit(s: string) returns (a: string, b: string)
    ensures s == a + Trim(s) + b && AllSpace(a) && AllSpace(b) && Tight(Trim(s))
  {
    hide TrimLeft, TrimRight, IsSpace, AllSpace;
    TrimLeftSplit(s);
    var t := TrimLeft(s);
    TrimRightSplit(t);
    a := s[..|s| - |t|];
    b := t[|TrimRight(t)|..];
    Associate(a, Trim(s), b);
    if Trim(s) != "" {
      assert Trim(s)[0] == t[0];
    }
  }

  lemma TrimTight(s: string)
    requires Tight(s)
    ensures Trim(s) == s
  {
  }

  lemma TrimOnce(s: string)
    ensures Trim(Trim(s)) == Trim(s)
  {
    var _, _ := TrimSplit(s);
    TrimTight(Trim(s));
  }

  /** Position of the first `c`, or the length when there is none. */
  function IndexOf(s: string, c: char): (n: nat)
    ensures n <= |s|
    ensures n < |s| ==> s[n] == c
    ensures forall i :: 0 <= i < n ==> s[i] != c
  {
    if s == "" || s[0] == c then 0 else 1 + IndexOf(s[1..], c)
  }

  lemma IndexIs(s: string, c: char, n: nat)
    requires n < |s| && s[n] == c && forall i :: 0 <= i < n ==> s[i] != c
    ensures IndexOf(s, c) == n
  {
  }

  lemma IndexNone(s: string, c: char)
    requires c !in s
    ensures IndexOf(s, c) == |s|
  {
  }

  /** Lower case as far as it can produce one of the ASCII names compared
      against: the ASCII letters and the two other characters that lower to
      ASCII letters. */
  function LowerChar(c: char): char {
    if 'A' <= c <= 'Z' then c - 'A' + 'a'
    else if c == '\U{0130}' then 'i'
    else if c == '\U{212A}' then 'k'
    else c
  }

  function Lower(s: string): (l: string)
    ensures |l| == |s|
  {
    seq(|s|, i requires 0 <= i < |s| => LowerChar(s[i]))
  }

  /** Size in bytes of the UTF-8 encoding. */
  function Bytes(s: string): nat {
    if s == "" then 0 else Width(s[0]) + Bytes(s[1..])
  }

  function Width(c: char): nat {
    if c < '\U{0080}' then 1 else if c < '\U{0800}' then 2 else if c < '\U{10000}' then 3 else 4
  }

  lemma {:induction false} BytesAppend(a: string, b: string)
    ensures Bytes(a + b) == Bytes(a) + Bytes(b)
  {
    if a == "" {
      assert a + b == b;
    } else {
      assert (a + b)[1..] == a[1..] + b;
      BytesAppend(a[1..], b);
    }
  }

  /** Characters of one byte. */
  predicate Narrow(s: string) {
    forall i :: 0 <= i < |s| ==> s[i] < '\U{0080}'
  }

  lemma {:induction false} NarrowBytes(s: string)
    requires Narrow(s)
    ensures Bytes(s) == |s|
  {
    if s != "" {
      NarrowBytes(s[1..]);
    }
  }

  // ---- Lines ----

  predicate Closed(s: string) {
    s == "" || s[|s| - 1] == '\n'
  }

  /** Length of the first line, its line feed included. */
  function LineLength(s: string): (n: nat)
    requires s != ""
    ensures 0 < n <= |s|
  {
    var i := IndexOf(s, '\n');
    if i < |s| then i + 1 else |s|
  }

  function Lines(s: string): seq<string>
    decreases |s|
  {
    if s == "" then [] else
      var n := LineLength(s);
      [s[..n]] + Lines(s[n..])
  }

  function Concat(lines: seq<string>): string {
    if lines == [] then "" else lines[0] + Concat(lines[1..])
  }

  /** A line: only its last character may be a line feed. */
  predicate IsLine(l: string) {
    l != "" && forall i :: 0 <= i < |l| - 1 ==> l[i] != '\n'
  }

  /** Lines of one text: all but the last end with a line feed. */
  predicate WellSplit(lines: seq<string>) {
    && (forall i :: 0 <= i < |lines| ==> IsLine(lines[i]))
    && (forall i :: 0 <= i < |lines| - 1 ==> Closed(lines[i]))
  }

  lemma {:induction false} LinesWellSplit(s: string)
    ensures WellSplit(Lines(s))
    decreases |s|
  {
    if s != "" {
      var n := LineLength(s);
      LinesWellSplit(s[n..]);
      assert IsLine(s[..n]);
      assert n < |s| ==> Closed(s[..n]);
    }
  }

  lemma {:induction false} ConcatLines(s: string)
    ensures Concat(Lines(s)) == s
    decreases |s|
  {
    if s != "" {
      ConcatLines(s[LineLength(s)..]);
      assert Lines(s)[1..] == Lines(s[LineLength(s)..]);
    }
  }

  lemma LinesCons(l: string, rest: string)
    requires IsLine(l) && (Closed(l) || rest == "")
    ensures Lines(l + rest) == [l] + Lines(rest)
  {
    var s := l + rest;
    if Closed(l) {
      IndexIs(s, '\n', |l| - 1);
    } else {
      assert s == l;
      assert forall i :: 0 <= i < |l| ==> s[i] != '\n';
      IndexNone(s, '\n');
    }
    assert LineLength(s) == |l|;
    assert s[..|l|] == l && s[|l|..] == rest;
  }

  lemma {:induction false} LinesJoin(lines: seq<string>)
    requires WellSplit(lines)
    ensures Lines(Concat(lines)) == lines
  {
    if lines != [] {
      LinesJoin(lines[1..]);
      if |lines| == 1 {
        assert lines[1..] == [];
      }
      LinesCons(lines[0], Concat(lines[1..]));
    }
  }

  /** Splitting is the inverse of joining exactly on well split lines. */
  lemma LinesConcat(lines: seq<string>)
    ensures Lines(Concat(lines)) == lines <==> WellSplit(lines)
  {
    if WellSplit(lines) {
      LinesJoin(lines);
    } else {
      LinesWellSplit(Concat(lines));
    }
  }

  lemma {:induction false} ConcatAppend(a: seq<string>, b: seq<string>)
    ensures Concat(a + b) == Concat(a) + Concat(b)
  {
    if a == [] {
      assert a + b == b;
    } else {
      assert (a + b)[1..] == a[1..] + b;
      ConcatAppend(a[1..], b);
    }
  }

  lemma ConcatOne(l: string)
    ensures Concat([l]) == l
  {
    assert [l][1..] == [];
    assert l + "" == l;
  }

  lemma {:induction false} ConcatClosed(lines: seq<string>)
    requires forall i :: 0 <= i < |lines| ==> IsLine(lines[i]) && Closed(lines[i])
    ensures Closed(Concat(lines))
    ensures lines != [] ==> Concat(lines) != ""
  {
    if lines != [] {
      ConcatClosed(lines[1..]);
    }
  }

  lemma FirstClosed(s: string)
    requires s != "" && Closed(s)
    ensures var n := LineLength(s); Closed(s[n..]) && IsLine(s[..n]) && Closed(s[..n])
  {
  }

  /** Two texts split independently where the first ends its last line. */
  lemma {:induction false} LinesAppend(a: string, b: string)
    requires Closed(a)
    ensures Lines(a + b) == Lines(a) + Lines(b)
    decreases |a|
  {
    if a == "" {
      assert a + b == b;
    } else {
      FirstClosed(a);
      var l, rest := a[..LineLength(a)], a[LineLength(a)..];
      assert a == l + rest && Lines(a) == [l] + Lines(rest);
      Associate(l, rest, b);
      LinesAppend(rest, b);
      LinesCons(l, rest + b);
      Associate([l], Lines(rest), Lines(b));
    }
  }

  /** The last line ends as the text does. */
  lemma {:induction false} LastLine(s: string)
    requires s != ""
    ensures Lines(s) != [] && Closed(Lines(s)[|Lines(s)| - 1]) == Closed(s)
    decreases |s|
  {
    var n := LineLength(s);
    if n < |s| {
      LastLine(s[n..]);
      assert Lines(s) == [s[..n]] + Lines(s[n..]);
    } else {
      assert s[..n] == s && s[n..] == "";
    }
  }
}
