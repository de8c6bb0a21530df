/** What a whole file means, block by block. */
module ConfigMeaning {
  // This is the reference the document's own one-pass analysis is compared with:
  // sections and peers are described by the statements of their block alone, and a
  // file is the sum of its blocks.

  import opened Text
  import opened ConfigSyntax

  datatype PeerView = PeerView(publicKey: string, psk: bool, allowed: seq<string>, endpoint: string, keepalive: nat)

  /** The trimmed values a block assigns to one key, in order. */
  function Values(body: seq<Stmt>, key: Key): seq<string> {
    if body == [] then [] else
      var n := |body| - 1;
      Values(body[..n], key) + (if body[n].Assign? && body[n].key == key then [body[n].value] else [])
  }

  function LastOr(values: seq<string>, default: string): string {
    if values == [] then default else values[|values| - 1]
  }

  /** The last valid public key, or "". */
  function PeerKey(x: Syntax, values: seq<string>): string {
    if values == [] then ""
    else if x.validKey(values[|values| - 1]) then values[|values| - 1]
    else PeerKey(x, values[..|values| - 1])
  }

  function Allowed(x: Syntax, values: seq<string>): seq<string> {
    if values == [] then [] else Allowed(x, values[..|values| - 1]) + Items(x, values[|values| - 1])
  }

  /** The last value that is a 16-bit number, or 0. */
  function Keepalive(values: seq<string>): nat {
    if values == [] then 0
    else match ParseUint16(values[|values| - 1])
         case Some(n) => n
         case None => Keepalive(values[..|values| - 1])
  }

  function ViewOf(x: Syntax, body: seq<Stmt>): PeerView {
    PeerView(PeerKey(x, Values(body, PublicKey)),
             LastOr(Values(body, PresharedKey), "") != "",
             Allowed(x, Values(body, AllowedIPs)),
             LastOr(Values(body, Endpoint), ""),
             Keepalive(Values(body, PersistentKeepalive)))
  }

  predicate NoRaw(body: seq<Stmt>) {
    forall i :: 0 <= i < |body| ==> !body[i].Raw?
  }

  predicate NoHeader(body: seq<Stmt>) {
    forall i :: 0 <= i < |body| ==> !body[i].Header?
  }

  predicate NoAssign(body: seq<Stmt>) {
    forall i :: 0 <= i < |body| ==> !body[i].Assign?
  }

  /** Identity keys given once and valid, the preshared key at most once. */
  predicate IdentityOk(x: Syntax, body: seq<Stmt>) {
    var keys := Values(body, PublicKey);
    |keys| <= 1 && (keys != [] ==> x.validKey(keys[0])) && |Values(body, PresharedKey)| <= 1
  }

  // ---- Sums of blocks ----

  /** `ok` says that no block of the sum blocks adoption by itself. */
  datatype Sum = Sum(interfaces: nat, privateKeys: seq<string>, ok: bool, peers: seq<PeerView>)

  const ZERO := Sum(0, [], true, [])

  function Add(a: Sum, b: Sum): Sum {
    Sum(a.interfaces + b.interfaces, a.privateKeys + b.privateKeys, a.ok && b.ok, a.peers + b.peers)
  }

  /** A block still being read: its section, if any header was seen. */
  datatype Open = Open(section: Section, body: seq<Stmt>)

  predicate OpenOk(x: Syntax, o: Open) {
    match o.section
    case NoSection => NoRaw(o.body) && NoAssign(o.body)
    case InterfaceSection => NoRaw(o.body)
    case PeerSection => NoRaw(o.body) && IdentityOk(x, o.body)
    case OtherSection(_) => false
  }

  function OpenSum(x: Syntax, o: Open): Sum {
    match o.section
    case NoSection => Sum(0, [], OpenOk(x, o), [])
    case InterfaceSection => Sum(1, Values(o.body, PrivateKey), OpenOk(x, o), [])
    case PeerSection =>
      var view := ViewOf(x, o.body);
      if view.publicKey == "" then Sum(0, [], false, []) else Sum(0, [], OpenOk(x, o), [view])
    case OtherSection(_) => Sum(0, [], false, [])
  }

  /** The blocks of a file, the first holding what precedes every header. */
  function Blocks(s: seq<Stmt>): (blocks: seq<Open>)
    ensures blocks != []
  {
    if s == [] then [Open(NoSection, [])] else
      var n := |s| - 1;
      var before := Blocks(s[..n]);
      if s[n].Header? then before + [Open(s[n].section, [])]
      else before[|before| - 1 := Open(before[|before| - 1].section, before[|before| - 1].body + [s[n]])]
  }

  function Total(sums: seq<Sum>): Sum {
    if sums == [] then ZERO else Add(Total(sums[..|sums| - 1]), sums[|sums| - 1])
  }

  function Each<A, B>(f: A -> B, s: seq<A>): (r: seq<B>)
    ensures |r| == |s|
  {
    seq(|s|, i requires 0 <= i < |s| => f(s[i]))
  }

  lemma EachAppend<A, B>(f: A -> B, a: seq<A>, b: seq<A>)
    ensures Each(f, a + b) == Each(f, a) + Each(f, b)
  {
  }

  function Sums(x: Syntax, blocks: seq<Open>): (sums: seq<Sum>)
    ensures |sums| == |blocks|
  {
    Each(o => OpenSum(x, o), blocks)
  }

  function Summary(x: Syntax, s: seq<Stmt>): Sum {
    Total(Sums(x, Blocks(s)))
  }

  predicate Distinct(peers: seq<PeerView>) {
    forall i, j :: 0 <= i < j < |peers| ==> peers[i].publicKey != peers[j].publicKey
  }

  /** The files WireGate may take over and edit. */
  predicate Safe(x: Syntax, sum: Sum) {
    && sum.interfaces == 1
    && sum.ok
    && |sum.privateKeys| == 1 && x.validKey(sum.privateKeys[0])
    && Distinct(sum.peers)
  }

  predicate StartsBlock(s: seq<Stmt>) {
    s == [] || s[0].Header?
  }

  lemma BlocksStep(s: seq<Stmt>, t: Stmt)
    ensures Blocks(s + [t]) ==
            if t.Header? then Blocks(s) + [Open(t.section, [])]
            else var last := Blocks(s)[|Blocks(s)| - 1];
                 Blocks(s)[..|Blocks(s)| - 1] + [Open(last.section, last.body + [t])]
  {
    assert (s + [t])[..|s|] == s;
  }

  lemma {:induction false} BlocksAppend(a: seq<Stmt>, b: seq<Stmt>)
    requires b != [] && b[0].Header?
    ensures |Blocks(b)| > 1 && Blocks(b)[0] == Open(NoSection, [])
    ensures Blocks(a + b) == Blocks(a) + Blocks(b)[1..]
  {
    var n := |b| - 1;
    var front := b[..n];
    assert a + b == (a + front) + [b[n]] && b == front + [b[n]];
    BlocksStep(a + front, b[n]);
    BlocksStep(front, b[n]);
    if n == 0 {
      assert a + front == a && front == [];
    } else {
      BlocksAppend(a, front);
    }
  }

  lemma AddAssociates(a: Sum, b: Sum, c: Sum)
    ensures Add(Add(a, b), c) == Add(a, Add(b, c))
    ensures Add(a, ZERO) == a == Add(ZERO, a)
  {
  }

  lemma {:induction false} TotalAppend(a: seq<Sum>, b: seq<Sum>)
    ensures Total(a + b) == Add(Total(a), Total(b))
  {
    if b == [] {
      assert a + b == a;
      AddAssociates(Total(a), ZERO, ZERO);
    } else {
      var n := |b| - 1;
      assert (a + b)[..|a| + n] == a + b[..n];
      TotalAppend(a, b[..n]);
      AddAssociates(Total(a), Total(b[..n]), b[n]);
    }
  }

  lemma SumsAppend(x: Syntax, a: seq<Open>, b: seq<Open>)
    ensures Sums(x, a + b) == Sums(x, a) + Sums(x, b)
    ensures Total(Sums(x, a + b)) == Add(Total(Sums(x, a)), Total(Sums(x, b)))
  {
    EachAppend(o => OpenSum(x, o), a, b);
    TotalAppend(Sums(x, a), Sums(x, b));
  }

  lemma TotalOne(x: Syntax, o: Open)
    ensures Total(Sums(x, [o])) == OpenSum(x, o)
  {
    AddAssociates(OpenSum(x, o), ZERO, ZERO);
  }

  lemma NothingRead(x: Syntax)
    ensures Total(Sums(x, [Open(NoSection, [])])) == ZERO
  {
    TotalOne(x, Open(NoSection, []));
  }

  lemma SummaryOfRest(x: Syntax, b: seq<Stmt>)
    requires b != [] && b[0].Header?
    ensures Blocks(b) != [] && Summary(x, b) == Total(Sums(x, Blocks(b)[1..]))
  {
    var rest := Blocks(b)[1..];
    BlocksAppend([], b);
    FirstAndRest(Blocks(b));
    SumsAppend(x, [Open(NoSection, [])], rest);
    NothingRead(x);
    AddAssociates(Total(Sums(x, rest)), ZERO, ZERO);
  }

  /** A file is the sum of its parts, wherever a part starts a new block. */
  lemma SummaryAppend(x: Syntax, a: seq<Stmt>, b: seq<Stmt>)
    requires StartsBlock(b)
    ensures Summary(x, a + b) == Add(Summary(x, a), Summary(x, b))
  {
    if b == [] {
      assert a + b == a;
      NothingRead(x);
      AddAssociates(Summary(x, a), ZERO, ZERO);
    } else {
      BlocksAppend(a, b);
      SummaryOfRest(x, b);
      SumsAppend(x, Blocks(a), Blocks(b)[1..]);
    }
  }

  lemma HeaderAlone(section: Section)
    ensures Blocks([Header(section)]) == [Open(NoSection, []), Open(section, [])]
  {
    var head: seq<Stmt> := [Header(section)];
    assert head[..0] == [];
  }

  lemma {:induction false} OneBlock(section: Section, body: seq<Stmt>)
    requires NoHeader(body)
    ensures Blocks([Header(section)] + body) == [Open(NoSection, []), Open(section, body)]
  {
    hide Blocks;
    var head: seq<Stmt> := [Header(section)];
    if body == [] {
      HeaderAlone(section);
      NothingAround(head);
    } else {
      var n := |body| - 1;
      FrontAndLast(body);
      Associate(head, body[..n], [body[n]]);
      OneBlock(section, body[..n]);
      BlocksStep(head + body[..n], body[n]);
    }
  }

  lemma BlockSummary(x: Syntax, section: Section, body: seq<Stmt>)
    requires NoHeader(body)
    ensures Summary(x, [Header(section)] + body) == OpenSum(x, Open(section, body))
  {
    hide Blocks, OpenSum, Total, Sums, ZERO;
    OneBlock(section, body);
    var before, o := Open(NoSection, []), Open(section, body);
    assert [before, o] == [before] + [o];
    SumsAppend(x, [before], [o]);
    NothingRead(x);
    TotalOne(x, o);
    AddAssociates(OpenSum(x, o), ZERO, ZERO);
  }

  lemma {:induction false} ValuesAppend(a: seq<Stmt>, b: seq<Stmt>, key: Key)
    ensures Values(a + b, key) == Values(a, key) + Values(b, key)
  {
    if b == [] {
      assert a + b == a;
    } else {
      var n := |b| - 1;
      assert (a + b)[..|a| + n] == a + b[..n];
      ValuesAppend(a, b[..n], key);
    }
  }

  lemma BodyAppend(a: seq<Stmt>, b: seq<Stmt>)
    ensures NoRaw(a + b) == (NoRaw(a) && NoRaw(b))
    ensures NoAssign(a + b) == (NoAssign(a) && NoAssign(b))
    ensures NoHeader(a + b) == (NoHeader(a) && NoHeader(b))
  {
    var c := a + b;
    assert forall i :: 0 <= i < |a| ==> a[i] == c[i];
    assert forall i :: 0 <= i < |b| ==> b[i] == c[|a| + i];
  }

  lemma SilentBody(x: Syntax, o: Open, t: Stmt)
    requires t.Blank? || t.Comment?
    ensures OpenSum(x, Open(o.section, o.body + [t])) == OpenSum(x, o)
  {
    forall key ensures Values(o.body + [t], key) == Values(o.body, key) {
      assert (o.body + [t])[..|o.body|] == o.body;
    }
    BodyAppend(o.body, [t]);
  }

  /** Blank lines and comments mean nothing at the end of a file. */
  lemma SummarySilent(x: Syntax, s: seq<Stmt>, t: Stmt)
    requires t.Blank? || t.Comment?
    ensures Summary(x, s + [t]) == Summary(x, s)
  {
    BlocksStep(s, t);
    var blocks := Blocks(s);
    var n := |blocks| - 1;
    var o := blocks[n];
    SilentBody(x, o, t);
    assert blocks == blocks[..n] + [o];
    SumsAppend(x, blocks[..n], [o]);
    SumsAppend(x, blocks[..n], [Open(o.section, o.body + [t])]);
    TotalOne(x, o);
    TotalOne(x, Open(o.section, o.body + [t]));
  }
}
