/** IP addresses and prefixes as numbers: masking, containment, overlap, and the
    canonical lists the validation works with.  Zones are not modelled. */
module Prefixes {
  import opened Text

  datatype Family = V4 | V6

  datatype Addr = Addr(family: Family, value: nat)

  datatype Prefix = Prefix(addr: Addr, bits: nat)

  function AddrBits(f: Family): nat {
    if f == V4 then 32 else 128
  }

  function Pow2(n: nat): (r: nat)
    ensures r > 0
  {
    if n == 0 then 1 else 2 * Pow2(n - 1)
  }

  predicate ValidAddr(a: Addr) {
    a.value < Pow2(AddrBits(a.family))
  }

  predicate ValidPrefix(p: Prefix) {
    ValidAddr(p.addr) && p.bits <= AddrBits(p.addr.family)
  }

  /** Number of addresses in a prefix of that length. */
  function Span(f: Family, bits: nat): nat
    requires bits <= AddrBits(f)
  {
    Pow2(AddrBits(f) - bits)
  }

  /** The largest multiple of `m` up to `x`. */
  function Base(x: nat, m: nat): nat
    requires m > 0
  {
    (x / m) * m
  }

  function Masked(p: Prefix): Prefix
    requires ValidPrefix(p)
  {
    p.(addr := Addr(p.addr.family, Base(p.addr.value, Span(p.addr.family, p.bits))))
  }

  predicate Contains(p: Prefix, a: Addr)
    requires ValidPrefix(p)
  {
    var span := Span(p.addr.family, p.bits);
    p.addr.family == a.family && a.value / span == p.addr.value / span
  }

  /** Compares both prefixes cut to the shorter one. */
  predicate Overlaps(p: Prefix, q: Prefix)
    requires ValidPrefix(p) && ValidPrefix(q)
  {
    p.addr.family == q.addr.family
    && var span := Span(p.addr.family, if p.bits <= q.bits then p.bits else q.bits);
       p.addr.value / span == q.addr.value / span
  }

  predicate IsHost(p: Prefix) {
    p.bits == AddrBits(p.addr.family)
  }

  // ---- Arithmetic ----

  lemma {:induction false} Pow2Add(a: nat, b: nat)
    ensures Pow2(a + b) == Pow2(a) * Pow2(b)
  {
    if a > 0 {
      Pow2Add(a - 1, b);
    }
  }

  lemma DivIs(x: nat, m: nat, q: nat)
    requires m > 0 && q * m <= x < (q + 1) * m
    ensures x / m == q
  {
    var d := x / m;
    assert x == d * m + x % m;
    MulLess(d, q, m, x);
    MulLess(q, d, m, x);
  }

  lemma MulLess(d: nat, q: nat, m: nat, x: nat)
    requires d * m <= x < (d + 1) * m && q * m <= x < (q + 1) * m
    ensures d <= q
  {
    MulMono(if q + 1 <= d then q + 1 else d, d, m);
  }

  lemma MulMono(a: nat, b: nat, m: nat)
    requires a <= b
    ensures a * m <= b * m
  {
  }

  lemma BaseIs(x: nat, m: nat)
    requires m > 0
    ensures Base(x, m) <= x < Base(x, m) + m
    ensures Base(x, m) / m == x / m && Base(Base(x, m), m) == Base(x, m)
  {
    var q := x / m;
    assert x == q * m + x % m;
    assert (q + 1) * m == q * m + m;
    DivIs(q * m, m, q);
  }

  lemma SameBase(x: nat, y: nat, m: nat)
    requires m > 0
    ensures x / m == y / m <==> Base(x, m) <= y < Base(x, m) + m
  {
    BaseIs(x, m);
    BaseIs(y, m);
    var q := x / m;
    assert (q + 1) * m == q * m + m;
    if q * m <= y < q * m + m {
      DivIs(y, m, q);
    }
  }

  lemma Quotient(x: nat, m: nat)
    requires m > 0
    ensures (x / m) * m <= x < (x / m + 1) * m
  {
    BaseIs(x, m);
    assert (x / m + 1) * m == (x / m) * m + m;
  }

  lemma MulAssociates(q: nat, k: nat, m: nat)
    ensures q * (m * k) == (q * k) * m
  {
  }

  lemma DivDiv(x: nat, m: nat, k: nat)
    requires m > 0 && k > 0
    ensures m * k > 0 && x / (m * k) == (x / m) / k
  {
    var a := x / m;
    var q := a / k;
    Quotient(x, m);
    Quotient(a, k);
    MulMono(q * k, a, m);
    MulMono(a + 1, (q + 1) * k, m);
    MulAssociates(q, k, m);
    MulAssociates(q + 1, k, m);
    MulMono(1, m, k);
    DivIs(x, m * k, q);
  }

  /** Equal quotients stay equal when the divisor grows to a multiple. */
  lemma CoarserSpan(f: Family, bits: nat, fewer: nat, x: nat, y: nat)
    requires fewer <= bits <= AddrBits(f) && x / Span(f, bits) == y / Span(f, bits)
    ensures x / Span(f, fewer) == y / Span(f, fewer)
  {
    var k := Pow2(bits - fewer);
    Pow2Add(AddrBits(f) - bits, bits - fewer);
    DivDiv(x, Span(f, bits), k);
    DivDiv(y, Span(f, bits), k);
  }

  ghost predicate Share(p: Prefix, q: Prefix)
    requires ValidPrefix(p) && ValidPrefix(q)
  {
    exists a :: ValidAddr(a) && Contains(p, a) && Contains(q, a)
  }

  /** The comparison of the cut prefixes decides whether the address sets meet. */
  lemma OverlapsIsShared(p: Prefix, q: Prefix)
    requires ValidPrefix(p) && ValidPrefix(q)
    ensures Overlaps(p, q) <==> Share(p, q)
  {
    if Overlaps(p, q) {
      var a := if p.bits <= q.bits then q.addr else p.addr;
      assert Contains(p, a) && Contains(q, a);
    }
    if Share(p, q) {
      var a :| ValidAddr(a) && Contains(p, a) && Contains(q, a);
      var fewer := if p.bits <= q.bits then p.bits else q.bits;
      CoarserSpan(p.addr.family, p.bits, fewer, a.value, p.addr.value);
      CoarserSpan(q.addr.family, q.bits, fewer, a.value, q.addr.value);
    }
  }

  /** A prefix holds exactly the addresses of one aligned range. */
  lemma ContainsRange(p: Prefix, a: Addr)
    requires ValidPrefix(p) && a.family == p.addr.family
    ensures Contains(p, a) <==>
            Masked(p).addr.value <= a.value < Masked(p).addr.value + Span(p.addr.family, p.bits)
  {
    SameBase(p.addr.value, a.value, Span(p.addr.family, p.bits));
  }

  /** Masking keeps the addresses and is done once. */
  lemma MaskedSame(p: Prefix)
    requires ValidPrefix(p)
    ensures ValidPrefix(Masked(p)) && Masked(Masked(p)) == Masked(p)
    ensures forall a :: Contains(Masked(p), a) <==> Contains(p, a)
  {
    BaseIs(p.addr.value, Span(p.addr.family, p.bits));
  }

  // ---- Order ----

  predicate Less(p: Prefix, q: Prefix) {
    if p.addr.family != q.addr.family then p.addr.family == V4
    else if p.addr.value != q.addr.value then p.addr.value < q.addr.value
    else p.bits < q.bits
  }

  predicate StrictlySorted(s: seq<Prefix>) {
    forall i, j :: 0 <= i < j < |s| ==> Less(s[i], s[j])
  }

  /** Sorted lists without repetition are determined by their elements. */
  lemma {:induction false} SortedUnique(a: seq<Prefix>, b: seq<Prefix>)
    requires StrictlySorted(a) && StrictlySorted(b) && forall p :: p in a <==> p in b
    ensures a == b
  {
    if a != [] {
      assert a[0] in b;
    }
    if b != [] {
      assert b[0] in a;
      FirstsEqual(a, b);
      forall p ensures p in a[1..] <==> p in b[1..] {
        FirstAndRest(a);
        FirstAndRest(b);
        assert p in a <==> p == a[0] || p in a[1..];
        assert p in b <==> p == b[0] || p in b[1..];
      }
      SortedUnique(a[1..], b[1..]);
      FirstAndRest(a);
      FirstAndRest(b);
    }
  }

  lemma FirstsEqual(a: seq<Prefix>, b: seq<Prefix>)
    requires StrictlySorted(a) && StrictlySorted(b) && a != [] && b != [] && a[0] in b && b[0] in a
    ensures a[0] == b[0] && a[0] !in a[1..] && b[0] !in b[1..]
  {
    HeadLeast(a, b[0]);
    HeadLeast(b, a[0]);
  }

  lemma HeadLeast(s: seq<Prefix>, p: Prefix)
    requires StrictlySorted(s) && s != []
    ensures p in s ==> p == s[0] || Less(s[0], p)
    ensures p in s[1..] ==> Less(s[0], p)
  {
    FirstAndRest(s);
  }

  // ---- Canonical lists ----

  /** The values as parsed: nothing for a text that is no prefix. */
  type Parsed = seq<Option<Prefix>>

  predicate AllParsed(values: Parsed) {
    forall i :: 0 <= i < |values| ==> values[i].Some? && ValidPrefix(values[i].value)
  }

  /** Parsing never yields an impossible prefix. */
  predicate Sound(values: Parsed) {
    forall i :: 0 <= i < |values| && values[i].Some? ==> ValidPrefix(values[i].value)
  }

  /** Some value masks to `p`. */
  predicate Masks(values: Parsed, p: Prefix)
    requires AllParsed(values)
  {
    exists i :: 0 <= i < |values| && Masked(values[i].value) == p
  }

  /** `list` is the canonical list of the values. */
  ghost predicate Canonical(values: Parsed, list: seq<Prefix>)
    requires AllParsed(values)
  {
    StrictlySorted(list) && forall p :: p in list <==> Masks(values, p)
  }

  ghost predicate SameMasked(a: Parsed, b: Parsed)
    requires AllParsed(a) && AllParsed(b)
  {
    forall p :: Masks(a, p) <==> Masks(b, p)
  }

  /** Two canonical lists are equal exactly if the masked prefixes are the same. */
  lemma CanonicalUnique(a: Parsed, b: Parsed, left: seq<Prefix>, right: seq<Prefix>)
    requires AllParsed(a) && AllParsed(b) && Canonical(a, left) && Canonical(b, right)
    ensures left == right <==> SameMasked(a, b)
  {
    if SameMasked(a, b) {
      SortedUnique(left, right);
    } else {
      var p :| Masks(a, p) != Masks(b, p);
      assert (p in left) != (p in right);
    }
  }

  function Values(list: seq<Prefix>): (values: Parsed)
    ensures |values| == |list| && forall i :: 0 <= i < |list| ==> values[i] == Some(list[i])
  {
    seq(|list|, i requires 0 <= i < |list| => Some(list[i]))
  }

  /** A canonical list is its own canonical list. */
  lemma CanonicalAgain(values: Parsed, list: seq<Prefix>)
    requires AllParsed(values) && Canonical(values, list)
    ensures AllParsed(Values(list)) && Canonical(Values(list), list)
  {
    var again := Values(list);
    forall i | 0 <= i < |list| ensures ValidPrefix(list[i]) && Masked(list[i]) == list[i] {
      assert list[i] in list;
      var j :| 0 <= j < |values| && Masked(values[j].value) == list[i];
      MaskedSame(values[j].value);
    }
    forall p | p in list ensures Masks(again, p) {
      var i :| 0 <= i < |list| && list[i] == p;
      assert Masked(again[i].value) == p;
    }
  }

  /** Neither the order nor the number of the values matters. */
  lemma CanonicalOrderless(a: Parsed, b: Parsed, list: seq<Prefix>)
    requires AllParsed(a) && AllParsed(b) && (forall v :: v in a <==> v in b) && Canonical(a, list)
    ensures Canonical(b, list)
  {
    MaskedOnlyMembers(a, b);
    MaskedOnlyMembers(b, a);
  }

  lemma MaskedOnlyMembers(a: Parsed, b: Parsed)
    requires AllParsed(a) && AllParsed(b) && forall v :: v in a ==> v in b
    ensures forall p :: Masks(a, p) ==> Masks(b, p)
  {
    forall p | Masks(a, p) ensures Masks(b, p) {
      var i :| 0 <= i < |a| && Masked(a[i].value) == p;
      assert a[i] in a;
      var j :| 0 <= j < |b| && b[j] == a[i];
    }
  }

  // ---- The validation's loops ----

  /** Inserts into a sorted list. */
  method Insert(list: seq<Prefix>, p: Prefix) returns (r: seq<Prefix>)
    requires StrictlySorted(list) && p !in list
    ensures StrictlySorted(r) && forall q :: q in r <==> q in list || q == p
  {
    var i := 0;
    while i < |list| && Less(list[i], p)
      invariant i <= |list|
      invariant forall k :: 0 <= k < i ==> Less(list[k], p)
    {
      i := i + 1;
    }
    r := list[..i] + [p] + list[i..];
    InsertedSorted(list, p, i);
  }

  lemma LessOrder(p: Prefix, q: Prefix, r: Prefix)
    requires p != q && !Less(q, p) && (q == r || Less(q, r))
    ensures Less(p, r)
  {
  }

  lemma InsertedSorted(list: seq<Prefix>, p: Prefix, i: nat)
    requires StrictlySorted(list) && p !in list && i <= |list|
    requires forall k :: 0 <= k < i ==> Less(list[k], p)
    requires i < |list| ==> !Less(list[i], p)
    ensures StrictlySorted(list[..i] + [p] + list[i..])
    ensures forall q :: q in list[..i] + [p] + list[i..] <==> q in list || q == p
  {
    hide Less;
    var r := list[..i] + [p] + list[i..];
    assert forall k :: 0 <= k < i ==> r[k] == list[k];
    assert r[i] == p;
    assert forall k :: i < k < |r| ==> r[k] == list[k - 1];
    assert list == list[..i] + list[i..];
    forall k | i <= k < |list| ensures Less(p, list[k]) {
      assert list[k] in list && list[i] in list;
      LessOrder(p, list[i], list[k]);
    }
  }

  /** Masks, drops repetitions and sorts; nothing if a value is no prefix. */
  method CanonicalPrefixes(values: Parsed) returns (result: Option<seq<Prefix>>)
    requires Sound(values)
    ensures result.Some? <==> AllParsed(values)
    ensures result.Some? ==> Canonical(values, result.value)
  {
    var seen: set<Prefix> := {};
    var list: seq<Prefix> := [];
    var i := 0;
    while i < |values|
      invariant i <= |values| && AllParsed(values[..i])
      invariant StrictlySorted(list)
      invariant forall p :: p in seen <==> p in list
      invariant forall p :: p in list <==> Masks(values[..i], p)
    {
      if values[i].None? {
        return None;
      }
      var prefix := Masked(values[i].value);
      MasksMore(values, i);
      if prefix !in seen {
        seen := seen + {prefix};
        list := Insert(list, prefix);
      }
      i := i + 1;
    }
    assert values[..i] == values;
    return Some(list);
  }

  lemma MasksMore(values: Parsed, i: nat)
    requires i < |values| && AllParsed(values[..i]) && values[i].Some? && ValidPrefix(values[i].value)
    ensures AllParsed(values[..i + 1])
    ensures forall p :: Masks(values[..i + 1], p) <==> Masks(values[..i], p) || p == Masked(values[i].value)
  {
    var more, less := values[..i + 1], values[..i];
    assert forall k :: 0 <= k < i ==> more[k] == less[k];
    assert more[i] == values[i];
    forall p ensures Masks(more, p) <==> Masks(less, p) || p == Masked(values[i].value) {
      if Masks(less, p) {
        var k :| 0 <= k < |less| && Masked(less[k].value) == p;
        assert Masked(more[k].value) == p;
      }
      if p == Masked(values[i].value) {
        assert Masked(more[i].value) == p;
      }
    }
  }

  /** Two lists name the same prefixes, in any order and notation. */
  method SamePrefixes(left: Parsed, right: Parsed) returns (same: bool)
    requires Sound(left) && Sound(right)
    ensures same <==> AllParsed(left) && AllParsed(right) && SameMasked(left, right)
  {
    var a := CanonicalPrefixes(left);
    var b := CanonicalPrefixes(right);
    same := a.Some? && b.Some? && a.value == b.value;
    if a.Some? && b.Some? {
      CanonicalUnique(left, right, a.value, b.value);
    }
  }

  datatype Owned = Owned(peer: string, prefix: Prefix)

  ghost predicate Clear(candidate: seq<Prefix>, existing: seq<Owned>, excluded: string)
    requires forall p :: p in candidate ==> ValidPrefix(p)
    requires forall o :: o in existing ==> ValidPrefix(o.prefix)
  {
    forall i, j :: 0 <= i < |candidate| && 0 <= j < |existing| && existing[j].peer != excluded ==>
      !Share(candidate[i], existing[j].prefix)
  }

  /** Accepts exactly if no address belongs to a candidate and to another peer. */
  method RejectOverlaps(candidate: seq<Prefix>, existing: seq<Owned>, excluded: string) returns (ok: bool)
    requires forall p :: p in candidate ==> ValidPrefix(p)
    requires forall o :: o in existing ==> ValidPrefix(o.prefix)
    ensures ok <==> Clear(candidate, existing, excluded)
  {
    for i := 0 to |candidate|
      invariant forall k, j :: 0 <= k < i && 0 <= j < |existing| && existing[j].peer != excluded ==>
                  !Share(candidate[k], existing[j].prefix)
    {
      for j := 0 to |existing|
        invariant forall k :: 0 <= k < j && existing[k].peer != excluded ==> !Share(candidate[i], existing[k].prefix)
      {
        if existing[j].peer == excluded {
          continue;
        }
        if candidate[i].addr.family != existing[j].prefix.addr.family {
          continue;
        }
        OverlapsIsShared(candidate[i], existing[j].prefix);
        if Overlaps(candidate[i], existing[j].prefix) {
          return false;
        }
      }
    }
    return true;
  }
}
