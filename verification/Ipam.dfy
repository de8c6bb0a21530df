/** Allocation of the first free address of a pool.
    Addresses are numbers below 2^32 or 2^128; a pool is the interval its prefix
    describes.  The broadcast address is computed bit by bit, as the allocator
    does, and proved to be the last address of that interval. */
module Ipam {
  import opened Text
  import opened Prefixes

  const MAX_ALLOCATION_SCAN := 1048576

  datatype Allocation =
    | Allocated(address: Addr)
    | InvalidPool
    | GatewayOutside
    | ScanLimit
    | Exhausted

  /** A pool with its gateway and the addresses in use. */
  datatype Candidates = Candidates(pool: Prefix, gateway: Addr, taken: set<Addr>, quarantined: set<Addr>,
                                   reservations: set<Addr>)

  predicate Used(c: Candidates, a: Addr) {
    a in c.taken || a in c.quarantined || a in c.reservations
  }

  /** First and last address of a pool. */
  function First(pool: Prefix): Addr
    requires ValidPrefix(pool)
  {
    Masked(pool).addr
  }

  function Last(pool: Prefix): Addr
    requires ValidPrefix(pool)
  {
    var f := pool.addr.family;
    Addr(f, First(pool).value + Span(f, pool.bits) - 1)
  }

  /** What a peer may get: any address of the pool that is not in use, not the
      gateway, not the network address and, in IPv4, not the broadcast address. */
  ghost predicate Free(c: Candidates, a: Addr)
    requires ValidPrefix(c.pool)
  {
    && Contains(c.pool, a) && !Used(c, a)
    && a != c.gateway && a != First(c.pool) && (a.family == V4 ==> a != Last(c.pool))
  }

  // ---- The broadcast address, bit by bit ----

  function FromBytes(b: seq<nat>): nat
    requires |b| == 4
  {
    b[0] * 0x1000000 + b[1] * 0x10000 + b[2] * 0x100 + b[3]
  }

  predicate Bytes4(b: seq<nat>) {
    |b| == 4 && forall i :: 0 <= i < 4 ==> b[i] < 256
  }

  method As4(value: nat) returns (b: seq<nat>)
    requires value < 0x1_0000_0000
    ensures Bytes4(b) && FromBytes(b) == value
  {
    var third := value / 0x100;
    var second := third / 0x100;
    var first := second / 0x100;
    b := [first, second % 0x100, third % 0x100, value % 0x100];
  }

  /** Disjunction with one bit: adds it unless it is there. */
  function SetBit(byte: nat, bit: nat): nat {
    if (byte / Pow2(bit)) % 2 == 0 then byte + Pow2(bit) else byte
  }

  function Weight(byteIndex: nat): nat
    requires byteIndex < 4
  {
    if byteIndex == 0 then 0x1000000 else if byteIndex == 1 then 0x10000 else if byteIndex == 2 then 0x100 else 1
  }

  lemma Pow2Values()
    ensures Pow2(8) == 0x100 && Pow2(16) == 0x10000 && Pow2(24) == 0x1000000 && Pow2(32) == 0x1_0000_0000
  {
    assert Pow2(4) == 16;
    Pow2Add(4, 4);
    Pow2Add(8, 8);
    Pow2Add(16, 8);
    Pow2Add(16, 16);
  }

  lemma WeightIs(byteIndex: nat)
    requires byteIndex < 4
    ensures Weight(byteIndex) == Pow2(8 * (3 - byteIndex))
  {
    Pow2Values();
  }

  /** The part of the number from one byte up. */
  lemma FromByteUp(b: seq<nat>, i: nat) returns (high: nat)
    requires Bytes4(b) && i < 4
    ensures FromBytes(b) / Weight(i) == high * 256 + b[i]
  {
    var v := FromBytes(b);
    if i == 0 {
      high := 0;
      DivIs(v, 0x1000000, b[0]);
    } else if i == 1 {
      high := b[0];
      DivIs(v, 0x10000, b[0] * 256 + b[1]);
    } else if i == 2 {
      high := b[0] * 256 + b[1];
      DivIs(v, 0x100, high * 256 + b[2]);
    } else {
      high := b[0] * 0x10000 + b[1] * 0x100 + b[2];
    }
  }

  lemma DivAdd(a: nat, b: nat, m: nat)
    requires m > 0
    ensures (a * m + b) / m == a + b / m
  {
    var q := b / m;
    BaseIs(b, m);
    assert (a + q) * m == a * m + q * m;
    assert (a + q + 1) * m == a * m + q * m + m;
    DivIs(a * m + b, m, a + q);
  }

  lemma EvenHalf(high: nat, byte: nat, m: nat, n: nat)
    requires m > 0 && m * (2 * n) == 256
    ensures ((high * 256 + byte) / m) % 2 == (byte / m) % 2
  {
    assert high * 256 == (high * (2 * n)) * m;
    DivAdd(high * (2 * n), byte, m);
    assert high * (2 * n) == 2 * (high * n);
  }

  /** A bit and the power above it make up a byte. */
  lemma ByteParts(k: nat)
    requires k < 8
    ensures Pow2(k) * (2 * Pow2(7 - k)) == 256
  {
    Pow2Add(k, 8 - k);
    Pow2Values();
    assert Pow2(8 - k) == 2 * Pow2(7 - k);
  }

  lemma EvenPart(high: nat, byte: nat, k: nat)
    requires k < 8
    ensures ((high * 256 + byte) / Pow2(k)) % 2 == (byte / Pow2(k)) % 2
  {
    ByteParts(k);
    EvenHalf(high, byte, Pow2(k), Pow2(7 - k));
  }

  lemma EvenQuotient(v: nat, m: nat)
    requires m > 0 && v % (2 * m) == 0
    ensures (v / m) % 2 == 0
  {
    var h := v / (2 * m);
    assert v == h * (2 * m) == (2 * h) * m;
    assert (2 * h + 1) * m == (2 * h) * m + m;
    DivIs(v, m, 2 * h);
  }

  /** In a number whose bits from this one down are all zero, the byte's bit is zero. */
  lemma BitIsZero(b: seq<nat>, bit: nat)
    requires Bytes4(b) && bit < 32 && FromBytes(b) % Pow2(32 - bit) == 0
    ensures (b[bit / 8] / Pow2(7 - bit % 8)) % 2 == 0
  {
    var i, k := bit / 8, 7 - bit % 8;
    var high := FromByteUp(b, i);
    EvenPart(high, b[i], k);
    WeightIs(i);
    Pow2Add(8 * (3 - i), k);
    assert 8 * (3 - i) + k == 31 - bit;
    EvenQuotient(FromBytes(b), Pow2(31 - bit));
    DivDiv(FromBytes(b), Weight(i), Pow2(k));
  }

  lemma ByteAdds(b: seq<nat>, i: nat, p: nat)
    requires Bytes4(b) && i < 4 && b[i] + p < 256
    ensures Bytes4(b[i := b[i] + p]) && FromBytes(b[i := b[i] + p]) == FromBytes(b) + p * Weight(i)
  {
  }

  lemma SetBitAdds(b: seq<nat>, bit: nat)
    requires Bytes4(b) && bit < 32 && FromBytes(b) % Pow2(32 - bit) == 0
    ensures var i, k := bit / 8, 7 - bit % 8;
            var next := b[i := SetBit(b[i], k)];
            FromBytes(next) == FromBytes(b) + Pow2(31 - bit) && Bytes4(next)
  {
    var i, k := bit / 8, 7 - bit % 8;
    BitIsZero(b, bit);
    WeightIs(i);
    Pow2Add(8 * (3 - i), k);
    assert 8 * (3 - i) + k == 31 - bit;
    ByteParts(k);
    RoomForBit(b[i], Pow2(k), Pow2(7 - k));
    ByteAdds(b, i, Pow2(k));
  }

  lemma EvenBelow(q: nat, n: nat)
    requires q < 2 * n && q % 2 == 0
    ensures q + 2 <= 2 * n
  {
  }

  /** A byte without a bit has room for it. */
  lemma RoomForBit(byte: nat, m: nat, n: nat)
    requires byte < 256 && m > 0 && m * (2 * n) == 256 && (byte / m) % 2 == 0
    ensures byte + m < 256
  {
    var q := byte / m;
    BaseIs(byte, m);
    LastBlock(byte, m, 2 * n);
    EvenBelow(q, n);
    MulMono(q + 2, 2 * n, m);
    assert (q + 2) * m == q * m + m + m;
    assert (2 * n) * m == m * (2 * n);
  }

  lemma LastBlock(value: nat, m: nat, n: nat)
    requires m > 0 && value < n * m
    ensures value / m < n && Base(value, m) + m <= n * m
  {
    var q := value / m;
    BaseIs(value, m);
    MulMono(n, if n <= q then q else n, m);
    MulMono(q + 1, if q + 1 <= n then n else q + 1, m);
    assert (q + 1) * m == q * m + m;
  }

  lemma MultipleOfHalf(v: nat, m: nat)
    requires m > 0 && v % (2 * m) == 0
    ensures (v + m) % m == 0
  {
    var h := v / (2 * m);
    assert v == h * (2 * m) == (2 * h) * m;
    assert v + m == (2 * h + 1) * m;
    DivIs(v + m, m, 2 * h + 1);
  }

  /** Where the loop stands before it sets one more bit: the bits above are set,
      this one and those below are zero. */
  ghost predicate BitsSet(raw: seq<nat>, prefix: Prefix, bit: nat)
    requires ValidPrefix(prefix) && prefix.addr.family == V4
  {
    && prefix.bits <= bit <= 32 && Bytes4(raw)
    && FromBytes(raw) == First(prefix).value + Pow2(32 - prefix.bits) - Pow2(32 - bit)
    && FromBytes(raw) % Pow2(32 - bit) == 0
  }

  lemma BitSetNext(raw: seq<nat>, prefix: Prefix, bit: nat)
    requires ValidPrefix(prefix) && prefix.addr.family == V4 && bit < 32 && BitsSet(raw, prefix, bit)
    ensures BitsSet(raw[bit / 8 := SetBit(raw[bit / 8], 7 - bit % 8)], prefix, bit + 1)
  {
    SetBitAdds(raw, bit);
    assert Pow2(32 - bit) == 2 * Pow2(31 - bit);
    MultipleOfHalf(FromBytes(raw), Pow2(31 - bit));
  }

  lemma BitsDone(raw: seq<nat>, prefix: Prefix)
    requires ValidPrefix(prefix) && prefix.addr.family == V4 && BitsSet(raw, prefix, 32)
    ensures |raw| == 4 && Addr(V4, FromBytes(raw)) == Last(prefix)
    ensures FromBytes(raw) == First(prefix).value + Pow2(32 - prefix.bits) - 1
  {
    hide FromBytes, First;
    assert Pow2(0) == 1;
  }

  lemma BitsStart(prefix: Prefix)
    requires ValidPrefix(prefix) && prefix.addr.family == V4
    ensures First(prefix).value < 0x1_0000_0000
    ensures forall raw: seq<nat> :: Bytes4(raw) && FromBytes(raw) == First(prefix).value ==> BitsSet(raw, prefix, prefix.bits)
  {
    Pow2Values();
    PoolFits(prefix);
    BaseMultiple(prefix.addr.value, Pow2(32 - prefix.bits));
  }

  /** Sets every host bit of the network address. */
  method LastAddress(prefix: Prefix) returns (last: Addr)
    requires ValidPrefix(prefix) && prefix.addr.family == V4
    ensures last == Last(prefix)
    ensures last.value == First(prefix).value + Pow2(32 - prefix.bits) - 1
  {
    hide BitsSet, FromBytes, First, Last, Pow2, SetBit;
    BitsStart(prefix);
    var bytes := As4(First(prefix).value);
    var raw := new nat[4](i requires 0 <= i < 4 => bytes[i]);
    assert raw[..] == bytes;
    var bit := prefix.bits;
    while bit < 32
      invariant prefix.bits <= bit <= 32 && BitsSet(raw[..], prefix, bit)
    {
      BitSetNext(raw[..], prefix, bit);
      var byteIndex, bitIndex := bit / 8, 7 - bit % 8;
      ghost var before := raw[..];
      raw[byteIndex] := SetBit(raw[byteIndex], bitIndex);
      assert raw[..] == before[byteIndex := SetBit(before[byteIndex], bitIndex)];
      bit := bit + 1;
    }
    BitsDone(raw[..], prefix);
    last := Addr(V4, FromBytes(raw[..]));
  }

  lemma BaseMultiple(x: nat, m: nat)
    requires m > 0
    ensures Base(x, m) % m == 0
  {
    BaseIs(x, m);
    DivIs(Base(x, m), m, x / m);
  }

  // ---- Allocation ----

  method Usable(pool: Prefix, candidate: Addr, gateway: Addr) returns (ok: bool)
    requires ValidPrefix(pool) && Contains(pool, candidate)
    ensures ok <==> candidate != gateway && candidate != First(pool) && (candidate.family == V4 ==> candidate != Last(pool))
  {
    if candidate == gateway || candidate == First(pool) {
      return false;
    }
    if candidate.family == V4 {
      var broadcast := LastAddress(pool);
      if candidate == broadcast {
        return false;
      }
    }
    return true;
  }

  method Examine(c: Candidates, candidate: Addr) returns (free: bool)
    requires ValidPrefix(c.pool) && Contains(c.pool, candidate)
    ensures free <==> Free(c, candidate)
  {
    free := Usable(c.pool, candidate, c.gateway);
    free := free && candidate !in c.taken && candidate !in c.quarantined && candidate !in c.reservations;
  }

  /** No address below this one is free. */
  ghost predicate NoneBelow(c: Candidates, value: nat)
    requires ValidPrefix(c.pool)
  {
    forall a :: Free(c, a) ==> a.value >= value
  }

  /** The least free address, and exact reasons when there is none: exhausted
      means that no address of the pool is free, and the scan limit that the pool
      is larger than the scan and nothing free was in the part scanned. */
  method Allocate(pool: Option<Prefix>, gateway: Option<Addr>, c: Candidates) returns (result: Allocation)
    requires pool.Some? ==> ValidPrefix(pool.value) && c.pool == pool.value
    requires gateway.Some? ==> ValidAddr(gateway.value) && c.gateway == gateway.value
    ensures result == InvalidPool <==> pool.None?
    ensures result == GatewayOutside <==> pool.Some? && (gateway.None? || !Contains(pool.value, gateway.value))
    ensures result.Allocated? ==> Free(c, result.address) && NoneBelow(c, result.address.value)
    ensures result == Exhausted ==> forall a :: !Free(c, a)
    ensures result == ScanLimit ==>
              && Span(c.pool.addr.family, c.pool.bits) > MAX_ALLOCATION_SCAN
              && NoneBelow(c, First(c.pool).value + MAX_ALLOCATION_SCAN)
  {
    if pool.None? {
      return InvalidPool;
    }
    if gateway.None? || !Contains(pool.value, gateway.value) {
      return GatewayOutside;
    }
    result := Scan(c);
  }

  method Scan(c: Candidates) returns (result: Allocation)
    requires ValidPrefix(c.pool)
    ensures result in {Exhausted, ScanLimit} || result.Allocated?
    ensures result.Allocated? ==> Free(c, result.address) && NoneBelow(c, result.address.value)
    ensures result == Exhausted ==> forall a :: !Free(c, a)
    ensures result == ScanLimit ==>
              && Span(c.pool.addr.family, c.pool.bits) > MAX_ALLOCATION_SCAN
              && NoneBelow(c, First(c.pool).value + MAX_ALLOCATION_SCAN)
  {
    ghost var first := First(c.pool).value;
    var candidate := Some(First(c.pool));
    var scanned := 0;
    AllInRange(c);
    while candidate.Some? && Contains(c.pool, candidate.value) && scanned < MAX_ALLOCATION_SCAN
      invariant scanned <= MAX_ALLOCATION_SCAN
      invariant candidate.Some? ==> candidate.value == Addr(c.pool.addr.family, first + scanned)
      invariant candidate.None? ==> first + Span(c.pool.addr.family, c.pool.bits) <= first + scanned
      invariant NoneBelow(c, first + scanned)
      decreases MAX_ALLOCATION_SCAN - scanned
    {
      var free := Examine(c, candidate.value);
      if free {
        return Allocated(candidate.value);
      }
      PoolFits(c.pool);
      candidate := NextAddress(candidate.value);
      scanned := scanned + 1;
    }
    if candidate.Some? {
      ContainsRange(c.pool, candidate.value);
      if Contains(c.pool, candidate.value) {
        return ScanLimit;
      }
    }
    return Exhausted;
  }

  lemma AllInRange(c: Candidates)
    requires ValidPrefix(c.pool)
    ensures NoneBelow(c, First(c.pool).value)
    ensures forall a :: Free(c, a) ==> a.family == c.pool.addr.family
                                       && a.value < First(c.pool).value + Span(c.pool.addr.family, c.pool.bits)
  {
    forall a | Free(c, a)
      ensures First(c.pool).value <= a.value < First(c.pool).value + Span(c.pool.addr.family, c.pool.bits)
    {
      ContainsRange(c.pool, a);
    }
  }

  /** The next address of the family, if there is one. */
  function NextAddress(a: Addr): Option<Addr> {
    if a.value + 1 < Pow2(AddrBits(a.family)) then Some(Addr(a.family, a.value + 1)) else None
  }

  /** A pool ends within its family's addresses. */
  lemma PoolFits(pool: Prefix)
    requires ValidPrefix(pool)
    ensures First(pool).value + Span(pool.addr.family, pool.bits) <= Pow2(AddrBits(pool.addr.family))
  {
    var w := AddrBits(pool.addr.family);
    Pow2Add(pool.bits, w - pool.bits);
    LastBlock(pool.addr.value, Span(pool.addr.family, pool.bits), Pow2(pool.bits));
  }
}
