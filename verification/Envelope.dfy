/** Secret envelopes over an ideal authenticated cipher and an ideal key
    derivation: what the additional data binds, and what rewrapping keeps. */
module Envelope {
  import opened Text

  newtype byte = x: int | 0 <= x < 256

  type Bytes = seq<byte>

  const KEY_SIZE := 32
  const NONCE_SIZE := 24
  const OVERHEAD := 16
  const AAD_VERSION := 1
  const LIMIT := 0x1_0000_0000

  datatype Context = Context(gateway: Bytes, ownerType: Bytes, owner: Bytes, purpose: Bytes)

  // ---- Additional data ----

  /** Big-endian 32-bit number; a larger one is cut. */
  function U32(n: nat): (b: Bytes)
    ensures |b| == 4
  {
    var m := n % LIMIT;
    var third := m / 0x100;
    var second := third / 0x100;
    var first := second / 0x100;
    [first as byte, (second % 0x100) as byte, (third % 0x100) as byte, (m % 0x100) as byte]
  }

  /** A value behind its length. */
  function Field(value: Bytes): Bytes {
    U32(|value|) + value
  }

  function Fields(values: seq<Bytes>): Bytes {
    if values == [] then [] else Fields(values[..|values| - 1]) + Field(values[|values| - 1])
  }

  function Ascii(s: string): Bytes {
    seq(|s|, i requires 0 <= i < |s| => if s[i] < 128 as char then s[i] as byte else 0)
  }

  function Values(c: Context, domain: Bytes): seq<Bytes> {
    [Ascii("wiregate/secret/v1"), domain, c.gateway, c.ownerType, c.owner, c.purpose]
  }

  function Aad(c: Context, keyVersion: nat, domain: Bytes): Bytes {
    Fields(Values(c, domain)) + U32(AAD_VERSION) + U32(keyVersion)
  }

  /** The loop over the fields. */
  method EncodeAad(c: Context, keyVersion: nat, domain: Bytes) returns (result: Bytes)
    ensures result == Aad(c, keyVersion, domain)
  {
    result := [];
    var values := Values(c, domain);
    for i := 0 to |values|
      invariant result == Fields(values[..i])
    {
      assert values[..i + 1][..i] == values[..i];
      result := result + U32(|values[i]|);
      result := result + values[i];
      Associate(Fields(values[..i]), U32(|values[i]|), values[i]);
    }
    assert values[..|values|] == values;
    result := result + U32(AAD_VERSION);
    result := result + U32(keyVersion);
  }

  lemma U32Injective(a: nat, b: nat)
    requires a < LIMIT && b < LIMIT && U32(a) == U32(b)
    ensures a == b
  {
    assert U32(a)[0] == U32(b)[0] && U32(a)[1] == U32(b)[1] && U32(a)[2] == U32(b)[2] && U32(a)[3] == U32(b)[3];
    Split(a);
    Split(b);
  }

  lemma Split(a: nat)
    requires a < LIMIT
    ensures a == U32(a)[0] as int * 0x1000000 + U32(a)[1] as int * 0x10000 + U32(a)[2] as int * 0x100 + U32(a)[3] as int
  {
  }

  predicate Short(value: Bytes) {
    |value| < LIMIT
  }

  /** A field cannot run into what follows. */
  lemma FieldFirst(a: Bytes, x: Bytes, b: Bytes, y: Bytes)
    requires Short(a) && Short(b) && Field(a) + x == Field(b) + y
    ensures a == b && x == y
  {
    var s := Field(a) + x;
    assert s[..4] == U32(|a|) && s[..4] == U32(|b|);
    U32Injective(|a|, |b|);
    assert s[4..4 + |a|] == a && s[4..4 + |b|] == b;
    assert s[4 + |a|..] == x && s[4 + |b|..] == y;
  }

  /** The fields from the front. */
  function FromFront(values: seq<Bytes>, end: Bytes): Bytes {
    if values == [] then end else Field(values[0]) + FromFront(values[1..], end)
  }

  lemma {:induction false} FieldsFromFront(values: seq<Bytes>, end: Bytes)
    ensures Fields(values) + end == FromFront(values, end)
  {
    if values == [] {
      assert Fields(values) + end == end;
    } else {
      var n := |values| - 1;
      Associate(Fields(values[..n]), Field(values[n]), end);
      FieldsFromFront(values[..n], Field(values[n]) + end);
      FrontMore(values[..n], values[n], end);
      FrontAndLast(values);
    }
  }

  lemma {:induction false} FrontMore(values: seq<Bytes>, last: Bytes, end: Bytes)
    ensures FromFront(values + [last], end) == FromFront(values, Field(last) + end)
  {
    if values != [] {
      assert (values + [last])[1..] == values[1..] + [last];
      FrontMore(values[1..], last, end);
    } else {
      assert [last][1..] == [];
    }
  }

  lemma {:induction false} FrontInjective(a: seq<Bytes>, b: seq<Bytes>, x: Bytes, y: Bytes)
    requires |a| == |b| && FromFront(a, x) == FromFront(b, y)
    requires forall i :: 0 <= i < |a| ==> Short(a[i]) && Short(b[i])
    ensures a == b && x == y
  {
    if a != [] {
      FieldFirst(a[0], FromFront(a[1..], x), b[0], FromFront(b[1..], y));
      FrontInjective(a[1..], b[1..], x, y);
      FirstAndRest(a);
      FirstAndRest(b);
    }
  }

  predicate ShortContext(c: Context) {
    Short(c.gateway) && Short(c.ownerType) && Short(c.owner) && Short(c.purpose)
  }

  /** Different contexts, domains or key versions never share their additional data. */
  lemma AadInjective(c: Context, v: nat, d: Bytes, c': Context, v': nat, d': Bytes)
    requires ShortContext(c) && ShortContext(c') && Short(d) && Short(d') && v < LIMIT && v' < LIMIT
    requires Aad(c, v, d) == Aad(c', v', d')
    ensures c == c' && v == v' && d == d'
  {
    var a, b := Values(c, d), Values(c', d');
    var x, y := U32(AAD_VERSION) + U32(v), U32(AAD_VERSION) + U32(v');
    Associate(Fields(a), U32(AAD_VERSION), U32(v));
    Associate(Fields(b), U32(AAD_VERSION), U32(v'));
    FieldsFromFront(a, x);
    FieldsFromFront(b, y);
    FrontInjective(a, b, x, y);
    assert a[1] == b[1] && a[2] == b[2] && a[3] == b[3] && a[4] == b[4] && a[5] == b[5];
    assert x[4..] == U32(v) && y[4..] == U32(v');
    U32Injective(v, v');
  }

  // ---- Ideal cryptography ----

  /** A data key, or the key derived from a master key for a gateway. */
  datatype Key = Data(bytes: Bytes) | Derived(master: Bytes, gateway: Bytes)

  /** What a cipher text is made of; nothing else opens. */
  datatype Cipher = Sealed(key: Key, nonce: Bytes, plain: Bytes, aad: Bytes) | Forged(length: nat)

  function CipherLength(c: Cipher): nat {
    match c case Sealed(_, _, plain, _) => |plain| + OVERHEAD case Forged(length) => length
  }

  function Unseal(key: Key, nonce: Bytes, c: Cipher, aad: Bytes): Option<Bytes> {
    if c.Sealed? && c.key == key && c.nonce == nonce && c.aad == aad then Some(c.plain) else None
  }

  datatype Envelope = Envelope(algorithm: string, cipher: Cipher, payloadNonce: Bytes, wrapped: Cipher, wrapNonce: Bytes,
                               keyVersion: nat, aadVersion: nat, fingerprint: Bytes)

  const ALGORITHM := "xchacha20-poly1305+hkdf-sha256"
  const PAYLOAD: Bytes := Ascii("payload")
  const WRAP: Bytes := Ascii("wrap")

  predicate ValidInputs(master: Bytes, keyVersion: nat, c: Context) {
    |master| == KEY_SIZE && keyVersion != 0 && c.gateway != [] && c.ownerType != [] && c.owner != [] && c.purpose != []
  }

  predicate ValidEnvelope(master: Bytes, c: Context, e: Envelope) {
    && ValidInputs(master, e.keyVersion, c)
    && e.algorithm == ALGORITHM && e.aadVersion == AAD_VERSION
    && |e.payloadNonce| == NONCE_SIZE && |e.wrapNonce| == NONCE_SIZE
    && CipherLength(e.wrapped) == KEY_SIZE + OVERHEAD
  }

  /** The random values of a call. */
  datatype Random = Random(dek: Bytes, payloadNonce: Bytes, wrapNonce: Bytes)

  predicate Drawn(r: Random) {
    |r.dek| == KEY_SIZE && |r.payloadNonce| == NONCE_SIZE && |r.wrapNonce| == NONCE_SIZE
  }

  function Seal(master: Bytes, keyVersion: nat, c: Context, plain: Bytes, fingerprint: Bytes, r: Random): Option<Envelope> {
    if !ValidInputs(master, keyVersion, c) then None
    else Some(Envelope(ALGORITHM, Sealed(Data(r.dek), r.payloadNonce, plain, Aad(c, 0, PAYLOAD)), r.payloadNonce,
                       Sealed(Derived(master, c.gateway), r.wrapNonce, r.dek, Aad(c, keyVersion, WRAP)), r.wrapNonce,
                       keyVersion, AAD_VERSION, fingerprint))
  }

  function UnwrapDek(master: Bytes, c: Context, e: Envelope): Option<Bytes> {
    Unseal(Derived(master, c.gateway), e.wrapNonce, e.wrapped, Aad(c, e.keyVersion, WRAP))
  }

  function Open(master: Bytes, c: Context, e: Envelope): Option<Bytes> {
    if !ValidEnvelope(master, c, e) then None
    else
      match UnwrapDek(master, c, e)
      case None => None
      case Some(dek) => Unseal(Data(dek), e.payloadNonce, e.cipher, Aad(c, 0, PAYLOAD))
  }

  function Rewrap(oldMaster: Bytes, newMaster: Bytes, newVersion: nat, c: Context, e: Envelope, nonce: Bytes): Option<Envelope> {
    if newVersion == 0 || |newMaster| != KEY_SIZE || !ValidEnvelope(oldMaster, c, e) then None
    else
      match UnwrapDek(oldMaster, c, e)
      case None => None
      case Some(dek) =>
        Some(e.(wrapped := Sealed(Derived(newMaster, c.gateway), nonce, dek, Aad(c, newVersion, WRAP)),
                wrapNonce := nonce, keyVersion := newVersion))
  }

  // ---- Opening what was sealed ----

  /** What sealing gives opens for the same context, and only with the same
      master key and context: the additional data binds all four fields. */
  lemma OpenSealed(master: Bytes, keyVersion: nat, c: Context, plain: Bytes, fingerprint: Bytes, r: Random, e: Envelope,
                   master': Bytes, c': Context)
    requires Seal(master, keyVersion, c, plain, fingerprint, r) == Some(e) && Drawn(r) && keyVersion < LIMIT
    requires ShortContext(c) && ShortContext(c') && |master'| == KEY_SIZE
    ensures Open(master, c, e) == Some(plain)
    ensures Open(master', c', e).Some? <==> master' == master && c' == c
  {
    if Open(master', c', e).Some? {
      assert Short(WRAP);
      AadInjective(c, keyVersion, WRAP, c', keyVersion, WRAP);
    }
  }

  /** A stored key version that was changed makes the envelope useless. */
  lemma VersionBound(master: Bytes, c: Context, e: Envelope, version: nat)
    requires Open(master, c, e).Some? && version != e.keyVersion && version < LIMIT && e.keyVersion < LIMIT && ShortContext(c)
    ensures Open(master, c, e.(keyVersion := version)) == None
  {
    if Open(master, c, e.(keyVersion := version)).Some? {
      AadInjective(c, e.keyVersion, WRAP, c, version, WRAP);
    }
  }

  datatype Rotation = Rotation(master: Bytes, version: nat, nonce: Bytes)

  /** The envelope after a chain of rewraps, each with the master key of the one
      before. */
  function Rotated(master: Bytes, c: Context, e: Envelope, chain: seq<Rotation>): Option<Envelope>
    decreases |chain|
  {
    if chain == [] then Some(e)
    else
      match Rewrap(master, chain[0].master, chain[0].version, c, e, chain[0].nonce)
      case None => None
      case Some(next) => Rotated(chain[0].master, c, next, chain[1..])
  }

  function LastMaster(master: Bytes, chain: seq<Rotation>): Bytes {
    if chain == [] then master else chain[|chain| - 1].master
  }

  predicate Proper(chain: seq<Rotation>) {
    forall i :: 0 <= i < |chain| ==>
      |chain[i].master| == KEY_SIZE && chain[i].version != 0 && |chain[i].nonce| == NONCE_SIZE
  }

  /** After any chain of rewraps the same plain text opens with the last master
      key, and payload cipher text and nonce are as they were.  Proper rewraps of
      an envelope that opens never fail. */
  lemma {:induction false} RotationKeeps(master: Bytes, c: Context, e: Envelope, chain: seq<Rotation>)
    requires Open(master, c, e).Some? && Proper(chain)
    ensures var end := Rotated(master, c, e, chain);
            && end.Some? && Open(LastMaster(master, chain), c, end.value) == Open(master, c, e)
            && end.value.cipher == e.cipher && end.value.payloadNonce == e.payloadNonce
    decreases |chain|
  {
    if chain != [] {
      var step := chain[0];
      var next := Rewrap(master, step.master, step.version, c, e, step.nonce).value;
      assert Open(step.master, c, next) == Open(master, c, e);
      assert Proper(chain[1..]) by {
        assert forall i :: 0 <= i < |chain[1..]| ==> chain[1..][i] == chain[i + 1];
      }
      RotationKeeps(step.master, c, next, chain[1..]);
      assert LastMaster(step.master, chain[1..]) == LastMaster(master, chain);
    }
  }
}
