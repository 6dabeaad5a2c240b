/*
 * Little-endian conversion between a 32-bit unsigned word and its four bytes
 * (bytesFrom and uint32From in main.go).
 *
 * Words and bytes are modelled as bounded integers.  Go's
 * `byte((u >> uint(8*i)) & 0xff)` is `(u / 256^i) % 256` on an unsigned word,
 * and `x |= uint32(b) << uint(8*i)` adds `b * 256^i`: the bytes already in
 * `x` lie below bit 8*i, so OR and addition agree there.
 */
module LittleEndian {

  type uint8 = x: int | 0 <= x < 0x100
  type uint32 = x: int | 0 <= x < 0x1_0000_0000

  /** 256^i, the weight of byte i of a little-endian word (1 << 8*i). */
  function ByteWeight(i: nat): (w: nat)
    requires i <= 4
    ensures w > 0
  {
    if i == 0 then 0x1
    else if i == 1 then 0x100
    else if i == 2 then 0x1_0000
    else if i == 3 then 0x100_0000
    else 0x1_0000_0000
  }

  /** Byte i of u, least significant first. */
  function ByteOf(u: uint32, i: nat): uint8
    requires i < 4
  {
    (u / ByteWeight(i)) % 0x100
  }

  /** The four little-endian bytes of u. */
  function BytesOf(u: uint32): seq<uint8>
  {
    [ByteOf(u, 0), ByteOf(u, 1), ByteOf(u, 2), ByteOf(u, 3)]
  }

  /** The word whose little-endian bytes are bs. */
  function Uint32Of(bs: seq<uint8>): uint32
    requires |bs| == 4
  {
    bs[0] as int + 0x100 * (bs[1] as int + 0x100 * (bs[2] as int + 0x100 * bs[3] as int))
  }

  /** The value of the first n bytes of bs, the others read as zero. */
  function PrefixValue(bs: seq<uint8>, n: nat): int
    requires n <= |bs| && n <= 4
  {
    if n == 0 then 0 else PrefixValue(bs, n - 1) + bs[n - 1] * ByteWeight(n - 1)
  }

  lemma DivideInSteps(u: nat)
    ensures u / 0x1_0000 == (u / 0x100) / 0x100
    ensures u / 0x100_0000 == (u / 0x1_0000) / 0x100
  {
  }

  /** Encoding then decoding a word gives the word back. */
  lemma Uint32OfBytesOf(u: uint32)
    ensures |BytesOf(u)| == 4 && Uint32Of(BytesOf(u)) == u
  {
    DivideInSteps(u);
    var q1 := u / 0x100;
    var q2 := q1 / 0x100;
    var q3 := q2 / 0x100;
    assert ByteOf(u, 1) == q1 % 0x100 && ByteOf(u, 2) == q2 % 0x100 && ByteOf(u, 3) == q3 % 0x100;
    assert q3 < 0x100;
    assert u == u % 0x100 + 0x100 * q1;
    assert q1 == q1 % 0x100 + 0x100 * q2;
    assert q2 == q2 % 0x100 + 0x100 * q3;
  }

  /** Decoding then encoding four bytes gives the bytes back. */
  lemma BytesOfUint32Of(bs: seq<uint8>)
    requires |bs| == 4
    ensures BytesOf(Uint32Of(bs)) == bs
  {
    var u := Uint32Of(bs);
    DivideInSteps(u);
    var r3: int := bs[3];
    var r2: int := bs[2] + 0x100 * r3;
    var r1: int := bs[1] + 0x100 * r2;
    assert u == bs[0] as int + 0x100 * r1;
    assert u / 0x100 == r1 && u % 0x100 == bs[0];
    assert r1 / 0x100 == r2 && r1 % 0x100 == bs[1];
    assert r2 / 0x100 == r3 && r2 % 0x100 == bs[2];
  }

  /** The two encodings are inverse to each other, so BytesOf is injective. */
  lemma BytesOfInjective(u: uint32, v: uint32)
    ensures BytesOf(u) == BytesOf(v) <==> u == v
  {
    if BytesOf(u) == BytesOf(v) {
      Uint32OfBytesOf(u);
      Uint32OfBytesOf(v);
    }
  }

  lemma PrefixValueOfFour(bs: seq<uint8>)
    requires |bs| == 4
    ensures PrefixValue(bs, 4) == Uint32Of(bs)
  {
    var b0, b1, b2: int := bs[0], bs[1], bs[2];
    assert PrefixValue(bs, 1) == b0;
    assert PrefixValue(bs, 2) == b0 + 0x100 * b1;
    assert PrefixValue(bs, 3) == b0 + 0x100 * b1 + 0x1_0000 * b2;
  }

  /** bytesFrom: the four little-endian bytes of u, written into a fresh buffer. */
  method BytesFrom(u: uint32) returns (bytes: seq<uint8>)
    ensures bytes == BytesOf(u)
  {
    var buffer := new uint8[4](_ => 0);
    for i := 0 to 4
      invariant forall k :: 0 <= k < i ==> buffer[k] == ByteOf(u, k)
    {
      buffer[i] := (u / ByteWeight(i)) % 0x100;
    }
    bytes := buffer[..];
  }

  /** uint32From: the word whose little-endian bytes are `bytes`; the source
    * stops the process on any other length than four. */
  method Uint32From(bytes: seq<uint8>) returns (x: uint32)
    requires |bytes| == 4
    ensures x == Uint32Of(bytes)
  {
    var acc := 0;
    for i := 0 to 4
      invariant acc == PrefixValue(bytes, i)
    {
      acc := acc + bytes[i] * ByteWeight(i);
    }
    PrefixValueOfFour(bytes);
    x := acc;
  }
}
