/*
 * The binary STL codec of main.go: WriteToFile builds the file's bytes,
 * ParseStlFile reads them back.  The file is a byte sequence; opening,
 * creating, closing and the OS read and write calls are not modelled.
 *
 * Layout, little-endian throughout:
 *   0 .. 79            header, written as "STL" and 77 zero bytes, ignored on read
 *   80 .. 83           triangle count N
 *   84 + 50*k .. +49   record k: normal, P0, P1, P2 as twelve 4-byte floats,
 *                      then two attribute bytes that are never written or read
 */
module StlCodec {
  import opened LittleEndian
  import opened StlModel

  const HeaderSize := 80
  const CountSize := 4
  const FloatSize := 4
  const TriangleSize := 50

  /** A float32 component as its bit pattern (math.Float32bits / Float32frombits). */
  type FloatBits = uint32

  /** Why ParseStlFile gave up.  A read that finds no byte left fails with
    * io.EOF; one that finds some but too few fails with the codec's message. */
  datatype ParseError = EndOfFile | ShortHeader | ShortCount | ShortTriangle

  datatype Result<T> = Success(value: T) | Failure(error: ParseError)

  /** The error of a read that found `remaining` bytes where it wanted more. */
  function ReadError(remaining: nat, short: ParseError): ParseError
  {
    if remaining == 0 then EndOfFile else short
  }

  // ---------------------------------------------------------------- encoding

  /** The ASCII bytes of "STL". */
  const Signature: seq<uint8> := [0x53, 0x54, 0x4C]

  /** The 80-byte header WriteToFile writes: "STL" then zero bytes. */
  function Header(): seq<uint8>
  {
    Signature + seq(HeaderSize - |Signature|, _ => 0)
  }

  /** uint32(len(m.Triangles)): Go's conversion keeps the low 32 bits. */
  function CountOf(n: nat): uint32
  {
    n % 0x1_0000_0000
  }

  /** A vector as three little-endian floats. */
  function EncodeVec(v: Vec3<FloatBits>): seq<uint8>
  {
    BytesOf(v.x) + BytesOf(v.y) + BytesOf(v.z)
  }

  /** One 50-byte triangle record; the two attribute bytes are zero. */
  function EncodeRecord(t: Triangle<FloatBits>): seq<uint8>
  {
    EncodeVec(t.normal) + EncodeVec(t.p0) + EncodeVec(t.p1) + EncodeVec(t.p2) + [0, 0]
  }

  /** The blocks enc(t) of the elements t of ts, concatenated in order. */
  function Blocks<T>(ts: seq<T>, enc: T -> seq<uint8>): seq<uint8>
  {
    if ts == [] then [] else Blocks(ts[..|ts| - 1], enc) + enc(ts[|ts| - 1])
  }

  /** The records of ts, in order. */
  function Records(ts: seq<Triangle<FloatBits>>): seq<uint8>
  {
    Blocks(ts, EncodeRecord)
  }

  /** The bytes WriteToFile writes for a model with triangles ts. */
  function Encode(ts: seq<Triangle<FloatBits>>): seq<uint8>
  {
    Header() + BytesOf(CountOf(|ts|)) + Records(ts)
  }

  // ---------------------------------------------------------------- decoding

  /** Float i of vector j of a record, read from bytes 12*j + 4*i .. +3. */
  function FloatAt(rec: seq<uint8>, j: nat, i: nat): FloatBits
    requires |rec| == TriangleSize && j < 4 && i < 3
  {
    var offset := i * FloatSize + j * 3 * FloatSize;
    Uint32Of(rec[offset .. offset + 4])
  }

  function VecAt(rec: seq<uint8>, j: nat): Vec3<FloatBits>
    requires |rec| == TriangleSize && j < 4
  {
    Vec3(FloatAt(rec, j, 0), FloatAt(rec, j, 1), FloatAt(rec, j, 2))
  }

  /** triangleFrom: the triangle a 50-byte record holds. */
  function DecodeRecord(rec: seq<uint8>): Triangle<FloatBits>
    requires |rec| == TriangleSize
  {
    Triangle(VecAt(rec, 0), VecAt(rec, 1), VecAt(rec, 2), VecAt(rec, 3))
  }

  /** The offset of record k. */
  function RecordStart(k: nat): nat
  {
    HeaderSize + CountSize + TriangleSize * k
  }

  /** The triangle count N that a file declares. */
  function CountField(file: seq<uint8>): uint32
    requires |file| >= HeaderSize + CountSize
  {
    Uint32Of(file[HeaderSize .. HeaderSize + CountSize])
  }

  /** Record k of a file, decoded. */
  function RecordAt(file: seq<uint8>, k: nat): Triangle<FloatBits>
    requires RecordStart(k) + TriangleSize <= |file|
  {
    DecodeRecord(file[RecordStart(k) .. RecordStart(k) + TriangleSize])
  }

  /** What ParseStlFile returns for a file with these bytes: the N declared
    * triangles in file order, or the error of the first read that comes up
    * short.  Record (|file| - 84) / 50 is the first short one, and
    * (|file| - 84) % 50 bytes of it are present. */
  function Decode(file: seq<uint8>): Result<seq<Triangle<FloatBits>>>
  {
    if |file| < HeaderSize then
      Failure(ReadError(|file|, ShortHeader))
    else if |file| < HeaderSize + CountSize then
      Failure(ReadError(|file| - HeaderSize, ShortCount))
    else if |file| < RecordStart(CountField(file)) then
      Failure(ReadError((|file| - RecordStart(0)) % TriangleSize, ShortTriangle))
    else
      Success(seq(CountField(file), k requires 0 <= k < CountField(file) => RecordAt(file, k)))
  }

  // ------------------------------------------------------- layout lemmas

  lemma HeaderLayout()
    ensures |Header()| == HeaderSize
    ensures Header()[..3] == Signature
    ensures forall o :: 3 <= o < HeaderSize ==> Header()[o] == 0
  {
  }

  lemma EncodeVecAt(v: Vec3<FloatBits>, i: nat)
    requires i < 3
    ensures |EncodeVec(v)| == 3 * FloatSize
    ensures EncodeVec(v)[4 * i .. 4 * i + 4] == BytesOf(v.At(i))
  {
  }

  /** Float i of vector j occupies record bytes 12*j + 4*i .. +3; the last
    * two bytes are zero. */
  lemma EncodeRecordLayout(t: Triangle<FloatBits>, j: nat, i: nat)
    requires j < 4 && i < 3
    ensures |EncodeRecord(t)| == TriangleSize
    ensures EncodeRecord(t)[12 * j + 4 * i .. 12 * j + 4 * i + 4] == BytesOf(t.Field(j).At(i))
    ensures EncodeRecord(t)[48] == 0 && EncodeRecord(t)[49] == 0
  {
    var rec := EncodeRecord(t);
    EncodeVecAt(t.Field(j), i);
    assert rec[12 * j .. 12 * j + 12] == EncodeVec(t.Field(j));
    assert rec[12 * j + 4 * i .. 12 * j + 4 * i + 4] == rec[12 * j .. 12 * j + 12][4 * i .. 4 * i + 4];
  }

  /** Byte o of a record: byte o - 12*j of the encoding of vector j, or a
    * zero attribute byte. */
  lemma EncodeRecordIndex(t: Triangle<FloatBits>, o: nat)
    requires o < TriangleSize
    ensures |EncodeRecord(t)| == TriangleSize
    ensures EncodeRecord(t)[o] ==
      if o < 12 then EncodeVec(t.normal)[o]
      else if o < 24 then EncodeVec(t.p0)[o - 12]
      else if o < 36 then EncodeVec(t.p1)[o - 24]
      else if o < 48 then EncodeVec(t.p2)[o - 36]
      else 0
  {
  }

  /** Decoding a record gives back the triangle it was encoded from. */
  lemma DecodeEncodeRecord(t: Triangle<FloatBits>)
    ensures |EncodeRecord(t)| == TriangleSize
    ensures DecodeRecord(EncodeRecord(t)) == t
  {
    var rec := EncodeRecord(t);
    forall j, i | 0 <= j < 4 && 0 <= i < 3
      ensures FloatAt(rec, j, i) == t.Field(j).At(i)
    {
      EncodeRecordLayout(t, j, i);
      Uint32OfBytesOf(t.Field(j).At(i));
    }
    forall j | 0 <= j < 4
      ensures VecAt(rec, j) == t.Field(j)
    {
      Vec3Extensional(VecAt(rec, j), t.Field(j));
    }
  }

  lemma SliceOfConcat<T>(a: seq<T>, b: seq<T>, lo: nat, hi: nat)
    requires lo <= hi <= |a| + |b|
    ensures hi <= |a| ==> (a + b)[lo .. hi] == a[lo .. hi]
    ensures |a| <= lo ==> (a + b)[lo .. hi] == b[lo - |a| .. hi - |a|]
  {
  }

  lemma SliceOfSlice<T>(a: seq<T>, s: nat, n: nat, lo: nat, hi: nat)
    requires s + n <= |a| && lo <= hi <= n
    ensures a[s .. s + n][lo .. hi] == a[s + lo .. s + hi]
  {
    var outer := a[s .. s + n];
    var inner, direct := outer[lo .. hi], a[s + lo .. s + hi];
    forall o | 0 <= o < hi - lo
      ensures inner[o] == direct[o]
    {
      assert inner[o] == outer[lo + o] == a[s + lo + o];
    }
  }

  /** Block k of a sequence of 50-byte blocks followed by one more block. */
  lemma BlockSlice<T>(a: seq<T>, b: seq<T>, k: nat, last: nat)
    requires |a| == TriangleSize * last && |b| == TriangleSize && k <= last
    ensures k < last ==> (a + b)[TriangleSize * k .. TriangleSize * k + TriangleSize] == a[TriangleSize * k .. TriangleSize * k + TriangleSize]
    ensures k == last ==> (a + b)[TriangleSize * k .. TriangleSize * k + TriangleSize] == b
  {
    if k < last {
      SliceOfConcat(a, b, TriangleSize * k, TriangleSize * k + TriangleSize);
    } else {
      SliceOfConcat(a, b, TriangleSize * k, TriangleSize * k + TriangleSize);
      assert b[0 .. |b|] == b;
    }
  }

  /** Blocks of 50 bytes each take 50 bytes per element. */
  lemma {:induction false} BlocksLength<T>(ts: seq<T>, enc: T -> seq<uint8>)
    requires forall t :: |enc(t)| == TriangleSize
    ensures |Blocks(ts, enc)| == TriangleSize * |ts|
  {
    if ts != [] {
      BlocksLength(ts[..|ts| - 1], enc);
    }
  }

  /** Block k of 50-byte blocks is the block of ts[k]. */
  lemma {:induction false} BlocksLayout<T>(ts: seq<T>, enc: T -> seq<uint8>, k: nat)
    requires forall t :: |enc(t)| == TriangleSize
    requires k < |ts|
    ensures |Blocks(ts, enc)| == TriangleSize * |ts|
    ensures Blocks(ts, enc)[TriangleSize * k .. TriangleSize * k + TriangleSize] == enc(ts[k])
  {
    var last := |ts| - 1;
    var init := ts[..last];
    BlocksLength(ts, enc);
    BlocksLength(init, enc);
    BlockSlice(Blocks(init, enc), enc(ts[last]), k, last);
    if k < last {
      BlocksLayout(init, enc, k);
      assert ts[k] == init[k];
    }
  }

  lemma EncodeRecordLength()
    ensures forall t :: |EncodeRecord(t)| == TriangleSize
  {
    forall t {
      EncodeRecordLayout(t, 0, 0);
    }
  }

  lemma RecordsLength(ts: seq<Triangle<FloatBits>>)
    ensures |Records(ts)| == TriangleSize * |ts|
  {
    EncodeRecordLength();
    BlocksLength(ts, EncodeRecord);
  }

  lemma RecordsSnoc(ts: seq<Triangle<FloatBits>>, k: nat)
    requires k < |ts|
    ensures Records(ts[..k + 1]) == Records(ts[..k]) + EncodeRecord(ts[k])
  {
    assert ts[..k + 1][..k] == ts[..k];
  }

  /** Record k of the records of ts is the encoding of ts[k]. */
  lemma RecordsLayout(ts: seq<Triangle<FloatBits>>, k: nat)
    requires k < |ts|
    ensures |Records(ts)| == TriangleSize * |ts|
    ensures Records(ts)[TriangleSize * k .. TriangleSize * k + TriangleSize] == EncodeRecord(ts[k])
  {
    EncodeRecordLength();
    BlocksLayout(ts, EncodeRecord, k);
  }

  /** The encoding is 84 + 50*|ts| bytes: the header, the count and one
    * record per triangle. */
  lemma EncodeLength(ts: seq<Triangle<FloatBits>>)
    ensures |Encode(ts)| == RecordStart(|ts|)
  {
    RecordsLength(ts);
  }

  /** The header bytes are "STL" and zeros, and bytes 80..83 hold the
    * current number of triangles, modulo 2^32. */
  lemma EncodeHeaderAndCount(ts: seq<Triangle<FloatBits>>)
    ensures |Encode(ts)| >= HeaderSize + CountSize
    ensures Encode(ts)[..3] == Signature
    ensures forall o :: 3 <= o < HeaderSize ==> Encode(ts)[o] == 0
    ensures Encode(ts)[HeaderSize .. HeaderSize + CountSize] == BytesOf(CountOf(|ts|))
    ensures CountField(Encode(ts)) == |ts| % 0x1_0000_0000
  {
    var e := Encode(ts);
    HeaderLayout();
    assert e[..HeaderSize] == Header();
    assert e[HeaderSize .. HeaderSize + CountSize] == BytesOf(CountOf(|ts|));
    Uint32OfBytesOf(CountOf(|ts|));
  }

  /** Record k starts at byte 84 + 50*k: its float i of vector j (normal 0,
    * P0 1, P1 2, P2 3) at 12*j + 4*i, and its bytes 48 and 49 are zero. */
  lemma EncodeRecordSlice(ts: seq<Triangle<FloatBits>>, k: nat)
    requires k < |ts|
    ensures |Encode(ts)| >= RecordStart(k) + TriangleSize
    ensures Encode(ts)[RecordStart(k) .. RecordStart(k) + TriangleSize] == EncodeRecord(ts[k])
  {
    var prefix := Header() + BytesOf(CountOf(|ts|));
    var s := RecordStart(k);
    RecordsLayout(ts, k);
    HeaderLayout();
    assert |prefix| == RecordStart(0);
    SliceOfConcat(prefix, Records(ts), s, s + TriangleSize);
  }

  lemma EncodeRecordAt(ts: seq<Triangle<FloatBits>>, k: nat, j: nat, i: nat)
    requires k < |ts| && j < 4 && i < 3
    ensures |Encode(ts)| >= RecordStart(k) + TriangleSize
    ensures var o := RecordStart(k) + 12 * j + 4 * i;
            Encode(ts)[o .. o + 4] == BytesOf(ts[k].Field(j).At(i))
    ensures Encode(ts)[RecordStart(k) + 48] == 0 && Encode(ts)[RecordStart(k) + 49] == 0
  {
    var s := RecordStart(k);
    EncodeRecordSlice(ts, k);
    EncodeRecordLayout(ts[k], j, i);
    SliceOfSlice(Encode(ts), s, TriangleSize, 12 * j + 4 * i, 12 * j + 4 * i + 4);
  }

  /** Decoding what WriteToFile writes gives back the same triangles in the
    * same order, as long as their number fits the 32-bit count field. */
  lemma DecodeEncode(ts: seq<Triangle<FloatBits>>)
    requires |ts| < 0x1_0000_0000
    ensures Decode(Encode(ts)) == Success(ts)
  {
    var e := Encode(ts);
    EncodeLength(ts);
    EncodeHeaderAndCount(ts);
    assert CountField(e) == |ts|;
    forall k | 0 <= k < |ts|
      ensures RecordAt(e, k) == ts[k]
    {
      EncodeRecordSlice(ts, k);
      DecodeEncodeRecord(ts[k]);
    }
    assert Decode(e).value == ts;
  }

  // ------------------------------------------------- what decoding reads

  /** Decoding fails exactly when the file is shorter than the header and
    * count, or than the N records the count declares. */
  lemma DecodeFailsIffTruncated(file: seq<uint8>)
    ensures Decode(file).Failure? <==>
      |file| < HeaderSize + CountSize || |file| < RecordStart(CountField(file))
    ensures Decode(file).Success? ==> |Decode(file).value| == CountField(file)
  {
  }

  /** A file holding all N records it declares decodes to them. */
  lemma DecodeComplete(file: seq<uint8>, ts: seq<Triangle<FloatBits>>)
    requires |file| >= HeaderSize + CountSize && |ts| == CountField(file)
    requires RecordStart(|ts|) <= |file|
    requires forall k :: 0 <= k < |ts| ==> ts[k] == RecordAt(file, k)
    ensures Decode(file) == Success(ts)
  {
    assert Decode(file).value == ts;
  }

  /** A file of `len` bytes that ends inside record i has
    * (len - 84) % 50 bytes of it. */
  lemma ShortRecordRemainder(len: nat, i: nat)
    requires RecordStart(i) <= len < RecordStart(i) + TriangleSize
    ensures (len - RecordStart(0)) % TriangleSize == len - RecordStart(i)
  {
    assert len - RecordStart(0) == TriangleSize * i + (len - RecordStart(i));
  }

  /** Byte p lies in the float data (not the attribute bytes) of one of the
    * first n records. */
  predicate IsFloatByte(p: int, n: nat)
  {
    p >= RecordStart(0) && (p - RecordStart(0)) / TriangleSize < n && (p - RecordStart(0)) % TriangleSize < 48
  }

  /** A record's attribute bytes (48 and 49) do not affect its triangle. */
  lemma DecodeRecordIgnoresAttributes(r1: seq<uint8>, r2: seq<uint8>)
    requires |r1| == |r2| == TriangleSize
    requires r1[..48] == r2[..48]
    ensures DecodeRecord(r1) == DecodeRecord(r2)
  {
    forall j, i | 0 <= j < 4 && 0 <= i < 3
      ensures FloatAt(r1, j, i) == FloatAt(r2, j, i)
    {
      var o := 12 * j + 4 * i;
      SliceOfSlice(r1, 0, 48, o, o + 4);
      SliceOfSlice(r2, 0, 48, o, o + 4);
    }
    forall j | 0 <= j < 4
      ensures VecAt(r1, j) == VecAt(r2, j)
    {
    }
  }

  /** Two files of the same length that agree on the count field and on the
    * float bytes of every declared record decode alike: the header and the
    * attribute bytes are never looked at. */
  lemma DecodeReadsOnlyCountAndFloats(f: seq<uint8>, g: seq<uint8>)
    requires |f| == |g| >= HeaderSize + CountSize
    requires f[HeaderSize .. HeaderSize + CountSize] == g[HeaderSize .. HeaderSize + CountSize]
    requires forall p :: 0 <= p < |f| && IsFloatByte(p, CountField(f)) ==> f[p] == g[p]
    ensures Decode(f) == Decode(g)
  {
    assert CountField(f) == CountField(g);
    if |f| >= RecordStart(CountField(f)) {
      forall k | 0 <= k < CountField(f)
        ensures RecordAt(f, k) == RecordAt(g, k)
      {
        var s := RecordStart(k);
        var r1, r2 := f[s .. s + TriangleSize], g[s .. s + TriangleSize];
        assert r1[..48] == r2[..48] by {
          forall o | 0 <= o < 48 ensures r1[o] == r2[o] {
            assert IsFloatByte(s + o, CountField(f));
            assert r1[o] == f[s + o] && r2[o] == g[s + o];
          }
        }
        DecodeRecordIgnoresAttributes(r1, r2);
      }
      assert Decode(f).value == Decode(g).value;
    }
  }

  /** Bytes after the last declared record do not affect a successful decode. */
  lemma DecodeIgnoresTrailingBytes(file: seq<uint8>, extra: seq<uint8>)
    requires Decode(file).Success?
    ensures Decode(file + extra) == Decode(file)
  {
    var g := file + extra;
    assert g[HeaderSize .. HeaderSize + CountSize] == file[HeaderSize .. HeaderSize + CountSize];
    forall k | 0 <= k < CountField(file)
      ensures RecordAt(g, k) == RecordAt(file, k)
    {
      var s := RecordStart(k);
      assert g[s .. s + TriangleSize] == file[s .. s + TriangleSize];
    }
    assert Decode(g).value == Decode(file).value;
  }

  // ------------------------------------------------------------- methods

  /** triangleFrom: decodes a 50-byte record with two nested loops over the
    * vectors and their components; the source stops the process on any
    * other length. */
  method TriangleFrom(bytes: seq<uint8>) returns (t: Triangle<FloatBits>)
    requires |bytes| == TriangleSize
    ensures t == DecodeRecord(bytes)
  {
    var ps := new FloatBits[4, 3];
    for j := 0 to 4
      invariant forall j', i' :: 0 <= j' < j && 0 <= i' < 3 ==> ps[j', i'] == FloatAt(bytes, j', i')
    {
      for i := 0 to 3
        invariant forall j', i' :: 0 <= j' < j && 0 <= i' < 3 ==> ps[j', i'] == FloatAt(bytes, j', i')
        invariant forall i' :: 0 <= i' < i ==> ps[j, i'] == FloatAt(bytes, j, i')
      {
        var offset := i * FloatSize + j * 3 * FloatSize;
        var ui := Uint32From(bytes[offset .. offset + 4]);
        ps[j, i] := ui;
      }
    }
    t := Triangle(Vec3(ps[0, 0], ps[0, 1], ps[0, 2]), Vec3(ps[1, 0], ps[1, 1], ps[1, 2]),
                  Vec3(ps[2, 0], ps[2, 1], ps[2, 2]), Vec3(ps[3, 0], ps[3, 1], ps[3, 2]));
  }

  /** ParseStlFile: skips the header, reads the count and then that many
    * records, failing on the first read that comes up short. */
  method ParseStlFile(file: seq<uint8>) returns (r: Result<seq<Triangle<FloatBits>>>)
    ensures r == Decode(file)
  {
    if |file| < HeaderSize {
      return Failure(ReadError(|file|, ShortHeader));
    }
    var pos := HeaderSize;

    if |file| - pos < CountSize {
      return Failure(ReadError(|file| - pos, ShortCount));
    }
    var numTriangles := Uint32From(file[pos .. pos + CountSize]);

    r := ReadTriangles(file, numTriangles);
    if r.Success? {
      DecodeComplete(file, r.value);
    }
  }

  /** One pass of the record loop: the 50 bytes at pos, decoded by
    * triangleFrom, are record i. */
  method ReadTriangle(file: seq<uint8>, i: nat, pos: nat) returns (t: Triangle<FloatBits>)
    requires pos == RecordStart(i) && pos + TriangleSize <= |file|
    ensures t == RecordAt(file, i)
  {
    t := TriangleFrom(file[pos .. pos + TriangleSize]);
  }

  /** The record loop of ParseStlFile: reads n records from offset 84 into
    * a slice of length n, one 50-byte read each.  It succeeds with records
    * 0 .. n-1 when the file holds them all, and otherwise fails on the
    * record the file ends in, (|file| - 84) % 50 bytes of which are there. */
  method ReadTriangles(file: seq<uint8>, n: uint32) returns (r: Result<seq<Triangle<FloatBits>>>)
    requires |file| >= RecordStart(0)
    ensures r.Success? <==> RecordStart(n) <= |file|
    ensures r.Success? ==> |r.value| == n && forall k :: 0 <= k < n ==> r.value[k] == RecordAt(file, k)
    ensures r.Failure? ==> r.error == ReadError((|file| - RecordStart(0)) % TriangleSize, ShortTriangle)
  {
    var pos := RecordStart(0);
    var triangles := new Triangle<FloatBits>[n];
    var i := 0;
    while i < n
      invariant 0 <= i <= n
      invariant pos == RecordStart(i) <= |file|
      invariant forall k {:trigger triangles[k]} :: 0 <= k < i ==> triangles[k] == RecordAt(file, k)
    {
      if |file| - pos < TriangleSize {
        ShortRecordRemainder(|file|, i);
        return Failure(ReadError(|file| - pos, ShortTriangle));
      }
      var t := ReadTriangle(file, i, pos);
      triangles[i] := t;
      pos := pos + TriangleSize;
      i := i + 1;
    }
    return Success(triangles[..]);
  }

  /** Writes one vector as three little-endian floats at buffer[off ..], as
    * each of the four inner loops of WriteToFile does. */
  method PutVector(buffer: array<uint8>, off: nat, v: Vec3<FloatBits>)
    requires off + 3 * FloatSize <= buffer.Length
    modifies buffer
    ensures forall o :: 0 <= o < buffer.Length ==>
              buffer[o] == if off <= o < off + 3 * FloatSize then EncodeVec(v)[o - off] else old(buffer[o])
  {
    for i := 0 to 3
      invariant forall o :: 0 <= o < buffer.Length ==>
                  buffer[o] == if off <= o < off + 4 * i then EncodeVec(v)[o - off] else old(buffer[o])
    {
      var bs := BytesFrom(v.At(i));
      EncodeVecAt(v, i);
      for j := 0 to 4
        invariant forall o :: 0 <= o < buffer.Length ==>
                    buffer[o] == if off <= o < off + 4 * i + j then EncodeVec(v)[o - off] else old(buffer[o])
      {
        buffer[j + 4 * i + off] := bs[j];
      }
    }
  }

  /** Fills the record buffer with triangle t (main.go:78-105).  Bytes 48
    * and 49 are not written, so they keep the zero they were allocated with. */
  method PutTriangle(buffer: array<uint8>, t: Triangle<FloatBits>)
    requires buffer.Length == TriangleSize && buffer[48] == 0 && buffer[49] == 0
    modifies buffer
    ensures buffer[..] == EncodeRecord(t)
    ensures buffer[48] == 0 && buffer[49] == 0
  {
    PutVector(buffer, 0, t.normal);
    PutVector(buffer, 12, t.p0);
    PutVector(buffer, 24, t.p1);
    PutVector(buffer, 36, t.p2);
    forall o | 0 <= o < TriangleSize
      ensures buffer[o] == EncodeRecord(t)[o]
    {
      EncodeRecordIndex(t, o);
    }
  }

  /** The header part of WriteToFile: an 80-byte zeroed buffer with "STL"
    * copied into its start. */
  method WriteHeader() returns (out: seq<uint8>)
    ensures out == Header()
  {
    var buffer := new uint8[HeaderSize](_ => 0);
    var header := Signature;
    for i := 0 to |header|
      invariant forall o :: 0 <= o < HeaderSize ==> buffer[o] == if o < i then header[o] else 0
    {
      buffer[i] := header[i];
    }
    assert buffer[..] == Header();
    out := buffer[..];
  }

  /** The triangle part of WriteToFile: one record per triangle, in order,
    * each filled into one 50-byte buffer allocated once and zeroed, whose
    * last two bytes are never written. */
  method WriteRecords(ts: seq<Triangle<FloatBits>>) returns (out: seq<uint8>)
    ensures out == Records(ts)
  {
    out := [];
    assert ts[..0] == [];
    var buffer := new uint8[TriangleSize](_ => 0);
    for k := 0 to |ts|
      invariant buffer.Length == TriangleSize && buffer[48] == 0 && buffer[49] == 0
      invariant out == Records(ts[..k])
    {
      PutTriangle(buffer, ts[k]);
      RecordsSnoc(ts, k);
      out := out + buffer[..];
    }
    assert ts[..|ts|] == ts;
  }

  /** WriteToFile: the header, the current triangle count, then the records. */
  method WriteToFile(ts: seq<Triangle<FloatBits>>) returns (out: seq<uint8>)
    ensures out == Encode(ts)
  {
    out := WriteHeader();

    var count := BytesFrom(CountOf(|ts|));
    out := out + count;

    var records := WriteRecords(ts);
    out := out + records;
  }
}
