/**
 * The byte-level vocabulary shared by the host-side encoder (PluginModel.py)
 * and the native reader (SimpleModel/ModelInfo.h): machine words of the
 * platform's `size_t` width, 8-byte doubles, both in the platform's native
 * byte order.
 */
module Wire {
  import opened Results

  type byte = x: int | 0 <= x < 256

  /** A binary64 value kept as its 64-bit pattern: the protocol never does arithmetic on it. */
  type Double = x: nat | x < 0x1_0000_0000_0000_0000

  /** The bit pattern of 1.0, the weight of a scalar held in a polydisperse slot. */
  const ONE: Double := 0x3FF0_0000_0000_0000

  /** The bit pattern of Python's float('nan'), written by the fallback calculation. */
  const NAN: Double := 0x7FF8_0000_0000_0000

  /** Bytes in one double. */
  const DOUBLE_SIZE: nat := 8

  /** sizeof(size_t): 4 bytes on a 32-bit ABI, 8 bytes otherwise. */
  datatype Width = W4 | W8

  datatype ByteOrder = LittleEndian | BigEndian

  /** What the encoder and the reader must agree on: one machine's word width and byte order. */
  datatype Platform = Platform(width: Width, order: ByteOrder)

  /**
   * The host picks its pack format from sizeof(c_size_t): 'I' exactly when
   * that is 4, else 'Q'. On both ABIs the packed word is then as wide as the
   * size pass assumes.
   */
  function WidthOf(sizeofSizeT: nat): (w: Width)
    ensures (w == W4) == (sizeofSizeT == 4)
    ensures sizeofSizeT == 4 || sizeofSizeT == 8 ==> WordSize(w) == sizeofSizeT
    ensures sizeofSizeT != 4 ==> WordSize(w) == 8
  {
    if sizeofSizeT == 4 then W4 else W8
  }

  function WordSize(w: Width): (n: nat)
    ensures n == 4 || n == 8
  {
    if w == W4 then 4 else 8
  }

  /** Bytes taken by k words. */
  function WordsSize(p: Platform, k: nat): nat
  {
    WordSize(p.width) * k
  }

  lemma WordsSizeSucc(p: Platform, k: nat)
    ensures WordsSize(p, k + 1) == WordSize(p.width) + WordsSize(p, k)
  {
    MulSucc(WordSize(p.width), k);
  }

  function Pow256(k: nat): (r: nat)
    ensures r >= 1
  {
    if k == 0 then 1 else 256 * Pow256(k - 1)
  }

  function ToLE(v: nat, k: nat): (r: seq<byte>)
    ensures |r| == k
  {
    if k == 0 then [] else [v % 256] + ToLE(v / 256, k - 1)
  }

  function FromLE(bs: seq<byte>): nat
  {
    if bs == [] then 0 else bs[0] + 256 * FromLE(bs[1..])
  }

  function ToBE(v: nat, k: nat): (r: seq<byte>)
    ensures |r| == k
  {
    if k == 0 then [] else ToBE(v / 256, k - 1) + [v % 256]
  }

  function FromBE(bs: seq<byte>): nat
  {
    if bs == [] then 0 else 256 * FromBE(bs[..|bs| - 1]) + bs[|bs| - 1]
  }

  /** The k bytes that hold the unsigned integer v in the given byte order. */
  function ToBytes(order: ByteOrder, v: nat, k: nat): (r: seq<byte>)
    ensures |r| == k
  {
    if order == LittleEndian then ToLE(v, k) else ToBE(v, k)
  }

  /** The unsigned integer that the bytes hold in the given byte order. */
  function FromBytes(order: ByteOrder, bs: seq<byte>): nat
  {
    if order == LittleEndian then FromLE(bs) else FromBE(bs)
  }

  lemma {:induction false} DivBelow(v: nat, k: nat)
    requires k >= 1 && v < Pow256(k)
    ensures v / 256 < Pow256(k - 1)
  {
    assert Pow256(k) == 256 * Pow256(k - 1);
  }

  lemma {:induction false} LittleEndianRoundTrip(v: nat, k: nat)
    requires v < Pow256(k)
    ensures FromLE(ToLE(v, k)) == v
  {
    if k > 0 {
      DivBelow(v, k);
      LittleEndianRoundTrip(v / 256, k - 1);
      var r := ToLE(v, k);
      assert r[1..] == ToLE(v / 256, k - 1);
    }
  }

  lemma {:induction false} BigEndianRoundTrip(v: nat, k: nat)
    requires v < Pow256(k)
    ensures FromBE(ToBE(v, k)) == v
  {
    if k > 0 {
      DivBelow(v, k);
      BigEndianRoundTrip(v / 256, k - 1);
      var front, low := ToBE(v / 256, k - 1), v % 256;
      var r := ToBE(v, k);
      assert r == front + [low];
      assert r[..k - 1] == front;
      assert r[k - 1] == low;
      assert FromBE(r) == 256 * FromBE(front) + low;
    }
  }

  /** Reading back k bytes written for a value that fits in them yields that value, in either order. */
  lemma RoundTrip(order: ByteOrder, v: nat, k: nat)
    requires v < Pow256(k)
    ensures FromBytes(order, ToBytes(order, v, k)) == v
  {
    if order == LittleEndian {
      LittleEndianRoundTrip(v, k);
    } else {
      BigEndianRoundTrip(v, k);
    }
  }

  lemma {:induction false} LittleEndianBound(bs: seq<byte>)
    ensures FromLE(bs) < Pow256(|bs|)
  {
    if bs != [] {
      LittleEndianBound(bs[1..]);
    }
  }

  lemma {:induction false} BigEndianBound(bs: seq<byte>)
    ensures FromBE(bs) < Pow256(|bs|)
  {
    if bs != [] {
      BigEndianBound(bs[..|bs| - 1]);
    }
  }

  /** Whatever k bytes hold, the value read from them fits in k bytes. */
  lemma DecodeBound(order: ByteOrder, bs: seq<byte>)
    ensures FromBytes(order, bs) < Pow256(|bs|)
  {
    if order == LittleEndian {
      LittleEndianBound(bs);
    } else {
      BigEndianBound(bs);
    }
  }

  /** struct.pack_into refuses a value outside the word's range. */
  predicate Fits(p: Platform, v: nat)
  {
    v < Pow256(WordSize(p.width))
  }

  function Word(p: Platform, v: nat): (r: seq<byte>)
    ensures |r| == WordSize(p.width)
  {
    ToBytes(p.order, v, WordSize(p.width))
  }

  function Dbl(p: Platform, x: Double): (r: seq<byte>)
    ensures |r| == DOUBLE_SIZE
  {
    ToBytes(p.order, x, DOUBLE_SIZE)
  }

  /** Consecutive k-byte encodings of vs, as one struct.pack_into call with a repeated format writes them. */
  function Pack(order: ByteOrder, k: nat, vs: seq<nat>): (r: seq<byte>)
    ensures |r| == k * |vs|
  {
    if vs == [] then []
    else
      assert k * |vs| == k * (|vs| - 1) + k by { MulSucc(k, |vs| - 1); }
      Pack(order, k, vs[..|vs| - 1]) + ToBytes(order, vs[|vs| - 1], k)
  }

  lemma MulSucc(k: nat, n: nat)
    ensures k * (n + 1) == k * n + k
  {
  }

  lemma MulMono(k: nat, i: nat, n: nat)
    requires i < n
    ensures 0 <= k * i && k * i + k <= k * n
  {
    MulSucc(k, i);
    assert k * (i + 1) <= k * n by {
      var d := n - (i + 1);
      assert k * n == k * (i + 1) + k * d;
    }
  }

  function Words(p: Platform, vs: seq<nat>): (r: seq<byte>)
    ensures |r| == WordSize(p.width) * |vs|
  {
    Pack(p.order, WordSize(p.width), vs)
  }

  function Doubles(p: Platform, xs: seq<Double>): (r: seq<byte>)
    ensures |r| == 8 * |xs|
  {
    Pack(p.order, DOUBLE_SIZE, xs)
  }

  /** Element i of a packed sequence occupies bytes k*i to k*i+k. */
  lemma {:induction false} PackAt(order: ByteOrder, k: nat, vs: seq<nat>, i: nat)
    requires i < |vs|
    decreases |vs|, 1
    ensures 0 <= k * i && k * i + k <= |Pack(order, k, vs)|
    ensures Pack(order, k, vs)[k * i .. k * i + k] == ToBytes(order, vs[i], k)
  {
    if i == |vs| - 1 {
      PackAtLast(order, k, vs);
    } else {
      PackAtFront(order, k, vs, i);
    }
  }

  lemma PackAtLast(order: ByteOrder, k: nat, vs: seq<nat>)
    requires vs != []
    ensures 0 <= k * (|vs| - 1) && k * (|vs| - 1) + k <= |Pack(order, k, vs)|
    ensures Pack(order, k, vs)[k * (|vs| - 1) .. k * (|vs| - 1) + k] == ToBytes(order, vs[|vs| - 1], k)
  {
    PackSnoc(order, k, vs);
    SliceRight(Pack(order, k, vs[..|vs| - 1]), ToBytes(order, vs[|vs| - 1], k));
  }

  lemma {:induction false} PackAtFront(order: ByteOrder, k: nat, vs: seq<nat>, i: nat)
    requires i < |vs| - 1
    ensures 0 <= k * i && k * i + k <= |Pack(order, k, vs)|
    ensures Pack(order, k, vs)[k * i .. k * i + k] == ToBytes(order, vs[i], k)
    decreases |vs|, 0
  {
    var front := vs[..|vs| - 1];
    PackSnoc(order, k, vs);
    PackAt(order, k, front, i);
    assert front[i] == vs[i];
    MulMono(k, i, |vs| - 1);
    SliceLeft(Pack(order, k, front), ToBytes(order, vs[|vs| - 1], k), k * i, k * i + k);
  }

  /** A packed sequence is its front packed, then its last element. */
  lemma PackSnoc(order: ByteOrder, k: nat, vs: seq<nat>)
    requires vs != []
    ensures Pack(order, k, vs) == Pack(order, k, vs[..|vs| - 1]) + ToBytes(order, vs[|vs| - 1], k)
    ensures |Pack(order, k, vs[..|vs| - 1])| == k * (|vs| - 1)
  {
  }

  lemma SliceLeft(a: seq<byte>, b: seq<byte>, i: nat, j: nat)
    requires i <= j <= |a|
    ensures (a + b)[i .. j] == a[i .. j]
  {
  }

  lemma SliceRight(a: seq<byte>, b: seq<byte>)
    ensures (a + b)[|a| .. |a| + |b|] == b
  {
  }

  /** Reading k bytes at a position: NULL (None) when they are not inside the buffer. */
  function ReadAt(order: ByteOrder, mem: seq<byte>, at: nat, k: nat): (r: Option<nat>)
    ensures r.Some? <==> at + k <= |mem|
  {
    if at + k <= |mem| then Some(FromBytes(order, mem[at .. at + k])) else None
  }

  function ReadWord(p: Platform, mem: seq<byte>, at: nat): Option<nat>
  {
    ReadAt(p.order, mem, at, WordSize(p.width))
  }

  function ReadDouble(p: Platform, mem: seq<byte>, at: nat): (r: Option<Double>)
    ensures r.Some? <==> at + DOUBLE_SIZE <= |mem|
  {
    if at + DOUBLE_SIZE <= |mem| then
      var bs := mem[at .. at + DOUBLE_SIZE];
      DecodeBound(p.order, bs);
      Some(FromBytes(p.order, bs))
    else
      None
  }

  /** A word written into a buffer is read back unchanged. */
  lemma ReadWordAt(p: Platform, mem: seq<byte>, at: nat, v: nat)
    requires Fits(p, v)
    requires at + WordSize(p.width) <= |mem|
    requires mem[at .. at + WordSize(p.width)] == Word(p, v)
    ensures ReadWord(p, mem, at) == Some(v)
  {
    RoundTrip(p.order, v, WordSize(p.width));
  }

  /** A double written into a buffer is read back unchanged. */
  lemma ReadDoubleAt(p: Platform, mem: seq<byte>, at: nat, x: Double)
    requires at + DOUBLE_SIZE <= |mem|
    requires mem[at .. at + DOUBLE_SIZE] == Dbl(p, x)
    ensures ReadDouble(p, mem, at) == Some(x)
  {
    assert x < Pow256(8);
    RoundTrip(p.order, x, DOUBLE_SIZE);
  }

  /** Copies bytes into buf starting at `at`, as struct.pack_into does once the values are packed. */
  method Put(buf: array<byte>, at: nat, bytes: seq<byte>)
    requires at + |bytes| <= buf.Length
    modifies buf
    ensures buf[..at + |bytes|] == old(buf[..at]) + bytes
    ensures forall k | at + |bytes| <= k < buf.Length :: buf[k] == old(buf[k])
  {
    var j := 0;
    while j < |bytes|
      invariant 0 <= j <= |bytes|
      invariant buf[..at + j] == old(buf[..at]) + bytes[..j]
      invariant forall k | at + j <= k < buf.Length :: buf[k] == old(buf[k])
    {
      buf[at + j] := bytes[j];
      assert bytes[..j + 1] == bytes[..j] + [bytes[j]];
      j := j + 1;
    }
    assert bytes[..j] == bytes;
  }
}
