/**
 * Where things sit in the buffer the encoder returns: the header words, each
 * record at header_end + offsets[i], the End tag at header_end + offsets[n],
 * and nothing past it. These are the facts the native reader relies on.
 */
module Layout {
  import opened Results
  import opened Wire
  import opened Protocol
  import opened Metadata
  import opened Store
  import opened Encoder

  /** The bytes bs sit in mem starting at position at. */
  predicate Holds(mem: seq<byte>, at: nat, bs: seq<byte>)
  {
    at + |bs| <= |mem| && forall i | 0 <= i < |bs| :: mem[at + i] == bs[i]
  }

  /** Holding is slice equality. */
  lemma HoldsSlice(mem: seq<byte>, at: nat, bs: seq<byte>)
    ensures Holds(mem, at, bs) <==> at + |bs| <= |mem| && mem[at .. at + |bs|] == bs
  {
    if at + |bs| <= |mem| {
      if Holds(mem, at, bs) {
        assert mem[at .. at + |bs|] == bs;
      }
      if mem[at .. at + |bs|] == bs {
        forall i | 0 <= i < |bs|
          ensures mem[at + i] == bs[i]
        {
          assert mem[at .. at + |bs|][i] == bs[i];
        }
      }
    }
  }

  lemma HoldsSplit(mem: seq<byte>, at: nat, a: seq<byte>, b: seq<byte>)
    requires Holds(mem, at, a + b)
    ensures Holds(mem, at, a) && Holds(mem, at + |a|, b)
  {
    forall i | 0 <= i < |a|
      ensures mem[at + i] == a[i]
    {
      assert (a + b)[i] == a[i];
    }
    forall i | 0 <= i < |b|
      ensures mem[at + |a| + i] == b[i]
    {
      assert (a + b)[|a| + i] == b[i];
    }
  }

  /** The four parts of a + b + c + d, at the offsets o1, o2, o3 where b, c and d start. */
  lemma HoldsFour(mem: seq<byte>, at: nat, a: seq<byte>, b: seq<byte>, c: seq<byte>, d: seq<byte>, o1: nat, o2: nat, o3: nat)
    requires Holds(mem, at, a + b + c + d)
    requires o1 == at + |a| && o2 == o1 + |b| && o3 == o2 + |c|
    ensures Holds(mem, at, a) && Holds(mem, o1, b) && Holds(mem, o2, c) && Holds(mem, o3, d)
  {
    var all := a + b + c + d;
    forall i | 0 <= i < |a|
      ensures mem[at + i] == a[i]
    {
      assert all[i] == a[i];
    }
    forall i | 0 <= i < |b|
      ensures mem[o1 + i] == b[i]
    {
      assert all[|a| + i] == b[i];
    }
    forall i | 0 <= i < |c|
      ensures mem[o2 + i] == c[i]
    {
      assert all[|a| + |b| + i] == c[i];
    }
    forall i | 0 <= i < |d|
      ensures mem[o3 + i] == d[i]
    {
      assert all[|a| + |b| + |c| + i] == d[i];
    }
  }
  /** Two words, a run of n doubles and what follows, held one after the other. */
  lemma HoldsParts(mem: seq<byte>, at: nat, w: nat, n: nat, a: seq<byte>, b: seq<byte>, c: seq<byte>, d: seq<byte>)
    requires Holds(mem, at, a + b + c + d) && |a| == w && |b| == w && |c| == 8 * n
    ensures Holds(mem, at, a) && Holds(mem, at + w, b) && Holds(mem, at + 2 * w, c) && Holds(mem, at + 2 * w + 8 * n, d)
  {
    HoldsFour(mem, at, a, b, c, d, at + w, at + w + w, at + w + w + 8 * n);
  }


  lemma HoldsCompose(mem: seq<byte>, at: nat, bs: seq<byte>, o: nat, r: seq<byte>)
    requires Holds(mem, at, bs) && Holds(bs, o, r)
    ensures Holds(mem, at + o, r)
  {
    forall j | 0 <= j < |r|
      ensures mem[at + o + j] == r[j]
    {
      assert bs[o + j] == r[j];
    }
  }

  lemma HoldsExtend(mem: seq<byte>, extra: seq<byte>, at: nat, bs: seq<byte>)
    requires Holds(mem, at, bs)
    ensures Holds(mem + extra, at, bs)
  {
    forall i | 0 <= i < |bs|
      ensures (mem + extra)[at + i] == bs[i]
    {
      assert mem[at + i] == bs[i];
    }
  }

  lemma HoldsThree(a: seq<byte>, b: seq<byte>, c: seq<byte>)
    ensures Holds(a + b + c, 0, a) && Holds(a + b + c, |a|, b) && Holds(a + b + c, |a| + |b|, c)
  {
    forall i | 0 <= i < |a|
      ensures (a + b + c)[0 + i] == a[i]
    {
    }
    forall i | 0 <= i < |b|
      ensures (a + b + c)[|a| + i] == b[i]
    {
    }
    forall i | 0 <= i < |c|
      ensures (a + b + c)[|a| + |b| + i] == c[i]
    {
    }
  }

  /** A word that sits in memory is read back, provided it fits its width. */
  lemma HoldsWord(p: Platform, mem: seq<byte>, at: nat, v: nat)
    requires Holds(mem, at, Word(p, v)) && Fits(p, v)
    ensures ReadWord(p, mem, at) == Some(v)
  {
    HoldsSlice(mem, at, Word(p, v));
    ReadWordAt(p, mem, at, v);
  }

  lemma HoldsDouble(p: Platform, mem: seq<byte>, at: nat, x: Double)
    requires Holds(mem, at, Dbl(p, x))
    ensures ReadDouble(p, mem, at) == Some(x)
  {
    HoldsSlice(mem, at, Dbl(p, x));
    ReadDoubleAt(p, mem, at, x);
  }

  /** Element i of a packed run of doubles sits 8*i bytes into it. */
  lemma DoublesAt(p: Platform, xs: seq<Double>, i: nat)
    requires i < |xs|
    ensures Holds(Doubles(p, xs), 8 * i, Dbl(p, xs[i]))
  {
    PackAt(p.order, DOUBLE_SIZE, xs, i);
    HoldsSlice(Doubles(p, xs), 8 * i, Dbl(p, xs[i]));
  }

  /** Word k of a packed run of words sits W*k bytes into it. */
  lemma WordsAt(p: Platform, vs: seq<nat>, k: nat)
    requires k < |vs|
    ensures Holds(Words(p, vs), WordSize(p.width) * k, Word(p, vs[k]))
  {
    PackAt(p.order, WordSize(p.width), vs, k);
    HoldsSlice(Words(p, vs), WordSize(p.width) * k, Word(p, vs[k]));
  }

  // ---------------------------------------------------------------------
  // Sizes and offsets.

  /** A Simple record takes W+8 bytes, a Polydisperse one 2W+16*npoints. */
  lemma RecordSizes(p: Platform, q: ParameterInfo, store: map<string, Value>)
    ensures !IsPolydisperse(q.flags) ==> RecordSize(p, q, store) == Ok(WordSize(p.width) + 8)
    ensures IsPolydisperse(q.flags) && q.name in store ==>
      RecordSize(p, q, store) == Ok(2 * WordSize(p.width) + 16 * NPoints(store[q.name]))
    ensures IsPolydisperse(q.flags) && q.name !in store ==> RecordSize(p, q, store) == Err(MissingParameter(q.name))
  {
  }

  /** The three conditions under which the encoder returns a buffer. */
  predicate Encodable(p: Platform, ps: seq<ParameterInfo>, store: map<string, Value>)
  {
    Sizes(p, ps, store).Ok? && HeaderFits(p, HeaderWords(Offsets(Sizes(p, ps, store).value)))
    && FirstWriteError(ps, store).None?
  }

  /** The buffer of an encodable parameter list: header words, records, End tag. */
  function Image(p: Platform, ps: seq<ParameterInfo>, store: map<string, Value>): seq<byte>
    requires Encodable(p, ps, store)
  {
    Words(p, HeaderWords(Offsets(Sizes(p, ps, store).value))) + Body(p, ps, store) + Word(p, PT_END)
  }

  /** The encoder returns a buffer exactly when the size pass, the header and the write pass all succeed. */
  lemma EncodeParts(p: Platform, ps: seq<ParameterInfo>, store: map<string, Value>)
    ensures Encode(p, ps, store).Ok? <==> Encodable(p, ps, store)
    ensures Encodable(p, ps, store) ==> Encode(p, ps, store) == Ok(Image(p, ps, store))
  {
  }

  /** The offsets of a record list, once the size pass has succeeded. */
  function OffsetsOf(p: Platform, ps: seq<ParameterInfo>, store: map<string, Value>): (offs: seq<nat>)
    requires Sizes(p, ps, store).Ok?
    ensures |offs| == |ps| + 1
  {
    Offsets(Sizes(p, ps, store).value)
  }

  /** Header words: count first, and it is the number of offsets (records plus End), not of parameters. */
  lemma HeaderCount(offs: seq<nat>)
    ensures HeaderWords(offs)[0] == |offs| && |HeaderWords(offs)| == |offs| + 1
    ensures forall k | 0 <= k < |offs| :: HeaderWords(offs)[k + 1] == offs[k]
  {
  }

  /** A buffer's bytes: the header is W*(n+2), the data the End offset plus W, and nothing else. */
  lemma {:induction false} EncodedLength(p: Platform, ps: seq<ParameterInfo>, store: map<string, Value>)
    requires Encodable(p, ps, store)
    ensures |Image(p, ps, store)| == HeaderSize(p, |ps|) + OffsetsOf(p, ps, store)[|ps|] + WordSize(p.width)
  {
    BodyLength(p, ps, store);
    MulSucc(WordSize(p.width), |ps| + 1);
  }

  /** Record i of the body sits at offsets[i] and ends at offsets[i+1]. */
  lemma {:induction false} BodyAt(p: Platform, ps: seq<ParameterInfo>, store: map<string, Value>, i: nat)
    requires FirstWriteError(ps, store).None? && i < |ps|
    ensures Sizes(p, ps, store).Ok? && WriteError(ps[i], store).None?
    ensures Holds(Body(p, ps, store), OffsetsOf(p, ps, store)[i], RecordBytes(p, ps[i], store))
    ensures OffsetsOf(p, ps, store)[i] + |RecordBytes(p, ps[i], store)| == OffsetsOf(p, ps, store)[i + 1]
  {
    var front := ps[..|ps| - 1];
    var last := ps[|ps| - 1];
    BodyLength(p, ps, store);
    BodyLength(p, front, store);
    var sf := Sizes(p, front, store).value;
    var s := RecordSize(p, last, store).value;
    assert Sizes(p, ps, store).value == sf + [s];
    OffsetsSnoc(sf, s);
    var offs := OffsetsOf(p, ps, store);
    assert offs == Offsets(sf) + [Offsets(sf)[|sf|] + s];
    RecordLength(p, last, store);
    if i == |ps| - 1 {
      assert Holds(Body(p, front, store) + RecordBytes(p, last, store), |Body(p, front, store)|, RecordBytes(p, last, store));
    } else {
      BodyAt(p, front, store, i);
      assert front[i] == ps[i];
      HoldsExtend(Body(p, front, store), RecordBytes(p, last, store), Offsets(sf)[i], RecordBytes(p, ps[i], store));
    }
  }

  /** Header word k (k = 0 is the count, k >= 1 is offsets[k-1]) sits at W*k. */
  lemma {:induction false} HeaderWordAt(p: Platform, ps: seq<ParameterInfo>, store: map<string, Value>, k: nat)
    requires Encodable(p, ps, store) && k <= |ps| + 1
    ensures Holds(Image(p, ps, store), WordsSize(p, k), Word(p, HeaderWords(OffsetsOf(p, ps, store))[k]))
    ensures Fits(p, HeaderWords(OffsetsOf(p, ps, store))[k])
  {
    var header := HeaderWords(OffsetsOf(p, ps, store));
    WordInFront(p, header, Body(p, ps, store), Word(p, PT_END), k, Image(p, ps, store));
  }

  lemma WordInFront(p: Platform, header: seq<nat>, mid: seq<byte>, back: seq<byte>, k: nat, buf: seq<byte>)
    requires k < |header| && buf == Words(p, header) + mid + back
    ensures Holds(buf, WordsSize(p, k), Word(p, header[k]))
  {
    WordsAt(p, header, k);
    HoldsExtend(Words(p, header), mid, WordSize(p.width) * k, Word(p, header[k]));
    HoldsExtend(Words(p, header) + mid, back, WordSize(p.width) * k, Word(p, header[k]));
  }

  /** Record i of the buffer sits at header_size + offsets[i]. */
  lemma {:induction false} RecordAt(p: Platform, ps: seq<ParameterInfo>, store: map<string, Value>, i: nat)
    requires Encodable(p, ps, store) && i < |ps|
    ensures WriteError(ps[i], store).None?
    ensures Holds(Image(p, ps, store), HeaderSize(p, |ps|) + OffsetsOf(p, ps, store)[i], RecordBytes(p, ps[i], store))
    ensures OffsetsOf(p, ps, store)[i] + |RecordBytes(p, ps[i], store)| == OffsetsOf(p, ps, store)[i + 1]
  {
    var offs := OffsetsOf(p, ps, store);
    MulSucc(WordSize(p.width), |ps| + 1);
    BodyAt(p, ps, store, i);
    InMiddle(Words(p, HeaderWords(offs)), Body(p, ps, store), Word(p, PT_END), offs[i], RecordBytes(p, ps[i], store));
  }

  lemma InMiddle(front: seq<byte>, mid: seq<byte>, back: seq<byte>, o: nat, r: seq<byte>)
    requires Holds(mid, o, r)
    ensures Holds(front + mid + back, |front| + o, r)
  {
    HoldsThree(front, mid, back);
    HoldsCompose(front + mid + back, |front|, mid, o, r);
  }

  /** The End tag sits at header_size + offsets[n], and is the buffer's last word. */
  lemma {:induction false} EndAt(p: Platform, ps: seq<ParameterInfo>, store: map<string, Value>)
    requires Encodable(p, ps, store)
    ensures Holds(Image(p, ps, store), HeaderSize(p, |ps|) + OffsetsOf(p, ps, store)[|ps|], Word(p, PT_END))
    ensures HeaderSize(p, |ps|) + OffsetsOf(p, ps, store)[|ps|] + WordSize(p.width) == |Image(p, ps, store)|
  {
    EncodedLength(p, ps, store);
    BodyLength(p, ps, store);
    var hw := Words(p, HeaderWords(OffsetsOf(p, ps, store)));
    HoldsThree(hw, Body(p, ps, store), Word(p, PT_END));
    MulSucc(WordSize(p.width), |ps| + 1);
  }

  /** Every offset is at most the End offset, so every header word bounds every record's size. */
  lemma {:induction false} RecordBelowEnd(p: Platform, ps: seq<ParameterInfo>, store: map<string, Value>, i: nat)
    requires Sizes(p, ps, store).Ok? && i < |ps|
    ensures OffsetsOf(p, ps, store)[i] + Sizes(p, ps, store).value[i] <= OffsetsOf(p, ps, store)[|ps|]
  {
    OffsetsStep(Sizes(p, ps, store).value, i);
    OffsetsMonotone(Sizes(p, ps, store).value, i + 1, |ps|);
  }

  // ---------------------------------------------------------------------
  // Record contents.

  /** A non-polydisperse parameter is written as the Simple tag and its one double: W+8 bytes on either width. */
  lemma SimpleRecordShape(p: Platform, q: ParameterInfo, store: map<string, Value>)
    requires WriteError(q, store).None? && !IsPolydisperse(q.flags)
    ensures store[q.name].Scalar?
    ensures RecordBytes(p, q, store) == Word(p, PT_SIMPLE) + Dbl(p, store[q.name].x)
    ensures |RecordBytes(p, q, store)| == WordSize(p.width) + 8
  {
  }

  /** A scalar in a polydisperse slot is written exactly as the one-point distribution [v] with weight 1.0. */
  lemma ScalarIsOnePoint(p: Platform, x: Double)
    ensures PolydisperseRecord(p, Scalar(x)) == PolydisperseRecord(p, Distribution([x], [ONE]))
    ensures NPoints(Scalar(x)) == 1 && PointValues(Scalar(x)) == [x] && PointWeights(Scalar(x)) == [ONE]
  {
  }

  /** A distribution is written with npoints = len(values), then every value, then every weight, unnormalised. */
  lemma DistributionRecordShape(p: Platform, q: ParameterInfo, store: map<string, Value>)
    requires WriteError(q, store).None? && IsPolydisperse(q.flags) && store[q.name].Distribution?
    ensures |store[q.name].weights| == |store[q.name].values|
    ensures RecordBytes(p, q, store) ==
      Word(p, PT_POLYDISPERSE) + Word(p, |store[q.name].values|)
      + Doubles(p, store[q.name].values) + Doubles(p, store[q.name].weights)
  {
  }
}
