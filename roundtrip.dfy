/**
 * The two sides of the protocol agree: whatever buffer the host-side encoder
 * (PluginModel.py `_get_cparameters`) returns, the native reader
 * (SimpleModel/ModelInfo.h `Parameters`) accepts it, validates it against
 * the model's descriptor, and reads back every parameter as it was encoded.
 * The buffer is placed at address 0 of the reader's memory, on the same
 * platform (word width and byte order) as the encoder's.
 */
module RoundTrip {
  import opened Results
  import opened Wire
  import opened Protocol
  import opened Metadata
  import opened Store
  import opened Encoder
  import opened Layout
  import opened Decoder

  /** The tag the encoder writes for a parameter with these flags. */
  function TagFor(flags: bv64): nat
  {
    if IsPolydisperse(flags) then PT_POLYDISPERSE else PT_SIMPLE
  }

  /** The header of a buffer with n records: the count word n + 1, then offset k in word k + 1, each fitting its word. */
  predicate HeaderLaid(p: Platform, n: nat, buf: seq<byte>, offs: seq<nat>)
  {
    |offs| == n + 1 &&
    Holds(buf, 0, Word(p, n + 1)) && Fits(p, n + 1) &&
    forall k | 0 <= k < |offs| :: Holds(buf, WordsSize(p, k + 1), Word(p, offs[k])) && Fits(p, offs[k])
  }

  /** Parameter q's record sits at address at, and its npoints (if any) fits a word. */
  predicate RecordLaid(p: Platform, q: ParameterInfo, store: map<string, Value>, buf: seq<byte>, at: nat)
  {
    WriteError(q, store).None? &&
    Holds(buf, at, RecordBytes(p, q, store)) &&
    (IsPolydisperse(q.flags) ==> Fits(p, NPoints(store[q.name])))
  }

  /** Record i sits at the end of the header plus offsets[i]. */
  predicate RecordsLaid(p: Platform, ps: seq<ParameterInfo>, store: map<string, Value>, buf: seq<byte>, offs: seq<nat>)
    requires |offs| == |ps| + 1
  {
    forall i | 0 <= i < |ps| :: RecordLaid(p, ps[i], store, buf, HeaderSize(p, |ps|) + offs[i])
  }

  /**
   * What the reader relies on in an encoded buffer: the header, record i at
   * the end of the header plus offsets[i], and End at the end of the header
   * plus offsets[n].
   */
  predicate LaidOut(p: Platform, ps: seq<ParameterInfo>, store: map<string, Value>, buf: seq<byte>, offs: seq<nat>)
  {
    HeaderLaid(p, |ps|, buf, offs) && RecordsLaid(p, ps, store, buf, offs) &&
    Holds(buf, HeaderSize(p, |ps|) + offs[|ps|], Word(p, PT_END))
  }

  // ---------------------------------------------------------------------
  // The encoder's buffer is laid out as the reader expects.

  /** Offset k of an encoded buffer sits in header word k + 1 and fits it. */
  lemma OffsetLaidOut(p: Platform, ps: seq<ParameterInfo>, store: map<string, Value>, k: nat)
    requires Encodable(p, ps, store) && k <= |ps|
    ensures Holds(Image(p, ps, store), WordsSize(p, k + 1), Word(p, OffsetsOf(p, ps, store)[k]))
    ensures Fits(p, OffsetsOf(p, ps, store)[k])
  {
    var offs := OffsetsOf(p, ps, store);
    HeaderWordAt(p, ps, store, k + 1);
    assert HeaderWords(offs)[k + 1] == offs[k];
  }

  /** The count word of an encoded buffer sits in front and fits. */
  lemma CountLaidOut(p: Platform, ps: seq<ParameterInfo>, store: map<string, Value>)
    requires Encodable(p, ps, store)
    ensures Holds(Image(p, ps, store), 0, Word(p, |ps| + 1)) && Fits(p, |ps| + 1)
  {
    var offs := OffsetsOf(p, ps, store);
    HeaderWordAt(p, ps, store, 0);
    assert HeaderWords(offs)[0] == |ps| + 1;
  }

  /** The header words of an encoded buffer: the count, then every offset, each fitting its word. */
  lemma {:induction false} HeaderLaidOut(p: Platform, ps: seq<ParameterInfo>, store: map<string, Value>)
    requires Encodable(p, ps, store)
    ensures HeaderLaid(p, |ps|, Image(p, ps, store), OffsetsOf(p, ps, store))
  {
    var buf, offs := Image(p, ps, store), OffsetsOf(p, ps, store);
    CountLaidOut(p, ps, store);
    forall k | 0 <= k < |ps| + 1
      ensures Holds(buf, WordsSize(p, k + 1), Word(p, offs[k])) && Fits(p, offs[k])
    {
      OffsetLaidOut(p, ps, store, k);
    }
  }

  /** npoints of an encoded polydisperse record fits its word: it is bounded by the End offset. */
  lemma NPointsFits(p: Platform, ps: seq<ParameterInfo>, store: map<string, Value>, i: nat)
    requires Encodable(p, ps, store) && i < |ps| && IsPolydisperse(ps[i].flags)
    ensures ps[i].name in store && Fits(p, NPoints(store[ps[i].name]))
  {
    RecordAt(p, ps, store, i);
    HeaderWordAt(p, ps, store, |ps| + 1);
    OffsetsMonotone(Sizes(p, ps, store).value, i + 1, |ps|);
  }

  /** Record i of an encoded buffer sits where the header says, and its npoints fits. */
  lemma RecordLaidOut(p: Platform, ps: seq<ParameterInfo>, store: map<string, Value>, i: nat)
    requires Encodable(p, ps, store) && i < |ps|
    ensures RecordLaid(p, ps[i], store, Image(p, ps, store), HeaderSize(p, |ps|) + OffsetsOf(p, ps, store)[i])
  {
    RecordAt(p, ps, store, i);
    if IsPolydisperse(ps[i].flags) {
      NPointsFits(p, ps, store, i);
    }
  }

  /** Every record of an encoded buffer sits where the header says. */
  lemma {:induction false} RecordsLaidOut(p: Platform, ps: seq<ParameterInfo>, store: map<string, Value>)
    requires Encodable(p, ps, store)
    ensures RecordsLaid(p, ps, store, Image(p, ps, store), OffsetsOf(p, ps, store))
  {
    var buf, offs := Image(p, ps, store), OffsetsOf(p, ps, store);
    forall i | 0 <= i < |ps|
      ensures RecordLaid(p, ps[i], store, buf, HeaderSize(p, |ps|) + offs[i])
    {
      RecordLaidOut(p, ps, store, i);
    }
  }

  /** The encoder's buffer, whenever there is one, is laid out as the reader expects. */
  lemma {:induction false} EncodedLaidOut(p: Platform, ps: seq<ParameterInfo>, store: map<string, Value>)
    requires Encodable(p, ps, store)
    ensures LaidOut(p, ps, store, Image(p, ps, store), OffsetsOf(p, ps, store))
  {
    HeaderLaidOut(p, ps, store);
    RecordsLaidOut(p, ps, store);
    EndAt(p, ps, store);
  }

  // ---------------------------------------------------------------------
  // Reading words and records back, wherever their bytes sit.

  /** A word at the front of some bytes that sit in memory reads back, if it fits. */
  lemma LeadingWordReads(p: Platform, buf: seq<byte>, at: nat, v: nat, rest: seq<byte>)
    requires Holds(buf, at, Word(p, v) + rest) && Fits(p, v)
    ensures Memory(p, buf).Word(at) == Some(v)
  {
    HoldsSplit(buf, at, Word(p, v), rest);
    HoldsWord(p, buf, at, v);
  }

  /** A record in memory starts with the tag its parameter's flags call for. */
  lemma RecordTagWord(p: Platform, q: ParameterInfo, store: map<string, Value>, buf: seq<byte>, at: nat)
    requires RecordLaid(p, q, store, buf, at)
    ensures Memory(p, buf).Word(at) == Some(TagFor(q.flags))
  {
    TagsFit(p);
    var v := store[q.name];
    if IsPolydisperse(q.flags) {
      PolydisperseParts(p, buf, at, v);
      HoldsWord(p, buf, at, PT_POLYDISPERSE);
    } else {
      LeadingWordReads(p, buf, at, PT_SIMPLE, Dbl(p, v.x));
    }
  }

  /** A Simple record in memory reads back as its double. */
  lemma SimpleRecordReads(p: Platform, buf: seq<byte>, at: nat, x: Double)
    requires Holds(buf, at, SimpleRecord(p, x))
    ensures SimpleValue(Memory(p, buf), Some(at)) == Some(x)
  {
    TagsFit(p);
    HoldsSplit(buf, at, Word(p, PT_SIMPLE), Dbl(p, x));
    HoldsWord(p, buf, at, PT_SIMPLE);
    HoldsDouble(p, buf, at + WordSize(p.width), x);
  }

  /** The four parts of a Polydisperse record sit one after the other. */
  lemma PolydisperseParts(p: Platform, buf: seq<byte>, at: nat, v: Value)
    requires Holds(buf, at, PolydisperseRecord(p, v))
    ensures Holds(buf, at, Word(p, PT_POLYDISPERSE))
    ensures Holds(buf, at + WordSize(p.width), Word(p, NPoints(v)))
    ensures Holds(buf, at + 2 * WordSize(p.width), Doubles(p, PointValues(v)))
    ensures Holds(buf, at + 2 * WordSize(p.width) + 8 * NPoints(v), Doubles(p, PointWeights(v)))
  {
    HoldsParts(buf, at, WordSize(p.width), NPoints(v),
      Word(p, PT_POLYDISPERSE), Word(p, NPoints(v)), Doubles(p, PointValues(v)), Doubles(p, PointWeights(v)));
  }

  /** A Polydisperse record in memory is recognised, and its npoints reads back if it fits a word. */
  lemma PolydisperseRecordReads(p: Platform, buf: seq<byte>, at: nat, v: Value)
    requires Holds(buf, at, PolydisperseRecord(p, v)) && Fits(p, NPoints(v))
    ensures AsPolydisperse(Memory(p, buf), Some(at)) == Some(at)
    ensures NPointsAt(Memory(p, buf), at) == Some(NPoints(v))
  {
    TagsFit(p);
    PolydisperseParts(p, buf, at, v);
    HoldsWord(p, buf, at, PT_POLYDISPERSE);
    HoldsWord(p, buf, at + WordSize(p.width), NPoints(v));
  }

  /** `values[j]` of a record whose npoints reads n > j. */
  lemma ValueThrough(m: Memory, at: nat, j: nat, n: nat, x: Double)
    requires NPointsAt(m, at) == Some(n) && j < n && m.Double(at + 2 * m.W() + 8 * j) == Some(x)
    ensures ValueAt(m, at, j) == Some(x)
  {
  }

  /** `weights[j]` of a record whose npoints reads n > j. */
  lemma WeightThrough(m: Memory, at: nat, j: nat, n: nat, x: Double)
    requires NPointsAt(m, at) == Some(n) && j < n && m.Double(at + 2 * m.W() + 8 * (n + j)) == Some(x)
    ensures WeightAt(m, at, j) == Some(x)
  {
  }

  /** Element j of a run of doubles in memory reads back. */
  lemma NthDoubleReads(p: Platform, buf: seq<byte>, at: nat, xs: seq<Double>, j: nat)
    requires Holds(buf, at, Doubles(p, xs)) && j < |xs|
    ensures ReadDouble(p, buf, at + 8 * j) == Some(xs[j])
  {
    DoublesAt(p, xs, j);
    HoldsCompose(buf, at, Doubles(p, xs), 8 * j, Dbl(p, xs[j]));
    HoldsDouble(p, buf, at + 8 * j, xs[j]);
  }

  /** `values[j]`, for j below the npoints read at the record, is the j-th double of the values run. */
  lemma PointValueReads(p: Platform, buf: seq<byte>, at: nat, n: nat, xs: seq<Double>, j: nat)
    requires NPointsAt(Memory(p, buf), at) == Some(n) && j < n && j < |xs|
    requires Holds(buf, at + 2 * WordSize(p.width), Doubles(p, xs))
    ensures ValueAt(Memory(p, buf), at, j) == Some(xs[j])
  {
    NthDoubleReads(p, buf, at + 2 * WordSize(p.width), xs, j);
    ValueThrough(Memory(p, buf), at, j, n, xs[j]);
  }

  /** `weights[j]`, for j below the npoints read at the record, is the j-th double of the weights run. */
  lemma PointWeightReads(p: Platform, buf: seq<byte>, at: nat, n: nat, xs: seq<Double>, j: nat)
    requires NPointsAt(Memory(p, buf), at) == Some(n) && j < n && j < |xs|
    requires Holds(buf, at + 2 * WordSize(p.width) + 8 * n, Doubles(p, xs))
    ensures WeightAt(Memory(p, buf), at, j) == Some(xs[j])
  {
    var w := WordSize(p.width);
    NthDoubleReads(p, buf, at + 2 * w + 8 * n, xs, j);
    assert at + 2 * w + 8 * n + 8 * j == at + 2 * w + 8 * (n + j);
    WeightThrough(Memory(p, buf), at, j, n, xs[j]);
  }

  /**
   * What the native side reads at record address `at` is parameter q as
   * stored: a scalar for a non-polydisperse parameter; for a polydisperse one
   * a Polydisperse record with npoints, every value and every weight (a
   * scalar in a polydisperse slot as one point of weight 1.0).
   */
  predicate ReadsBack(m: Memory, q: ParameterInfo, store: map<string, Value>, at: Option<nat>)
  {
    q.name in store && at.Some? &&
    (!IsPolydisperse(q.flags) ==> store[q.name].Scalar? && SimpleValue(m, at) == Some(store[q.name].x)) &&
    (IsPolydisperse(q.flags) ==>
      AsPolydisperse(m, at) == at && NPointsAt(m, at.value) == Some(NPoints(store[q.name])) &&
      |PointValues(store[q.name])| == |PointWeights(store[q.name])| == NPoints(store[q.name]) &&
      forall j | 0 <= j < NPoints(store[q.name]) ::
        ValueAt(m, at.value, j) == Some(PointValues(store[q.name])[j]) &&
        WeightAt(m, at.value, j) == Some(PointWeights(store[q.name])[j]))
  }

  /** A polydisperse parameter's record in memory reads back with npoints, every value and every weight. */
  lemma {:induction false} PolydisperseReads(p: Platform, q: ParameterInfo, store: map<string, Value>, buf: seq<byte>, at: nat)
    requires RecordLaid(p, q, store, buf, at) && IsPolydisperse(q.flags)
    ensures ReadsBack(Memory(p, buf), q, store, Some(at))
  {
    var v := store[q.name];
    assert Holds(buf, at, PolydisperseRecord(p, v)) && Fits(p, NPoints(v));
    assert |PointValues(v)| == |PointWeights(v)| == NPoints(v);
    PolydisperseRecordReads(p, buf, at, v);
    PolydisperseParts(p, buf, at, v);
    PointsRead(p, buf, at, NPoints(v), PointValues(v), PointWeights(v));
  }

  /** Every value and every weight of a Polydisperse record in memory reads back. */
  lemma PointsRead(p: Platform, buf: seq<byte>, at: nat, n: nat, values: seq<Double>, weights: seq<Double>)
    requires NPointsAt(Memory(p, buf), at) == Some(n) && |values| == |weights| == n
    requires Holds(buf, at + 2 * WordSize(p.width), Doubles(p, values))
    requires Holds(buf, at + 2 * WordSize(p.width) + 8 * n, Doubles(p, weights))
    ensures forall j | 0 <= j < n ::
      ValueAt(Memory(p, buf), at, j) == Some(values[j]) && WeightAt(Memory(p, buf), at, j) == Some(weights[j])
  {
    forall j | 0 <= j < n
      ensures ValueAt(Memory(p, buf), at, j) == Some(values[j])
      ensures WeightAt(Memory(p, buf), at, j) == Some(weights[j])
    {
      PointValueReads(p, buf, at, n, values, j);
      PointWeightReads(p, buf, at, n, weights, j);
    }
  }

  /** A record in memory reads back as its parameter. */
  lemma RecordLaidReads(p: Platform, q: ParameterInfo, store: map<string, Value>, buf: seq<byte>, at: nat)
    requires RecordLaid(p, q, store, buf, at)
    ensures ReadsBack(Memory(p, buf), q, store, Some(at))
  {
    if IsPolydisperse(q.flags) {
      PolydisperseReads(p, q, store, buf, at);
    } else {
      SimpleRecordReads(p, buf, at, store[q.name].x);
    }
  }

  /** Past npoints there is no element: `values[j]` and `weights[j]` refuse j >= npoints. */
  lemma PastLastPoint(p: Platform, q: ParameterInfo, store: map<string, Value>, buf: seq<byte>, at: nat, j: nat)
    requires RecordLaid(p, q, store, buf, at) && IsPolydisperse(q.flags) && j >= NPoints(store[q.name])
    ensures ValueAt(Memory(p, buf), at, j).None? && WeightAt(Memory(p, buf), at, j).None?
  {
    PolydisperseRecordReads(p, buf, at, store[q.name]);
  }

  // ---------------------------------------------------------------------
  // The reader on a laid-out buffer.

  /** Offset word k reads back as offsets[k]. */
  lemma OffsetWordReads(p: Platform, n: nat, buf: seq<byte>, offs: seq<nat>, k: nat)
    requires HeaderLaid(p, n, buf, offs) && k <= n
    ensures Memory(p, buf).Word(WordSize(p.width) + WordsSize(p, k)) == Some(offs[k])
  {
    WordsSizeSucc(p, k);
    HoldsWord(p, buf, WordsSize(p, k + 1), offs[k]);
  }

  /** A record's tag, read through an offset word that holds o. */
  lemma TagThrough(m: Memory, offsets: nat, base: nat, k: nat, o: nat, t: nat)
    requires m.Word(offsets + WordsSize(m.p, k)) == Some(o) && m.Word(base + o) == Some(t)
    ensures RecordTag(m, offsets, base, k) == Some(t)
  {
  }

  /** Through the header, record k's tag is the one its parameter's flags call for. */
  lemma RecordTagReads(p: Platform, n: nat, q: ParameterInfo, store: map<string, Value>, buf: seq<byte>, o: nat, k: nat)
    requires Memory(p, buf).Word(WordSize(p.width) + WordsSize(p, k)) == Some(o)
    requires RecordLaid(p, q, store, buf, HeaderSize(p, n) + o)
    ensures RecordTag(Memory(p, buf), WordSize(p.width), HeaderSize(p, n), k) == Some(TagFor(q.flags))
  {
    RecordTagWord(p, q, store, buf, HeaderSize(p, n) + o);
    TagThrough(Memory(p, buf), WordSize(p.width), HeaderSize(p, n), k, o, TagFor(q.flags));
  }

  /** Through the header, the record after the last one is End. */
  lemma EndTagReads(p: Platform, n: nat, buf: seq<byte>, o: nat)
    requires Memory(p, buf).Word(WordSize(p.width) + WordsSize(p, n)) == Some(o)
    requires Holds(buf, HeaderSize(p, n) + o, Word(p, PT_END))
    ensures RecordTag(Memory(p, buf), WordSize(p.width), HeaderSize(p, n), n) == Some(PT_END)
  {
    var m, h := Memory(p, buf), HeaderSize(p, n);
    TagsFit(p);
    HoldsWord(p, buf, h + o, PT_END);
    assert m.Word(h + o) == Some(PT_END);
    TagThrough(m, WordSize(p.width), h, n, o, PT_END);
  }

  /** The constructor's result on a buffer whose header and tags it checks all pass. */
  lemma AcceptedThrough(m: Memory, n: nat)
    requires m.Word(0) == Some(n + 1)
    requires RecordsTagged(m, m.W(), HeaderSize(m.p, n), n)
    requires RecordTag(m, m.W(), HeaderSize(m.p, n), n) == Some(PT_END)
    ensures Parse(m, Some(0)) == Parameters(n, Some(m.W()), Some(HeaderSize(m.p, n)))
  {
  }

  /** `operator[](i)` of a reader with its fields set, through an offset word that holds o. */
  lemma AtThrough(m: Memory, r: Parameters, i: nat, o: nat)
    requires i < r.count && r.offsets.Some? && r.base.Some?
    requires m.Word(r.offsets.value + WordsSize(m.p, i)) == Some(o)
    ensures r.At(m, i) == Some(r.base.value + o)
  {
  }

  /** Record i of a laid-out buffer, found through `operator[]` of the accepted reader, reads back as parameter i. */
  lemma RecordReadsBack(p: Platform, n: nat, q: ParameterInfo, store: map<string, Value>, buf: seq<byte>, o: nat, r: Parameters, i: nat)
    requires i < n && Memory(p, buf).Word(WordSize(p.width) + WordsSize(p, i)) == Some(o)
    requires RecordLaid(p, q, store, buf, HeaderSize(p, n) + o)
    requires r == Parameters(n, Some(WordSize(p.width)), Some(HeaderSize(p, n)))
    ensures ReadsBack(Memory(p, buf), q, store, r.At(Memory(p, buf), i))
  {
    AtThrough(Memory(p, buf), r, i, o);
    RecordLaidReads(p, q, store, buf, HeaderSize(p, n) + o);
  }

  /**
   * What the reader finds in a buffer laid out for ps, stated on reads alone:
   * the count word, each record's tag, the End tag after them, and each
   * record read back through `operator[]` of a reader with its fields set.
   */
  predicate ReadsAsLaid(p: Platform, ps: seq<ParameterInfo>, store: map<string, Value>, buf: seq<byte>)
  {
    var m, w, h := Memory(p, buf), WordSize(p.width), HeaderSize(p, |ps|);
    m.Word(0) == Some(|ps| + 1) &&
    RecordTag(m, w, h, |ps|) == Some(PT_END) &&
    (forall k | 0 <= k < |ps| :: RecordTag(m, w, h, k) == Some(TagFor(ps[k].flags))) &&
    (forall i | 0 <= i < |ps| :: ReadsBack(m, ps[i], store, Parameters(|ps|, Some(w), Some(h)).At(m, i)))
  }

  /** Through the header, every record of a laid-out buffer has the tag its parameter calls for. */
  lemma {:induction false} LaidOutTags(p: Platform, ps: seq<ParameterInfo>, store: map<string, Value>, buf: seq<byte>, offs: seq<nat>)
    requires LaidOut(p, ps, store, buf, offs)
    ensures forall k | 0 <= k < |ps| ::
      RecordTag(Memory(p, buf), WordSize(p.width), HeaderSize(p, |ps|), k) == Some(TagFor(ps[k].flags))
  {
    forall k | 0 <= k < |ps|
      ensures RecordTag(Memory(p, buf), WordSize(p.width), HeaderSize(p, |ps|), k) == Some(TagFor(ps[k].flags))
    {
      LaidOutTag(p, ps, store, buf, offs, k);
    }
  }

  /** Through the header, record k of a laid-out buffer has the tag its parameter calls for. */
  lemma LaidOutTag(p: Platform, ps: seq<ParameterInfo>, store: map<string, Value>, buf: seq<byte>, offs: seq<nat>, k: nat)
    requires LaidOut(p, ps, store, buf, offs) && k < |ps|
    ensures RecordTag(Memory(p, buf), WordSize(p.width), HeaderSize(p, |ps|), k) == Some(TagFor(ps[k].flags))
  {
    var n := |ps|;
    assert RecordLaid(p, ps[k], store, buf, HeaderSize(p, n) + offs[k]);
    OffsetWordReads(p, n, buf, offs, k);
    RecordTagReads(p, n, ps[k], store, buf, offs[k], k);
  }

  /** Through the header, every record of a laid-out buffer reads back as its parameter. */
  lemma {:induction false} LaidOutRecords(p: Platform, ps: seq<ParameterInfo>, store: map<string, Value>, buf: seq<byte>, offs: seq<nat>)
    requires LaidOut(p, ps, store, buf, offs)
    ensures forall i | 0 <= i < |ps| :: ReadsBack(Memory(p, buf), ps[i], store,
      Parameters(|ps|, Some(WordSize(p.width)), Some(HeaderSize(p, |ps|))).At(Memory(p, buf), i))
  {
    forall i | 0 <= i < |ps|
      ensures ReadsBack(Memory(p, buf), ps[i], store,
        Parameters(|ps|, Some(WordSize(p.width)), Some(HeaderSize(p, |ps|))).At(Memory(p, buf), i))
    {
      LaidOutAt(p, ps, store, buf, offs, i);
      LaidOutRecord(p, |ps|, ps[i], store, buf, offs[i], i);
    }
  }

  /** What a laid-out buffer holds for record i: its offset word, and its record where that offset points. */
  lemma LaidOutAt(p: Platform, ps: seq<ParameterInfo>, store: map<string, Value>, buf: seq<byte>, offs: seq<nat>, i: nat)
    requires LaidOut(p, ps, store, buf, offs) && i < |ps|
    ensures Holds(buf, WordsSize(p, i + 1), Word(p, offs[i])) && Fits(p, offs[i])
    ensures RecordLaid(p, ps[i], store, buf, HeaderSize(p, |ps|) + offs[i])
  {
    assert HeaderLaid(p, |ps|, buf, offs) && RecordsLaid(p, ps, store, buf, offs);
  }

  /** Record i, whose offset word holds o, found through the header, reads back as its parameter. */
  lemma LaidOutRecord(p: Platform, n: nat, q: ParameterInfo, store: map<string, Value>, buf: seq<byte>, o: nat, i: nat)
    requires i < n && Holds(buf, WordsSize(p, i + 1), Word(p, o)) && Fits(p, o)
    requires RecordLaid(p, q, store, buf, HeaderSize(p, n) + o)
    ensures ReadsBack(Memory(p, buf), q, store,
      Parameters(n, Some(WordSize(p.width)), Some(HeaderSize(p, n))).At(Memory(p, buf), i))
  {
    WordsSizeSucc(p, i);
    HoldsWord(p, buf, WordsSize(p, i + 1), o);
    RecordReadsBack(p, n, q, store, buf, o, Parameters(n, Some(WordSize(p.width)), Some(HeaderSize(p, n))), i);
  }

  /** A laid-out buffer reads as laid out. */
  lemma LaidOutReads(p: Platform, ps: seq<ParameterInfo>, store: map<string, Value>, buf: seq<byte>, offs: seq<nat>)
    requires LaidOut(p, ps, store, buf, offs)
    ensures ReadsAsLaid(p, ps, store, buf)
  {
    HeaderReads(p, |ps|, buf, offs);
    LaidOutTags(p, ps, store, buf, offs);
    LaidOutRecords(p, ps, store, buf, offs);
  }

  /** A laid-out header reads back its count word, and the record after the last one is End. */
  lemma HeaderReads(p: Platform, n: nat, buf: seq<byte>, offs: seq<nat>)
    requires HeaderLaid(p, n, buf, offs) && Holds(buf, HeaderSize(p, n) + offs[n], Word(p, PT_END))
    ensures Memory(p, buf).Word(0) == Some(n + 1)
    ensures RecordTag(Memory(p, buf), WordSize(p.width), HeaderSize(p, n), n) == Some(PT_END)
  {
    HoldsWord(p, buf, 0, n + 1);
    OffsetWordReads(p, n, buf, offs, n);
    EndTagReads(p, n, buf, offs[n]);
  }

  /**
   * The reader's side of the round trip: on a buffer that reads as laid out
   * for the model's parameters, the constructor accepts, `valid(model_info)`
   * holds, and `operator[]` finds every record as it was stored.
   */
  lemma {:induction false} ReaderAccepts(p: Platform, d: Descriptor, store: map<string, Value>, buf: seq<byte>)
    requires |d.parameters| >= 1 && ReadsAsLaid(p, d.parameters, store, buf)
    ensures Parse(Memory(p, buf), Some(0)).ValidFor(Memory(p, buf), d)
    ensures Parse(Memory(p, buf), Some(0)).Count() == |d.parameters|
    ensures forall i | 0 <= i < |d.parameters| ::
      ReadsBack(Memory(p, buf), d.parameters[i], store, Parse(Memory(p, buf), Some(0)).At(Memory(p, buf), i))
  {
    var ps, m := d.parameters, Memory(p, buf);
    var w, h := WordSize(p.width), HeaderSize(p, |ps|);
    assert m.W() == w && m.p == p;
    forall k | 0 <= k < |ps|
      ensures IsRecordTag(RecordTag(m, w, h, k))
    {
      assert RecordTag(m, w, h, k) == Some(TagFor(ps[k].flags));
    }
    AcceptedThrough(m, |ps|);
    var r := Parse(m, Some(0));
    forall k | 0 <= k < |ps|
      ensures TagMatches(ps[k].flags, r.Tag(m, k))
    {
      assert r.Tag(m, k) == RecordTag(m, w, h, k) == Some(TagFor(ps[k].flags));
      PolydisperseTestsAgree(ps[k].flags);
    }
  }

  /**
   * The whole round trip, from the host's ModelInfo (copied from the
   * descriptor by `get_model_info`) and a value store to what the native
   * reader sees: whenever `_get_cparameters` returns a buffer, that buffer
   * is valid for the model, holds one record per parameter in order, and
   * every record reads back as the parameter was stored.
   */
  lemma {:induction false} CrossFileRoundTrip(p: Platform, d: Descriptor, info: ModelInfo, store: map<string, Value>, buf: seq<byte>)
    requires d.version == API_VERSION && info.parameters == d.parameters && |d.parameters| >= 1
    requires Encode(p, info.parameters, store) == Ok(buf)
    ensures Parse(Memory(p, buf), Some(0)).ValidFor(Memory(p, buf), d)
    ensures Parse(Memory(p, buf), Some(0)).Count() == |info.parameters|
    ensures forall i | 0 <= i < |info.parameters| ::
      ReadsBack(Memory(p, buf), info.parameters[i], store, Parse(Memory(p, buf), Some(0)).At(Memory(p, buf), i))
  {
    var ps := info.parameters;
    EncodeParts(p, ps, store);
    EncodedLaidOut(p, ps, store);
    LaidOutReads(p, ps, store, buf, OffsetsOf(p, ps, store));
    ReaderAccepts(p, d, store, buf);
  }

  /**
   * The other side of CrossFileRoundTrip's bound: a model with no parameters
   * encodes to the count, one offset and End, which the reader accepts with
   * count 0 but which `valid()` refuses.
   */
  lemma {:induction false} EmptyModelEndOnly(p: Platform, store: map<string, Value>, buf: seq<byte>)
    requires Encode(p, [], store) == Ok(buf)
    ensures Parse(Memory(p, buf), Some(0)) != Unset
    ensures Parse(Memory(p, buf), Some(0)).Count() == 0
    ensures !Parse(Memory(p, buf), Some(0)).Valid()
  {
    var ps: seq<ParameterInfo> := [];
    EncodeParts(p, ps, store);
    EncodedLaidOut(p, ps, store);
    EndOnlyReads(p, buf, OffsetsOf(p, ps, store));
  }

  /** A header for no records, followed by End, is accepted with count 0. */
  lemma EndOnlyReads(p: Platform, buf: seq<byte>, offs: seq<nat>)
    requires HeaderLaid(p, 0, buf, offs) && Holds(buf, HeaderSize(p, 0) + offs[0], Word(p, PT_END))
    ensures Parse(Memory(p, buf), Some(0)) == Parameters(0, Some(WordSize(p.width)), Some(HeaderSize(p, 0)))
  {
    var m := Memory(p, buf);
    HeaderReads(p, 0, buf, offs);
    assert RecordsTagged(m, m.W(), HeaderSize(p, 0), 0);
    AcceptedThrough(m, 0);
  }

  /**
   * The defaults a new session starts with always encode: every parameter
   * is present, non-polydisperse ones hold a scalar, polydisperse ones a
   * one-point distribution; so only a header word too wide for the platform
   * can stop them.
   */
  lemma {:induction false} DefaultsWritable(ps: seq<ParameterInfo>)
    requires forall i, j | 0 <= i < j < |ps| :: ps[i].name != ps[j].name
    ensures FirstWriteError(ps, DefaultParameters(ps)).None?
  {
    if ps != [] {
      var front := ps[..|ps| - 1];
      DefaultsWritable(front);
      FrontWritable(front, ps[|ps| - 1]);
      DefaultParametersValue(ps, |ps| - 1);
    }
  }

  /** A new session's defaults encode unless a header word is too wide for the word format. */
  lemma DefaultsEncode(p: Platform, ps: seq<ParameterInfo>)
    requires forall i, j | 0 <= i < j < |ps| :: ps[i].name != ps[j].name
    ensures Sizes(p, ps, DefaultParameters(ps)).Ok?
    ensures Encode(p, ps, DefaultParameters(ps)).Err? ==> Encode(p, ps, DefaultParameters(ps)).error == WordOverflow
  {
    DefaultsWritable(ps);
    WritableSizes(p, ps, DefaultParameters(ps));
    WritableEncodes(p, ps, DefaultParameters(ps));
  }

  /** Adding a parameter of a new name to the defaults leaves the earlier ones writable. */
  lemma {:induction false} FrontWritable(front: seq<ParameterInfo>, last: ParameterInfo)
    requires forall i | 0 <= i < |front| :: front[i].name != last.name
    requires FirstWriteError(front, DefaultParameters(front)).None?
    ensures FirstWriteError(front, DefaultParameters(front + [last])).None?
  {
    var ps := front + [last];
    assert ps[..|ps| - 1] == front;
    assert DefaultParameters(ps) == DefaultParameters(front)[last.name := DefaultValue(last)];
    WritableUnderOtherKey(front, DefaultParameters(front), last.name, DefaultValue(last));
  }

  /** Changing the value of a key no parameter uses does not change the write pass. */
  lemma {:induction false} WritableUnderOtherKey(ps: seq<ParameterInfo>, store: map<string, Value>, key: string, v: Value)
    requires forall i | 0 <= i < |ps| :: ps[i].name != key
    ensures FirstWriteError(ps, store[key := v]) == FirstWriteError(ps, store)
  {
    if ps != [] {
      var front := ps[..|ps| - 1];
      WritableUnderOtherKey(front, store, key, v);
    }
  }
}
