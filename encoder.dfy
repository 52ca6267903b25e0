/**
 * The host-side parameter-buffer encoder (PluginModel.py `_get_cparameters`).
 *
 * Buffer layout, all words of the platform's size_t width W:
 *   word count = n + 1, word offsets[0..n]        (header, W * (n + 2) bytes)
 *   record i at header_end + offsets[i], i < n:
 *     Simple:       word tag, double value
 *     Polydisperse: word tag, word npoints, double values[npoints], double weights[npoints]
 *   word End at header_end + offsets[n]
 */
module Encoder {
  import opened Results
  import opened Wire
  import opened Protocol
  import opened Metadata
  import opened Store

  /** Every way `_get_cparameters` can raise; the source raises KeyError or struct.error. */
  datatype EncodeError =
    | MissingParameter(name: string)     // the collection has no such key
    | WordOverflow                       // a header word does not fit the word format
    | NotAScalar(name: string)           // a non-polydisperse parameter holds a distribution
    | WeightCountMismatch(name: string)  // weights and values differ in number

  /** npoints of a value in a polydisperse slot. */
  function NPoints(v: Value): nat
  {
    if v.Scalar? then 1 else |v.values|
  }

  /** The points of a value in a polydisperse slot: a scalar is one point of weight 1.0. */
  function PointValues(v: Value): seq<Double>
  {
    if v.Scalar? then [v.x] else v.values
  }

  function PointWeights(v: Value): seq<Double>
  {
    if v.Scalar? then [ONE] else v.weights
  }

  /** Size pass, one parameter: a Simple record is W+8 bytes, a Polydisperse one 2W+16*npoints. */
  function RecordSize(p: Platform, q: ParameterInfo, store: map<string, Value>): Result<nat, EncodeError>
  {
    var w := WordSize(p.width);
    if !IsPolydisperse(q.flags) then Ok(w + DOUBLE_SIZE)
    else if q.name !in store then Err(MissingParameter(q.name))
    else Ok(w + w + 8 * NPoints(store[q.name]) + 8 * NPoints(store[q.name]))
  }

  /** Size pass over the parameters, stopping at the first failure. */
  function Sizes(p: Platform, ps: seq<ParameterInfo>, store: map<string, Value>): (r: Result<seq<nat>, EncodeError>)
    ensures r.Ok? ==> |r.value| == |ps|
  {
    if ps == [] then Ok([])
    else
      match Sizes(p, ps[..|ps| - 1], store)
      case Err(e) => Err(e)
      case Ok(front) =>
        match RecordSize(p, ps[|ps| - 1], store)
        case Err(e) => Err(e)
        case Ok(s) => Ok(front + [s])
  }

  /** Running offsets: one per record plus the End marker's. */
  function Offsets(sizes: seq<nat>): (offs: seq<nat>)
    ensures |offs| == |sizes| + 1 && offs[0] == 0
  {
    if sizes == [] then [0]
    else
      var front := Offsets(sizes[..|sizes| - 1]);
      front + [front[|front| - 1] + sizes[|sizes| - 1]]
  }

  /** Each record starts where the previous one ends: offsets[i+1] = offsets[i] + size(record i). */
  lemma {:induction false} OffsetsStep(sizes: seq<nat>, i: nat)
    requires i < |sizes|
    ensures Offsets(sizes)[i + 1] == Offsets(sizes)[i] + sizes[i]
  {
    var front := sizes[..|sizes| - 1];
    if i < |front| {
      OffsetsStep(front, i);
      assert front[i] == sizes[i];
    }
  }

  /** Offsets never decrease, so the End marker's offset bounds every other. */
  lemma {:induction false} OffsetsMonotone(sizes: seq<nat>, i: nat, j: nat)
    requires i <= j <= |sizes|
    ensures Offsets(sizes)[i] <= Offsets(sizes)[j]
  {
    if i < j {
      OffsetsMonotone(sizes, i, j - 1);
      OffsetsStep(sizes, j - 1);
    }
  }

  /** The header's words: the count, which is the number of offsets, then the offsets. */
  function HeaderWords(offs: seq<nat>): seq<nat>
  {
    [|offs|] + offs
  }

  /** struct.pack_into accepts every header word: each fits the word format. */
  predicate HeaderFits(p: Platform, header: seq<nat>)
  {
    forall k :: 0 <= k < |header| ==> Fits(p, header[k])
  }

  /** A Simple record: tag, then the value. */
  function SimpleRecord(p: Platform, x: Double): seq<byte>
  {
    Word(p, PT_SIMPLE) + Dbl(p, x)
  }

  /** A Polydisperse record: tag, npoints, every value in order, then every weight in order. */
  function PolydisperseRecord(p: Platform, v: Value): seq<byte>
  {
    Word(p, PT_POLYDISPERSE) + Word(p, NPoints(v)) + Doubles(p, PointValues(v)) + Doubles(p, PointWeights(v))
  }

  /** Why the write pass refuses one parameter; None when its value packs. */
  function WriteError(q: ParameterInfo, store: map<string, Value>): Option<EncodeError>
  {
    if q.name !in store then Some(MissingParameter(q.name))
    else
      var v := store[q.name];
      if !IsPolydisperse(q.flags) then
        if v.Scalar? then None else Some(NotAScalar(q.name))
      else if v.Distribution? && |v.weights| != |v.values| then Some(WeightCountMismatch(q.name))
      else None
  }

  /** The write pass's first refusal, in parameter order. */
  function FirstWriteError(ps: seq<ParameterInfo>, store: map<string, Value>): Option<EncodeError>
  {
    if ps == [] then None
    else
      var e := FirstWriteError(ps[..|ps| - 1], store);
      if e.Some? then e else WriteError(ps[|ps| - 1], store)
  }

  /** Write pass, one parameter whose value packs. */
  function RecordBytes(p: Platform, q: ParameterInfo, store: map<string, Value>): seq<byte>
    requires WriteError(q, store).None?
  {
    var v := store[q.name];
    if IsPolydisperse(q.flags) then PolydisperseRecord(p, v) else SimpleRecord(p, v.x)
  }

  /** Write pass over parameters whose values all pack: their records one after the other. */
  function Body(p: Platform, ps: seq<ParameterInfo>, store: map<string, Value>): seq<byte>
    requires FirstWriteError(ps, store).None?
  {
    if ps == [] then []
    else Body(p, ps[..|ps| - 1], store) + RecordBytes(p, ps[|ps| - 1], store)
  }

  /** The buffer `_get_cparameters` returns, or the error it raises first. */
  function Encode(p: Platform, ps: seq<ParameterInfo>, store: map<string, Value>): Result<seq<byte>, EncodeError>
  {
    match Sizes(p, ps, store)
    case Err(e) => Err(e)
    case Ok(sizes) =>
      var header := HeaderWords(Offsets(sizes));
      if !HeaderFits(p, header) then Err(WordOverflow)
      else if FirstWriteError(ps, store).Some? then Err(FirstWriteError(ps, store).value)
      else Ok(Words(p, header) + Body(p, ps, store) + Word(p, PT_END))
  }

  // ---------------------------------------------------------------------
  // Facts about the passes used by the method and by the layout lemmas.

  lemma {:induction false} SizesAt(p: Platform, ps: seq<ParameterInfo>, store: map<string, Value>, i: nat)
    requires Sizes(p, ps, store).Ok? && i < |ps|
    ensures RecordSize(p, ps[i], store) == Ok(Sizes(p, ps, store).value[i])
  {
    var front := ps[..|ps| - 1];
    if i < |front| {
      SizesAt(p, front, store, i);
      assert front[i] == ps[i];
    }
  }

  lemma {:induction false} SizesPrefixErr(p: Platform, ps: seq<ParameterInfo>, store: map<string, Value>, j: nat)
    requires j <= |ps| && Sizes(p, ps[..j], store).Err?
    ensures Sizes(p, ps, store) == Sizes(p, ps[..j], store)
  {
    if j < |ps| {
      var front := ps[..|ps| - 1];
      assert front[..j] == ps[..j];
      SizesPrefixErr(p, front, store, j);
    } else {
      assert ps[..j] == ps;
    }
  }

  lemma {:induction false} FirstWriteErrorPrefix(ps: seq<ParameterInfo>, store: map<string, Value>, j: nat)
    requires j <= |ps| && FirstWriteError(ps[..j], store).Some?
    ensures FirstWriteError(ps, store) == FirstWriteError(ps[..j], store)
  {
    if j < |ps| {
      var front := ps[..|ps| - 1];
      assert front[..j] == ps[..j];
      FirstWriteErrorPrefix(front, store, j);
    } else {
      assert ps[..j] == ps;
    }
  }

  /** A record that packs is exactly as long as the size pass said. */
  lemma {:induction false} RecordLength(p: Platform, q: ParameterInfo, store: map<string, Value>)
    requires WriteError(q, store).None?
    ensures RecordSize(p, q, store).Ok?
    ensures |RecordBytes(p, q, store)| == RecordSize(p, q, store).value
  {
  }

  /** The body ends where the size pass put the End marker. */
  lemma {:induction false} BodyLength(p: Platform, ps: seq<ParameterInfo>, store: map<string, Value>)
    requires FirstWriteError(ps, store).None?
    ensures Sizes(p, ps, store).Ok?
    ensures |Body(p, ps, store)| == Offsets(Sizes(p, ps, store).value)[|ps|]
  {
    if ps != [] {
      var front := ps[..|ps| - 1];
      BodyLength(p, front, store);
      RecordLength(p, ps[|ps| - 1], store);
    }
  }

  /** One more parameter measured: the size pass grows by its record's size. */
  lemma {:induction false} SizesSnoc(p: Platform, ps: seq<ParameterInfo>, store: map<string, Value>, i: nat, sizes: seq<nat>, n: nat)
    requires i < |ps| && Sizes(p, ps[..i], store) == Ok(sizes) && RecordSize(p, ps[i], store) == Ok(n)
    ensures Sizes(p, ps[..i + 1], store) == Ok(sizes + [n])
  {
    assert ps[..i + 1][..i] == ps[..i];
  }

  /** The first parameter whose size cannot be taken decides the size pass's error. */
  lemma {:induction false} SizesFail(p: Platform, ps: seq<ParameterInfo>, store: map<string, Value>, i: nat)
    requires i < |ps| && Sizes(p, ps[..i], store).Ok? && RecordSize(p, ps[i], store).Err?
    ensures Sizes(p, ps, store) == Err(RecordSize(p, ps[i], store).error)
  {
    assert ps[..i + 1][..i] == ps[..i];
    SizesPrefixErr(p, ps, store, i + 1);
  }

  /** The first parameter that cannot be written decides the write pass's error. */
  lemma {:induction false} WriteFail(ps: seq<ParameterInfo>, store: map<string, Value>, i: nat)
    requires i < |ps| && FirstWriteError(ps[..i], store).None? && WriteError(ps[i], store).Some?
    ensures FirstWriteError(ps, store) == WriteError(ps[i], store)
  {
    assert ps[..i + 1][..i] == ps[..i];
    FirstWriteErrorPrefix(ps, store, i + 1);
  }

  lemma {:induction false} OffsetsSnoc(sizes: seq<nat>, n: nat)
    ensures Offsets(sizes + [n]) == Offsets(sizes) + [Offsets(sizes)[|sizes|] + n]
  {
    assert (sizes + [n])[..|sizes|] == sizes;
  }

  /** The size loop's step: appending the running total and adding the next size keeps the offsets. */
  lemma MeasureStep(offsets: seq<nat>, dataSize: nat, sizes: seq<nat>, n: nat)
    requires offsets + [dataSize] == Offsets(sizes)
    ensures offsets + [dataSize] + [dataSize + n] == Offsets(sizes + [n])
  {
    OffsetsSnoc(sizes, n);
  }

  // ---------------------------------------------------------------------
  // The imperative encoder.

  /** The size pass's step for one parameter: the bytes its record will take. */
  method MeasureRecord(p: Platform, q: ParameterInfo, store: map<string, Value>) returns (r: Result<nat, EncodeError>)
    ensures r == RecordSize(p, q, store)
  {
    var w := WordSize(p.width);
    var dataSize: nat := 0;
    if !IsPolydisperse(q.flags) {
      dataSize := dataSize + w;            // the tag word
      dataSize := dataSize + DOUBLE_SIZE;  // the scalar
    } else {
      if q.name !in store {
        return Err(MissingParameter(q.name));
      }
      var valuesWeights := store[q.name];
      var npoints := if valuesWeights.Scalar? then 1 else |valuesWeights.values|;
      dataSize := dataSize + w;                       // the tag word
      dataSize := dataSize + w;                       // the point count
      dataSize := dataSize + 8 * npoints;   // one double per point
      dataSize := dataSize + 8 * npoints;   // one weight per point
    }
    return Ok(dataSize);
  }

  /** The size pass of `_get_cparameters`: one offset per record, then the End marker's. */
  method MeasureRecords(p: Platform, ps: seq<ParameterInfo>, store: map<string, Value>) returns (r: Result<seq<nat>, EncodeError>)
    ensures Sizes(p, ps, store).Err? ==> r == Err(Sizes(p, ps, store).error)
    ensures Sizes(p, ps, store).Ok? ==> r == Ok(Offsets(Sizes(p, ps, store).value))
  {
    var dataSize: nat := 0;
    var offsets: seq<nat> := [];
    ghost var sizes: seq<nat> := [];
    var i := 0;
    while i < |ps|
      invariant 0 <= i <= |ps|
      invariant Sizes(p, ps[..i], store) == Ok(sizes)
      invariant offsets + [dataSize] == Offsets(sizes)
    {
      var size := MeasureRecord(p, ps[i], store);
      if size.Err? {
        SizesFail(p, ps, store, i);
        return Err(size.error);
      }
      SizesSnoc(p, ps, store, i, sizes, size.value);
      MeasureStep(offsets, dataSize, sizes, size.value);
      sizes := sizes + [size.value];
      offsets := offsets + [dataSize];
      dataSize := dataSize + size.value;
      i := i + 1;
    }
    assert ps[..i] == ps;
    return Ok(offsets + [dataSize]);
  }

  /** Packs the header words at the start of buf; false when one does not fit its word. */
  method PackHeader(p: Platform, buf: array<byte>, header: seq<nat>) returns (ok: bool)
    requires WordSize(p.width) * |header| <= buf.Length
    modifies buf
    ensures ok <==> HeaderFits(p, header)
    ensures ok ==> buf[..WordSize(p.width) * |header|] == Words(p, header)
    ensures forall i | WordSize(p.width) * |header| <= i < buf.Length :: buf[i] == old(buf[i])
  {
    var w := WordSize(p.width);
    var k := 0;
    while k < |header|
      invariant 0 <= k <= |header|
      invariant forall j :: 0 <= j < k ==> Fits(p, header[j])
      invariant w * k <= w * |header|
      invariant buf[..w * k] == Words(p, header[..k])
      invariant forall i | w * |header| <= i < buf.Length :: buf[i] == old(buf[i])
    {
      if !Fits(p, header[k]) {
        return false;
      }
      MulSucc(w, k);
      MulMono(w, k, |header|);
      Put(buf, w * k, Word(p, header[k]));
      assert header[..k + 1][..k] == header[..k];
      k := k + 1;
    }
    assert header[..k] == header;
    return true;
  }

  /** Packs a Simple record at `at`. */
  method PackSimple(p: Platform, buf: array<byte>, at: nat, x: Double) returns (next: nat)
    requires at + WordSize(p.width) + DOUBLE_SIZE <= buf.Length
    modifies buf
    ensures next == at + |SimpleRecord(p, x)|
    ensures buf[..next] == old(buf[..at]) + SimpleRecord(p, x)
    ensures forall k | next <= k < buf.Length :: buf[k] == old(buf[k])
  {
    ghost var start := buf[..at];
    Put(buf, at, Word(p, PT_SIMPLE));                   // the Simple tag
    next := at + WordSize(p.width);
    Put(buf, next, Dbl(p, x));                          // then the scalar
    next := next + DOUBLE_SIZE;
    Associate(start, Word(p, PT_SIMPLE), Dbl(p, x));
  }

  /** Packs the two words that open a Polydisperse record: its tag and npoints. */
  method PackPolydisperseHead(p: Platform, buf: array<byte>, at: nat, npoints: nat) returns (next: nat)
    requires at + WordSize(p.width) + WordSize(p.width) <= buf.Length
    modifies buf
    ensures next == at + WordSize(p.width) + WordSize(p.width)
    ensures buf[..next] == old(buf[..at]) + (Word(p, PT_POLYDISPERSE) + Word(p, npoints))
    ensures forall k | next <= k < buf.Length :: buf[k] == old(buf[k])
  {
    Put(buf, at, Word(p, PT_POLYDISPERSE) + Word(p, npoints));   // the Polydisperse tag, then the point count
    next := at + WordSize(p.width) + WordSize(p.width);
  }

  /** Packs a Polydisperse record that holds a scalar: one point of weight 1.0. */
  method PackScalarPoint(p: Platform, buf: array<byte>, at: nat, x: Double) returns (next: nat)
    requires at + WordSize(p.width) + WordSize(p.width) + 16 <= buf.Length
    modifies buf
    ensures next == at + |PolydisperseRecord(p, Scalar(x))|
    ensures buf[..next] == old(buf[..at]) + PolydisperseRecord(p, Scalar(x))
    ensures forall k | next <= k < buf.Length :: buf[k] == old(buf[k])
  {
    var cursor := PackPolydisperseHead(p, buf, at, 1);
    ghost var head := Word(p, PT_POLYDISPERSE) + Word(p, 1);
    next := PackDoubles(p, buf, cursor, [x, ONE]);                 // one point and its weight 1.0
    ScalarRecord(p, x);
    Associate(old(buf[..at]), head, Doubles(p, [x, ONE]));
  }

  /** A scalar's Polydisperse record: the head for one point, then the value and 1.0 packed together. */
  lemma ScalarRecord(p: Platform, x: Double)
    ensures PolydisperseRecord(p, Scalar(x)) == (Word(p, PT_POLYDISPERSE) + Word(p, 1)) + Doubles(p, [x, ONE])
  {
    var values, weights := [x], [ONE];
    assert [x, ONE] == values + weights;
    assert (values + weights)[..1] == values;
    assert values[..0] == [] && weights[..0] == [];
    assert Doubles(p, [x, ONE]) == Doubles(p, values) + Doubles(p, weights);
  }

  /**
   * Packs a Polydisperse record that holds a distribution; None when the
   * weights are not npoints in number, after the values have been written.
   */
  method PackDistribution(p: Platform, buf: array<byte>, at: nat, values: seq<Double>, weights: seq<Double>)
    returns (next: Option<nat>)
    requires at + WordSize(p.width) + WordSize(p.width) + 8 * |values| + 8 * |values| <= buf.Length
    modifies buf
    ensures next.None? <==> |weights| != |values|
    ensures next.Some? ==> next.value == at + |PolydisperseRecord(p, Distribution(values, weights))|
    ensures next.Some? ==> buf[..next.value] == old(buf[..at]) + PolydisperseRecord(p, Distribution(values, weights))
    ensures next.None? ==> buf[..at] == old(buf[..at])
    ensures forall k | at + WordSize(p.width) + WordSize(p.width) + 8 * |values| + 8 * |values| <= k < buf.Length ::
      buf[k] == old(buf[k])
  {
    ghost var start := buf[..at];
    var npoints := |values|;
    var cursor := PackPolydisperseHead(p, buf, at, npoints);
    cursor := PackDoubles(p, buf, cursor, values);                 // the points
    if |weights| != npoints {
      assert buf[..at] == buf[..cursor][..at];
      return None;
    }
    cursor := PackDoubles(p, buf, cursor, weights);                // their weights
    Regroup(start, Word(p, PT_POLYDISPERSE) + Word(p, npoints), Doubles(p, values), Doubles(p, weights));
    return Some(cursor);
  }

  /** Packs doubles one after the other at `at`, as one pack_into call with format `<n>d` does. */
  method PackDoubles(p: Platform, buf: array<byte>, at: nat, xs: seq<Double>) returns (next: nat)
    requires at + 8 * |xs| <= buf.Length
    modifies buf
    ensures next == at + 8 * |xs|
    ensures buf[..next] == old(buf[..at]) + Doubles(p, xs)
    ensures forall k | next <= k < buf.Length :: buf[k] == old(buf[k])
  {
    Put(buf, at, Doubles(p, xs));
    next := at + 8 * |xs|;
  }

  /** Two byte strings that agree at every index from `end` on have the same suffix from `end`. */
  lemma SameFrom(a: seq<byte>, b: seq<byte>, end: nat)
    requires |a| == |b| && end <= |a|
    requires forall k | end <= k < |a| :: a[k] == b[k]
    ensures a[end..] == b[end..]
  {
  }

  /** Bytes written in two runs after a prefix are the prefix followed by both runs. */
  lemma Associate(start: seq<byte>, a: seq<byte>, b: seq<byte>)
    ensures start + a + b == start + (a + b)
  {
  }

  /** Bytes written in three runs after a prefix are the prefix followed by the three runs. */
  lemma Regroup(start: seq<byte>, a: seq<byte>, b: seq<byte>, c: seq<byte>)
    ensures start + a + b + c == start + (a + b + c)
  {
  }

  /** The write pass for one parameter: packs its record at `offset` and returns the advanced cursor. */
  method PackRecord(p: Platform, buf: array<byte>, offset: nat, q: ParameterInfo, store: map<string, Value>)
    returns (r: Result<nat, EncodeError>)
    requires RecordSize(p, q, store).Ok?
    requires offset + RecordSize(p, q, store).value <= buf.Length
    modifies buf
    ensures r.Err? <==> WriteError(q, store).Some?
    ensures r.Err? ==> r.error == WriteError(q, store).value
    ensures r.Ok? ==> r.value == offset + |RecordBytes(p, q, store)|
    ensures r.Ok? ==> buf[..r.value] == old(buf[..offset]) + RecordBytes(p, q, store)
    ensures r.Err? ==> buf[..offset] == old(buf[..offset])
    ensures forall k | offset + RecordSize(p, q, store).value <= k < buf.Length :: buf[k] == old(buf[k])
  {
    if q.name !in store {
      return Err(MissingParameter(q.name));
    }
    var v := store[q.name];
    if !IsPolydisperse(q.flags) {
      if !v.Scalar? {
        return Err(NotAScalar(q.name));
      }
      var next := PackSimple(p, buf, offset, v.x);
      return Ok(next);
    } else if v.Scalar? {
      var next := PackScalarPoint(p, buf, offset, v.x);
      return Ok(next);
    } else {
      var next := PackDistribution(p, buf, offset, v.values, v.weights);
      if next.None? {
        return Err(WeightCountMismatch(q.name));
      }
      return Ok(next.value);
    }
  }

  /** Record i fits between its own offset and the End marker's. */
  lemma {:induction false} RecordRoom(p: Platform, ps: seq<ParameterInfo>, store: map<string, Value>, i: nat)
    requires Sizes(p, ps, store).Ok? && i < |ps|
    ensures RecordSize(p, ps[i], store).Ok?
    ensures Offsets(Sizes(p, ps, store).value)[i] + RecordSize(p, ps[i], store).value
      <= Offsets(Sizes(p, ps, store).value)[|ps|]
  {
    var sizes := Sizes(p, ps, store).value;
    SizesAt(p, ps, store, i);
    OffsetsStep(sizes, i);
    OffsetsMonotone(sizes, i + 1, |ps|);
  }

  /** After record i is written the body ends where record i+1 starts. */
  lemma {:induction false} RecordWritten(p: Platform, ps: seq<ParameterInfo>, store: map<string, Value>, i: nat)
    requires Sizes(p, ps, store).Ok? && i < |ps|
    requires FirstWriteError(ps[..i], store).None? && WriteError(ps[i], store).None?
    requires |Body(p, ps[..i], store)| == Offsets(Sizes(p, ps, store).value)[i]
    ensures FirstWriteError(ps[..i + 1], store).None?
    ensures Body(p, ps[..i + 1], store) == Body(p, ps[..i], store) + RecordBytes(p, ps[i], store)
    ensures |Body(p, ps[..i + 1], store)| == Offsets(Sizes(p, ps, store).value)[i + 1]
  {
    var front, upto := ps[..i], ps[..i + 1];
    assert upto[..|upto| - 1] == front && upto[|upto| - 1] == ps[i];
    SizesAt(p, ps, store, i);
    OffsetsStep(Sizes(p, ps, store).value, i);
    RecordLength(p, ps[i], store);
  }

  /** With the sizes taken, the header packed and every record written, the buffer is complete. */
  lemma {:induction false} EncodeOk(p: Platform, ps: seq<ParameterInfo>, store: map<string, Value>)
    requires Sizes(p, ps, store).Ok?
    requires HeaderFits(p, HeaderWords(Offsets(Sizes(p, ps, store).value)))
    requires FirstWriteError(ps, store).None?
    ensures Encode(p, ps, store) == Ok(Words(p, HeaderWords(Offsets(Sizes(p, ps, store).value))) + Body(p, ps, store) + Word(p, PT_END))
  {
  }

  /** With the sizes taken, a header word that does not fit is the error. */
  lemma {:induction false} EncodeOverflow(p: Platform, ps: seq<ParameterInfo>, store: map<string, Value>)
    requires Sizes(p, ps, store).Ok?
    requires !HeaderFits(p, HeaderWords(Offsets(Sizes(p, ps, store).value)))
    ensures Encode(p, ps, store) == Err(WordOverflow)
  {
  }

  /** With the header packed, the write pass's first refusal is the error. */
  lemma {:induction false} EncodeWriteErr(p: Platform, ps: seq<ParameterInfo>, store: map<string, Value>)
    requires Sizes(p, ps, store).Ok?
    requires HeaderFits(p, HeaderWords(Offsets(Sizes(p, ps, store).value)))
    requires FirstWriteError(ps, store).Some?
    ensures Encode(p, ps, store) == Err(FirstWriteError(ps, store).value)
  {
  }

  /**
   * Values the write pass accepts also pass the size pass: every parameter
   * is present, which is all the size pass needs.
   */
  lemma {:induction false} WritableSizes(p: Platform, ps: seq<ParameterInfo>, store: map<string, Value>)
    requires FirstWriteError(ps, store).None?
    ensures Sizes(p, ps, store).Ok?
  {
    if ps != [] {
      var front := ps[..|ps| - 1];
      assert FirstWriteError(front, store).None?;
      WritableSizes(p, front, store);
    }
  }

  /** With values the write pass accepts, only a header word too wide for the word format stops the encoder. */
  lemma WritableEncodes(p: Platform, ps: seq<ParameterInfo>, store: map<string, Value>)
    requires FirstWriteError(ps, store).None?
    ensures Encode(p, ps, store).Err? ==> Encode(p, ps, store).error == WordOverflow
  {
    WritableSizes(p, ps, store);
  }

  /** The buffer of a model without parameters: the count word 1, the offset 0 and End. */
  lemma EmptyEncodes(p: Platform, store: map<string, Value>)
    ensures Encode(p, [], store).Ok?
  {
    var header := HeaderWords(Offsets([]));
    assert header == [1, 0];
    TagsFit(p);
  }

  /**
   * `_get_cparameters`: a size pass that accumulates the offsets, then a write
   * pass that packs the header, every record and the End tag into a zeroed
   * buffer of exactly header_size + data_size bytes at an advancing cursor.
   */
  method GetCParameters(p: Platform, info: ModelInfo, parameters: ParameterCollection) returns (r: Result<seq<byte>, EncodeError>)
    ensures r == Encode(p, info.parameters, parameters.entries)
  {
    var store := parameters.entries;
    var measured := MeasureRecords(p, info.parameters, store);
    if measured.Err? {
      return Err(measured.error);
    }
    r := WriteRecords(p, info.parameters, store, measured.value);
  }

  /** The write pass of `_get_cparameters`, given the offsets the size pass produced. */
  method WriteRecords(p: Platform, ps: seq<ParameterInfo>, store: map<string, Value>, offsets: seq<nat>)
    returns (r: Result<seq<byte>, EncodeError>)
    requires Sizes(p, ps, store).Ok? && offsets == Offsets(Sizes(p, ps, store).value)
    ensures r == Encode(p, ps, store)
  {
    var w := WordSize(p.width);
    var dataSize := offsets[|offsets| - 1] + w;  // the End tag follows the last record
    var headerSize := w + w * |offsets|;

    // a zeroed buffer of the measured size, opened by the count and the offsets
    var buf := new byte[headerSize + dataSize];
    var header := [|offsets|] + offsets;
    assert w * |header| == headerSize by { MulSucc(w, |offsets|); }
    var fits := PackHeader(p, buf, header);
    if !fits {
      EncodeOverflow(p, ps, store);
      return Err(WordOverflow);
    }

    // the records, each at its offset past the header
    var written := WriteBody(p, ps, store, offsets, buf, headerSize);
    if written.Err? {
      EncodeWriteErr(p, ps, store);
      return Err(written.error);
    }
    var offset := written.value;
    ghost var front := buf[..offset];
    assert front == Words(p, header) + Body(p, ps, store);

    // the End tag closes the buffer
    Put(buf, offset, Word(p, PT_END));
    assert buf[..] == buf[..offset + w];
    assert buf[..] == front + Word(p, PT_END);
    EncodeOk(p, ps, store);
    return Ok(buf[..]);
  }

  /** The loop of the write pass: every record, in order, from the end of the header on. */
  method WriteBody(p: Platform, ps: seq<ParameterInfo>, store: map<string, Value>, offsets: seq<nat>, buf: array<byte>, headerSize: nat)
    returns (r: Result<nat, EncodeError>)
    requires Sizes(p, ps, store).Ok? && offsets == Offsets(Sizes(p, ps, store).value)
    requires headerSize + offsets[|ps|] <= buf.Length
    modifies buf
    ensures r.Err? <==> FirstWriteError(ps, store).Some?
    ensures r.Err? ==> r.error == FirstWriteError(ps, store).value
    ensures r.Ok? ==> r.value == headerSize + offsets[|ps|] == headerSize + |Body(p, ps, store)|
    ensures r.Ok? ==> buf[..r.value] == old(buf[..headerSize]) + Body(p, ps, store)
    ensures buf[headerSize + offsets[|ps|]..] == old(buf[headerSize + offsets[|ps|]..])
  {
    ghost var header := buf[..headerSize];
    ghost var end := headerSize + offsets[|ps|];
    var offset := headerSize;
    var i := 0;
    while i < |ps|
      invariant 0 <= i <= |ps|
      invariant FirstWriteError(ps[..i], store).None?
      invariant |Body(p, ps[..i], store)| == offsets[i]
      invariant offset == headerSize + offsets[i] <= buf.Length
      invariant buf[..offset] == header + Body(p, ps[..i], store)
      invariant buf[end..] == old(buf[end..])
    {
      var next := WriteRecord(p, ps, store, buf, headerSize, i, offset);
      if next.Err? {
        return Err(next.error);
      }
      Associate(header, Body(p, ps[..i], store), RecordBytes(p, ps[i], store));
      offset := next.value;
      i := i + 1;
    }
    assert ps[..i] == ps;
    return Ok(offset);
  }

  /** One turn of the write pass's loop: record i packed where its offset says. */
  method WriteRecord(p: Platform, ps: seq<ParameterInfo>, store: map<string, Value>, buf: array<byte>,
                     headerSize: nat, i: nat, offset: nat)
    returns (r: Result<nat, EncodeError>)
    requires Sizes(p, ps, store).Ok? && i < |ps|
    requires FirstWriteError(ps[..i], store).None?
    requires |Body(p, ps[..i], store)| == Offsets(Sizes(p, ps, store).value)[i]
    requires offset == headerSize + Offsets(Sizes(p, ps, store).value)[i]
    requires headerSize + Offsets(Sizes(p, ps, store).value)[|ps|] <= buf.Length
    modifies buf
    ensures r.Err? ==> FirstWriteError(ps, store) == Some(r.error)
    ensures r.Ok? ==> WriteError(ps[i], store).None? && FirstWriteError(ps[..i + 1], store).None?
    ensures r.Ok? ==> Body(p, ps[..i + 1], store) == Body(p, ps[..i], store) + RecordBytes(p, ps[i], store)
    ensures r.Ok? ==> r.value == headerSize + Offsets(Sizes(p, ps, store).value)[i + 1] <= buf.Length
    ensures r.Ok? ==> |Body(p, ps[..i + 1], store)| == Offsets(Sizes(p, ps, store).value)[i + 1]
    ensures r.Ok? ==> buf[..r.value] == old(buf[..offset]) + RecordBytes(p, ps[i], store)
    ensures buf[headerSize + Offsets(Sizes(p, ps, store).value)[|ps|]..] == old(buf[headerSize + Offsets(Sizes(p, ps, store).value)[|ps|]..])
  {
    ghost var before := buf[..];
    RecordRoom(p, ps, store, i);
    r := PackRecord(p, buf, offset, ps[i], store);
    SameFrom(buf[..], before, headerSize + Offsets(Sizes(p, ps, store).value)[|ps|]);
    if r.Err? {
      WriteFail(ps, store, i);
      return;
    }
    RecordWritten(p, ps, store, i);
    OffsetsMonotone(Sizes(p, ps, store).value, i + 1, |ps|);
  }
}
