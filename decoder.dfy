/**
 * The native reader of the parameter buffer (SimpleModel/ModelInfo.h):
 * the `Parameters` view built over a raw pointer, its two validity checks,
 * record indexing, and the record views `SimpleParameter`,
 * `PolydisperseParameter` (with its `Values` and `Weights` arrays) and
 * `EndParameter`.
 *
 * The reader sees the caller's memory as bytes at addresses; a pointer is an
 * address, and NULL is None. A read that would leave the memory is undefined
 * behaviour in C; here it reads as None and the check that made it fails.
 */
module Decoder {
  import opened Results
  import opened Wire
  import opened Protocol
  import opened Metadata

  /** The address space the native side reads from, on one platform. */
  datatype Memory = Memory(p: Platform, bytes: seq<byte>)
  {
    /** `*(size_t*)at`. */
    function Word(at: nat): Option<nat>
    {
      ReadWord(p, bytes, at)
    }

    /** `*(double*)at`. */
    function Double(at: nat): Option<Double>
    {
      ReadDouble(p, bytes, at)
    }

    function W(): nat
    {
      WordSize(p.width)
    }
  }

  /**
   * The fields of a `Parameters` object: the number of records, and pointers
   * to the header's offset array and to the end of the header (None = NULL).
   */
  datatype Parameters = Parameters(count: nat, offsets: Option<nat>, base: Option<nat>)
  {
    /** `valid()`: the constructor accepted a buffer with at least one record. */
    function Valid(): (r: bool)
      ensures r ==> this != Unset && Count() >= 1
    {
      count != 0 && offsets.Some? && base.Some?
    }

    /** `count()`. */
    function Count(): nat
    {
      count
    }

    /** The tag word of record k, read through the header's offset k. */
    function Tag(m: Memory, k: nat): Option<nat>
    {
      if offsets.None? || base.None? then None
      else RecordTag(m, offsets.value, base.value, k)
    }

    /**
     * `valid(model_info)`: valid, one record per declared parameter, and each
     * record's tag the one its parameter's Polydisperse flag calls for.
     */
    function ValidFor(m: Memory, info: Descriptor): (r: bool)
      ensures r ==> Valid() && Count() == |info.parameters| >= 1
      ensures r ==> forall k | 0 <= k < Count() :: IsRecordTag(Tag(m, k))
    {
      Valid() && |info.parameters| == count &&
      forall k | 0 <= k < count :: TagMatches(info.parameters[k].flags, Tag(m, k))
    }

    /** `operator[]`: the address of record i when i < count, NULL otherwise. */
    function At(m: Memory, i: nat): (r: Option<nat>)
      ensures i >= count ==> r.None?
      ensures r.Some? ==> offsets.Some? && base.Some?
      ensures r.Some? ==> exists o :: m.Word(offsets.value + WordsSize(m.p, i)) == Some(o) && r.value == base.value + o
    {
      if i < count && offsets.Some? && base.Some? then
        match m.Word(offsets.value + WordsSize(m.p, i))
        case None => None
        case Some(o) => Some(base.value + o)
      else None
    }
  }

  /** What the constructor leaves when it refuses a buffer: zero and NULL. */
  const Unset := Parameters(0, None, None)

  /** The tag of record k of a buffer whose offset array and data start at the given addresses. */
  function RecordTag(m: Memory, offsets: nat, base: nat, k: nat): Option<nat>
  {
    match m.Word(offsets + WordsSize(m.p, k))
    case None => None
    case Some(o) => m.Word(base + o)
  }

  /** A tag the constructor accepts before the End record. */
  predicate IsRecordTag(t: Option<nat>)
  {
    t == Some(PT_SIMPLE) || t == Some(PT_POLYDISPERSE)
  }

  /** Records 0..n-1 all carry a Simple or Polydisperse tag. */
  predicate RecordsTagged(m: Memory, offsets: nat, base: nat, n: nat)
  {
    forall k | 0 <= k < n :: IsRecordTag(RecordTag(m, offsets, base, k))
  }

  /** The tag a parameter with these flags must have, tested as the reader does. */
  predicate TagMatches(flags: bv64, t: Option<nat>)
  {
    if HasAllBits(flags, POLYDISPERSE) then t == Some(PT_POLYDISPERSE) else t == Some(PT_SIMPLE)
  }

  /**
   * What the `Parameters(void* p)` constructor sets its fields to. The header
   * count includes the End record; the data starts just past the count word
   * and the `count` offsets.
   */
  function Parse(m: Memory, ptr: Option<nat>): (r: Parameters)
    ensures r == Unset || (r.offsets.Some? && r.base.Some?)
    ensures r != Unset ==> ptr.Some? && m.Word(ptr.value) == Some(r.count + 1)
    ensures r != Unset ==> r.offsets == Some(ptr.value + m.W()) && r.base == Some(ptr.value + HeaderSize(m.p, r.count))
    ensures r != Unset ==> forall k | 0 <= k < r.count :: IsRecordTag(r.Tag(m, k))
    ensures r != Unset ==> r.Tag(m, r.count) == Some(PT_END)
  {
    if ptr.None? then Unset
    else
      var w := m.W();
      match m.Word(ptr.value)
      case None => Unset
      case Some(count) =>
        if count == 0 then Unset
        else
          var offsets := ptr.value + w;
          var base := ptr.value + HeaderSize(m.p, count - 1);
          var n := count - 1;
          if RecordsTagged(m, offsets, base, n) && RecordTag(m, offsets, base, n) == Some(PT_END)
          then
            var r := Parameters(n, Some(offsets), Some(base));
            assert forall k | 0 <= k <= n :: r.Tag(m, k) == RecordTag(m, offsets, base, k);
            r
          else Unset
  }

  /**
   * The `Parameters(void* p)` constructor: NULL or a zero count leaves the
   * fields unset; otherwise every record before the last must be Simple or
   * Polydisperse and the last must be End, and the first failure returns
   * with the fields still unset.
   */
  method NewParameters(m: Memory, ptr: Option<nat>) returns (r: Parameters)
    ensures r == Parse(m, ptr)
  {
    r := Unset;
    if ptr.None? {
      return;
    }

    // reject an unreadable count word
    var w := m.W();
    var header := m.Word(ptr.value);
    if header.None? {
      return;
    }
    var count := header.value;
    var offsets := ptr.value + w;

    // reject a buffer without even the End record
    if count == 0 {
      return;
    }
    var base := ptr.value + HeaderSize(m.p, count - 1);

    count := count - 1;  // the End record is not a valid simple or polydisperse parameter
    ParseSteps(m, ptr.value, count);

    // every record before the last must carry a Simple or Polydisperse tag
    var tagged := CheckTags(m, offsets, base, count);
    if !tagged {
      return;
    }

    // the record after them must be End
    if RecordTag(m, offsets, base, count) != Some(PT_END) {
      return;
    }

    // accepted: remember where the offsets and the records start
    r := Parameters(count, Some(offsets), Some(base));
  }

  /** `Parse` once the count word n + 1 has been read: the two checks that remain. */
  lemma ParseSteps(m: Memory, at: nat, n: nat)
    requires m.Word(at) == Some(n + 1)
    ensures var offsets, base := at + m.W(), at + HeaderSize(m.p, n);
      Parse(m, Some(at)) ==
        if RecordsTagged(m, offsets, base, n) && RecordTag(m, offsets, base, n) == Some(PT_END)
        then Parameters(n, Some(offsets), Some(base))
        else Unset
  {
  }

  /**
   * The constructor's loop over records 0..n-1: it stops at the first tag
   * that is neither Simple nor Polydisperse.
   */
  method CheckTags(m: Memory, offsets: nat, base: nat, n: nat) returns (ok: bool)
    ensures ok <==> RecordsTagged(m, offsets, base, n)
  {
    var i := 0;
    while i != n
      invariant 0 <= i <= n
      invariant forall k | 0 <= k < i :: IsRecordTag(RecordTag(m, offsets, base, k))
    {
      var tag := RecordTag(m, offsets, base, i);
      if tag != Some(PT_SIMPLE) && tag != Some(PT_POLYDISPERSE) {
        assert !IsRecordTag(RecordTag(m, offsets, base, i));
        return false;
      }
      i := i + 1;
    }
    return true;
  }

  // ---------------------------------------------------------------------
  // Record views: a pointer to a record, read as one of the three layouts.

  /** `EndParameter::valid()`. */
  function EndValid(m: Memory, at: nat): (r: bool)
    ensures r ==> at + m.W() <= |m.bytes|
  {
    m.Word(at) == Some(PT_END)
  }

  /** `SimpleParameter::valid()`. */
  function SimpleValid(m: Memory, at: nat): (r: bool)
    ensures r ==> at + m.W() <= |m.bytes|
    ensures r ==> !EndValid(m, at) && !PolydisperseValid(m, at)
  {
    m.Word(at) == Some(PT_SIMPLE)
  }

  /** `PolydisperseParameter::valid()`. */
  function PolydisperseValid(m: Memory, at: nat): (r: bool)
    ensures r ==> at + m.W() <= |m.bytes|
    ensures r ==> !EndValid(m, at)
  {
    m.Word(at) == Some(PT_POLYDISPERSE)
  }

  /** At most one of the three record checks holds at any address. */
  lemma RecordKindsExclusive(m: Memory, at: nat)
    ensures !(EndValid(m, at) && SimpleValid(m, at))
    ensures !(EndValid(m, at) && PolydisperseValid(m, at))
    ensures !(SimpleValid(m, at) && PolydisperseValid(m, at))
  {
  }

  /**
   * `ParameterValue`'s `operator double&`: the value of a Simple record.
   * None where the source would dereference NULL (a NULL record pointer or a
   * record that is not Simple).
   */
  function SimpleValue(m: Memory, at: Option<nat>): (r: Option<Double>)
    ensures r.Some? ==> at.Some? && SimpleValid(m, at.value)
    ensures r.Some? ==> r == m.Double(at.value + m.W())
    ensures at.Some? && SimpleValid(m, at.value) ==> r == m.Double(at.value + m.W())
  {
    if at.Some? && SimpleValid(m, at.value) then m.Double(at.value + m.W()) else None
  }

  /** `ParameterValue`'s `operator PolydisperseParameter&`: the record, when it is Polydisperse. */
  function AsPolydisperse(m: Memory, at: Option<nat>): (r: Option<nat>)
    ensures r.Some? <==> at.Some? && PolydisperseValid(m, at.value)
    ensures r.Some? ==> r == at
  {
    if at.Some? && PolydisperseValid(m, at.value) then at else None
  }

  /** The `npoints` field of a Polydisperse record. */
  function NPointsAt(m: Memory, at: nat): Option<nat>
  {
    m.Word(at + m.W())
  }

  /** `values[i]`: the i-th double after `type` and `npoints`; nothing for i >= npoints. */
  function ValueAt(m: Memory, at: nat, i: nat): (r: Option<Double>)
    ensures r.Some? ==> exists n :: NPointsAt(m, at) == Some(n) && i < n
    ensures r.Some? ==> r == m.Double(at + 2 * m.W() + 8 * i)
    ensures NPointsAt(m, at).Some? && i < NPointsAt(m, at).value ==> r == m.Double(at + 2 * m.W() + 8 * i)
  {
    match NPointsAt(m, at)
    case None => None
    case Some(n) => if i < n then m.Double(at + 2 * m.W() + 8 * i) else None
  }

  /** `weights[i]`: the (npoints + i)-th double after `type` and `npoints`; nothing for i >= npoints. */
  function WeightAt(m: Memory, at: nat, i: nat): (r: Option<Double>)
    ensures r.Some? ==> exists n :: NPointsAt(m, at) == Some(n) && i < n
    ensures r.Some? ==> exists n :: NPointsAt(m, at) == Some(n) && r == m.Double(at + 2 * m.W() + 8 * (n + i))
    ensures NPointsAt(m, at).Some? && i < NPointsAt(m, at).value ==>
      r == m.Double(at + 2 * m.W() + 8 * (NPointsAt(m, at).value + i))
  {
    match NPointsAt(m, at)
    case None => None
    case Some(n) => if i < n then m.Double(at + 2 * m.W() + 8 * (n + i)) else None
  }

  // ---------------------------------------------------------------------
  // Facts about the reader on its own.

  /** A NULL pointer, a header count of 0, or a count word past the end is refused, and the result is not valid. */
  lemma NullOrEmptyRefused(m: Memory, ptr: Option<nat>)
    requires ptr.None? || m.Word(ptr.value) == Some(0) || m.Word(ptr.value).None?
    ensures Parse(m, ptr) == Unset && !Parse(m, ptr).Valid()
  {
  }

  /**
   * The acceptance rule: the fields are set exactly when every record before
   * the last has a Simple or Polydisperse tag and the last has the End tag.
   */
  lemma AcceptanceRule(m: Memory, at: nat, count: nat)
    requires m.Word(at) == Some(count) && count >= 1
    ensures Parse(m, Some(at)) != Unset <==>
      RecordsTagged(m, at + m.W(), at + HeaderSize(m.p, count - 1), count - 1)
      && RecordTag(m, at + m.W(), at + HeaderSize(m.p, count - 1), count - 1) == Some(PT_END)
  {
  }

  /** `count()` of an accepted buffer: the header count less the End record. */
  lemma AcceptedCount(m: Memory, at: nat, count: nat)
    requires m.Word(at) == Some(count) && count >= 1
    ensures Parse(m, Some(at)) != Unset ==> Parse(m, Some(at)).Count() == count - 1
  {
  }

  /** A buffer holding only the End record is accepted but has no records, so it is not valid. */
  lemma EndOnlyNotValid(m: Memory, ptr: Option<nat>)
    requires Parse(m, ptr) != Unset && Parse(m, ptr).Count() == 0
    ensures !Parse(m, ptr).Valid()
  {
  }

  /** Indexing a valid reader's records: inside the count every record has an address. */
  lemma {:induction false} AtInside(m: Memory, ptr: Option<nat>, i: nat)
    requires Parse(m, ptr).Valid() && i < Parse(m, ptr).Count()
    ensures Parse(m, ptr).At(m, i).Some?
    ensures IsRecordTag(m.Word(Parse(m, ptr).At(m, i).value))
  {
    var r := Parse(m, ptr);
    TaggedAt(m, r, i);
  }

  /** A record whose tag is read through the header is found by `operator[]` at that tag. */
  lemma TaggedAt(m: Memory, r: Parameters, i: nat)
    requires r.offsets.Some? && r.base.Some? && i < r.count && IsRecordTag(r.Tag(m, i))
    ensures r.At(m, i).Some? && IsRecordTag(m.Word(r.At(m, i).value))
  {
  }
}
