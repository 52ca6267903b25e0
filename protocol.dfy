/**
 * Constants both sides of the protocol declare: the parameter flag bits
 * (PluginModel.py `ParameterFlags`, ModelInfo.h `enum ParameterFlags`),
 * the record tags (`ParameterType`) and the descriptor version.
 */
module Protocol {
  import opened Wire

  const ORIENTATION: bv64 := 0x01
  const MAGNETIC: bv64 := 0x02
  const UNFITTABLE: bv64 := 0x04
  const INTEGER: bv64 := 0x08
  const POLYDISPERSE: bv64 := 0x10
  /** The multiplicity flag is a composite: it carries the Unfittable bit as well. */
  const REPEAT_COUNT: bv64 := 0x20 | UNFITTABLE
  const REPEATED: bv64 := 0x40

  /** Record tags: large reserved sentinels, not 0/1/2. */
  const PT_END: nat := 0xAAAA_AAA0
  const PT_SIMPLE: nat := 0xAAAA_AAA1
  const PT_POLYDISPERSE: nat := 0xAAAA_AAA2

  /** Bytes before the records of a buffer with n records: the count word and n + 1 offsets. */
  function HeaderSize(p: Platform, n: nat): nat
  {
    WordsSize(p, n + 2)
  }

  /** The only descriptor version the host accepts. */
  const API_VERSION: nat := 1

  /** The host's test `p.flags & F`, read as a truth value. */
  predicate HasFlag(flags: bv64, f: bv64)
  {
    flags & f != 0
  }

  /** The native reader's test `(Flags & F) == F`. */
  predicate HasAllBits(flags: bv64, f: bv64)
  {
    flags & f == f
  }

  /** Whether a parameter is encoded as a polydisperse record (host side). */
  predicate IsPolydisperse(flags: bv64)
  {
    HasFlag(flags, POLYDISPERSE)
  }

  /** For the single Polydisperse bit the host's and the native reader's tests agree. */
  lemma PolydisperseTestsAgree(flags: bv64)
    ensures IsPolydisperse(flags) == HasAllBits(flags, POLYDISPERSE)
  {
  }

  /** A parameter flagged RepeatCount always passes the Unfittable test. */
  lemma RepeatCountIsUnfittable(flags: bv64)
    requires HasAllBits(flags, REPEAT_COUNT)
    ensures HasFlag(flags, UNFITTABLE)
  {
  }

  /** Every tag fits in a word of either width, so packing a tag never overflows. */
  lemma TagsFit(p: Platform)
    ensures Fits(p, PT_END) && Fits(p, PT_SIMPLE) && Fits(p, PT_POLYDISPERSE)
    ensures PT_END != PT_SIMPLE && PT_END != PT_POLYDISPERSE && PT_SIMPLE != PT_POLYDISPERSE
  {
    assert Pow256(4) == 0x1_0000_0000;
    assert Pow256(8) == 0x1_0000_0000_0000_0000;
  }
}
