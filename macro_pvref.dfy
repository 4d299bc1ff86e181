/**
 * Pattern-variable references of the syntax-rules expander
 * (src/gauche/priv/macroP.h): an immediate word holding a nesting level in
 * bits 24..31, a variable index ("count") in bits 16..23 and the tag 0x13 in
 * the low byte; and the two macro flag bits.  Words are 64 bits wide.
 */
module MacroPvref {
  type Word = bv64

  const PVREF_TAG: Word := 0x13

  /** SCM_MACRO_IDENTIFIER and SCM_MACRO_PARAMETERIZABLE. */
  const MACRO_IDENTIFIER: Word := 1 << 0
  const MACRO_PARAMETERIZABLE: Word := 1 << 1

  /** SCM_MAKE_PVREF */
  function MakePvref(level: Word, count: Word): (w: Word)
    ensures IsPvref(w)
  {
    (level << 24) | (count << 16) | PVREF_TAG
  }

  /** SCM_PVREF_P: the low byte is the tag. */
  predicate IsPvref(w: Word) {
    w & 0xff == PVREF_TAG
  }

  /** SCM_PVREF_LEVEL */
  function PvrefLevel(w: Word): (level: Word)
    ensures level < 0x100
  {
    (w >> 24) & 0xff
  }

  /** SCM_PVREF_COUNT */
  function PvrefCount(w: Word): (count: Word)
    ensures count < 0x100
  {
    (w >> 16) & 0xff
  }

  /** Both fields come back out of a reference built from in-range values,
      and bits 8..15 stay clear. */
  lemma PvrefRoundTrip(level: Word, count: Word)
    requires level < 0x100 && count < 0x100
    ensures PvrefLevel(MakePvref(level, count)) == level
    ensures PvrefCount(MakePvref(level, count)) == count
    ensures MakePvref(level, count) & 0xff00 == 0
  {
  }

  /** Distinct in-range (level, count) pairs give distinct words. */
  lemma PvrefInjective(l1: Word, c1: Word, l2: Word, c2: Word)
    requires l1 < 0x100 && c1 < 0x100 && l2 < 0x100 && c2 < 0x100
    requires MakePvref(l1, c1) == MakePvref(l2, c2)
    ensures l1 == l2 && c1 == c2
  {
    PvrefRoundTrip(l1, c1);
    PvrefRoundTrip(l2, c2);
  }

  /** The flag bits are distinct single bits. */
  lemma MacroFlagsDistinctBits()
    ensures MACRO_IDENTIFIER & MACRO_PARAMETERIZABLE == 0
    ensures MACRO_IDENTIFIER != 0 && MACRO_IDENTIFIER & (MACRO_IDENTIFIER - 1) == 0
    ensures MACRO_PARAMETERIZABLE != 0 && MACRO_PARAMETERIZABLE & (MACRO_PARAMETERIZABLE - 1) == 0
  {
  }
}
