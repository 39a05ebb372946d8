/**
 * Known hardware errata (src/errata.rs): each bit of a 64-bit mask stands for
 * one bug the hypervisor must work around. The board is recognised from the
 * device tree's model string, which is an input here.
 */
module Errata {
  import opened Machine

  /** SiFive FU540-C000 (HiFive Unleashed A00) errata, by bit number. */
  const SIFIVE_FU540_C000_ROCK_3: BitIndex := 0
  const SIFIVE_FU540_C000_CCACHE_1: BitIndex := 1
  const SIFIVE_FU540_C000_I2C_1: BitIndex := 2

  const HIFIVE_UNLEASHED_A00: string := "hifive-unleashed-a00"

  /** `needle` occurs in `s` starting at index `i`. */
  predicate OccursAt(s: string, needle: string, i: nat)
  {
    i + |needle| <= |s| && s[i..i + |needle|] == needle
  }

  /** `str::contains`: search for `needle` at each position of `s` in turn. */
  function Contains(s: string, needle: string): bool
    decreases |s|
  {
    if |s| < |needle| then false
    else if s[..|needle|] == needle then true
    else |s| > 0 && Contains(s[1..], needle)
  }

  /** The search finds `needle` exactly when it occurs somewhere in `s`. */
  lemma {:induction false} ContainsIffOccurs(s: string, needle: string)
    ensures Contains(s, needle) <==> exists i: nat :: OccursAt(s, needle, i)
    decreases |s|
  {
    if |s| < |needle| {
      forall i: nat
        ensures !OccursAt(s, needle, i)
      {
      }
    } else if s[..|needle|] == needle {
      assert OccursAt(s, needle, 0);
    } else {
      ContainsIffOccurs(s[1..], needle);
      if exists i: nat :: OccursAt(s, needle, i) {
        var i: nat :| OccursAt(s, needle, i);
        assert i > 0;
        assert s[1..][i - 1..i - 1 + |needle|] == s[i..i + |needle|];
        assert OccursAt(s[1..], needle, i - 1);
      }
      if exists j: nat :: OccursAt(s[1..], needle, j) {
        var j: nat :| OccursAt(s[1..], needle, j);
        assert s[j + 1..j + 1 + |needle|] == s[1..][j..j + |needle|];
        assert OccursAt(s, needle, j + 1);
      }
    }
  }

  /** Every erratum this code knows of. */
  const KNOWN_ERRATA: Word :=
    (1 << SIFIVE_FU540_C000_ROCK_3) | (1 << SIFIVE_FU540_C000_CCACHE_1) | (1 << SIFIVE_FU540_C000_I2C_1)

  /**
   * `from_model`: the (known, fixed) errata masks for a board. Boards whose
   * model names the HiFive Unleashed A00 have all three FU540 errata; nothing
   * is fixed in the hypervisor yet.
   */
  function FromModel(model: string): (r: (Word, Word))
    ensures r.1 == 0
    ensures r.0 & !KNOWN_ERRATA == 0
    ensures BitSet(r.0, SIFIVE_FU540_C000_ROCK_3) <==> exists i: nat :: OccursAt(model, HIFIVE_UNLEASHED_A00, i)
    ensures r.0 == 0 || r.0 == KNOWN_ERRATA
  {
    ContainsIffOccurs(model, HIFIVE_UNLEASHED_A00);
    var known: Word :=
      if Contains(model, HIFIVE_UNLEASHED_A00) then
        (1 << SIFIVE_FU540_C000_ROCK_3) | (1 << SIFIVE_FU540_C000_CCACHE_1) | (1 << SIFIVE_FU540_C000_I2C_1)
      else 0;
    (known, 0)
  }

  /** The mask of the HiFive Unleashed is 7: bits 0, 1 and 2. */
  lemma KnownErrataBits()
    ensures KNOWN_ERRATA == 7
    ensures forall b: BitIndex :: BitSet(KNOWN_ERRATA, b) <==> b <= 2
  {
  }
}
