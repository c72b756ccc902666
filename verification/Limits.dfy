// How much a symbol holds: the largest version is the roomiest at every level, and the longest texts of
// each mode (deps/qrcodegen.hpp, lines 258-274; deps/qrcodegen.cpp, lines 264-281).
module Limits {
  import opened Bits
  import opened Versions
  import opened Segments
  import opened Encoder

  /** The most characters that one segment of the mode can have at the level. */
  function MaxChars(m: Mode, ecl: Ecc): nat
    requires TextualMode(m)
  {
    match m
    case Numeric => (match ecl case Low => 7089 case Medium => 5596 case Quartile => 3993 case High => 3057)
    case Alphanumeric => (match ecl case Low => 4296 case Medium => 3391 case Quartile => 2420 case High => 1852)
    case _ => (match ecl case Low => 2953 case Medium => 2331 case Quartile => 1663 case High => 1273)
  }

  lemma LimitsFitInt(m: Mode, ecl: Ecc)
    requires TextualMode(m)
    ensures MaxChars(m, ecl) <= INT_MAX
  {
  }

  // ---- capacities ----

  /** The number of codewords grows with the version. */
  lemma {:induction false} RawGrows(v: nat, u: nat)
    requires 1 <= v <= u <= 40
    ensures RawCodewords(v) <= RawCodewords(u)
    decreases u
  {
    hide RawDataModules;
    if v < u {
      RawGrows(v, u - 1);
      RawStep(u - 1);
    }
  }

  lemma RawStep(v: nat)
    requires 1 <= v < 40
    ensures RawDataModules(v) <= RawDataModules(v + 1)
  {
    var a, b := v / 7 + 2, (v + 1) / 7 + 2;
    assert (16 * (v + 1) + 128) * (v + 1) == (16 * v + 128) * v + 32 * v + 144;
    if b == a + 1 { assert (25 * b - 10) * b == (25 * a - 10) * a + 50 * a + 15; }
  }

  /** A bound on the codewords of a version below 40. */
  function RawCeiling(v: nat): nat {
    if v <= 22 then 1258 else if v <= 25 then 1588 else if v <= 27 then 1828 else if v <= 31 then 2323
    else if v <= 35 then 2876 else if v <= 37 then 3196 else if v <= 38 then 3362 else 3532
  }

  lemma RawBelow(v: nat)
    requires 1 <= v < 40
    ensures RawCodewords(v) <= RawCeiling(v)
  {
    RawAt();
    hide RawCodewords;
    RawGrows(v, if v <= 22 then 22 else if v <= 25 then 25 else if v <= 27 then 27 else if v <= 31 then 31
                else if v <= 35 then 35 else if v <= 37 then 37 else if v <= 38 then 38 else 39);
  }

  lemma RawAt()
    ensures RawCodewords(22) == 1258 && RawCodewords(25) == 1588 && RawCodewords(27) == 1828
    ensures RawCodewords(31) == 2323 && RawCodewords(35) == 2876 && RawCodewords(37) == 3196
    ensures RawCodewords(38) == 3362 && RawCodewords(39) == 3532 && RawCodewords(40) == 3706
  {
  }

  function Taken(s: BlockSpec): nat { s.numBlocks * s.eccLen }

  lemma LowTakes(v: nat)
    requires 1 <= v <= 40
    ensures if v < 40 then RawCeiling(v) - Taken(LowBlocks(v)) < 2956 else Taken(LowBlocks(v)) == 3706 - 2956
  {
  }

  lemma MediumTakes(v: nat)
    requires 1 <= v <= 40
    ensures if v < 40 then RawCeiling(v) - Taken(MediumBlocks(v)) < 2334 else Taken(MediumBlocks(v)) == 3706 - 2334
  {
  }

  lemma QuartileTakes(v: nat)
    requires 1 <= v <= 40
    ensures if v < 40 then RawCeiling(v) - Taken(QuartileBlocks(v)) < 1666
            else Taken(QuartileBlocks(v)) == 3706 - 1666
  {
  }

  lemma HighTakes(v: nat)
    requires 1 <= v <= 40
    ensures if v < 40 then RawCeiling(v) - Taken(HighBlocks(v)) < 1276 else Taken(HighBlocks(v)) == 3706 - 1276
  {
  }

  function Largest(ecl: Ecc): nat {
    match ecl case Low => 2956 case Medium => 2334 case Quartile => 1666 case High => 1276
  }

  /** Error correction takes enough of every version below 40. */
  lemma Takes(v: nat, ecl: Ecc)
    requires 1 <= v <= 40
    ensures var taken := Taken(BlockSpecOf(v, ecl));
            if v < 40 then RawCeiling(v) - taken < Largest(ecl) else taken == 3706 - Largest(ecl)
  {
    hide LowBlocks, MediumBlocks, QuartileBlocks, HighBlocks, RawCeiling;
    match ecl
    case Low => LowTakes(v);
    case Medium => MediumTakes(v);
    case Quartile => QuartileTakes(v);
    case High => HighTakes(v);
  }

  /** Version 40 holds more data codewords than any other. */
  lemma LargestVersion(v: nat, ecl: Ecc)
    requires ValidVersion(v)
    ensures CapacityBits(40, ecl) == 8 * Largest(ecl)
    ensures v < 40 ==> CapacityBits(v, ecl) + 8 <= CapacityBits(40, ecl)
  {
    hide CapacityBits, RawCodewords, BlockSpecOf, RawCeiling;
    CapacityIs(v, ecl);
    CapacityIs(40, ecl);
    Takes(v, ecl);
    Takes(40, ecl);
    RawAt();
    if v < 40 { RawBelow(v); }
  }

  // ---- one segment ----

  /** The bits of one segment: its header and its payload. */
  lemma BitsOfOne(s: Segment, v: nat)
    ensures |StreamOf([s], v)| == 4 + s.mode.CharCountBits(v) + |s.data|
  {
    assert [s][..0] == [];
    assert StreamOf([], v) == [];
  }

  lemma CountWidths(m: Mode, v: nat)
    requires ValidVersion(v) && TextualMode(m)
    ensures m.CharCountBits(v) <= m.CharCountBits(40) <= m.CharCountBits(v) + 8
    ensures m.CharCountBits(40) == if m.Numeric? then 14 else if m.Alphanumeric? then 13 else 16
  {
  }

  /** What fits anywhere fits version 40. */
  lemma FitsLargest(s: Segment, v: nat, ecl: Ecc)
    requires ValidVersion(v) && TextualMode(s.mode) && FitsIn([s], v, ecl)
    ensures FitsIn([s], 40, ecl)
  {
    hide CapacityBits, StreamOf, Pow2;
    var m := s.mode;
    LargestVersion(v, ecl);
    CountWidths(m, v);
    BitsOfOne(s, v);
    BitsOfOne(s, 40);
    assert s in [s];
    assert CountFits(s, v);
    PowGrows(m.CharCountBits(v), m.CharCountBits(40));
    assert 8 * Largest(ecl) <= INT_MAX;
  }

  lemma CountsFitLargest(m: Mode, n: nat)
    requires TextualMode(m) && n <= MaxChars(m, Low)
    ensures n < Pow2(m.CharCountBits(40))
  {
    CountWidths(m, 40);
    PowersOfTwo();
    assert Pow2(13) == 8192;
  }

  /** In version 40 exactly the payloads up to the limit fit. */
  lemma FitsLargestExactly(s: Segment, ecl: Ecc)
    requires TextualMode(s.mode) && WellFormed(s)
    ensures FitsIn([s], 40, ecl) <==> s.numChars <= MaxChars(s.mode, ecl)
  {
    hide CapacityBits, StreamOf, Pow2;
    LargestVersion(40, ecl);
    CountWidths(s.mode, 40);
    BitsOfOne(s, 40);
    if s.numChars <= MaxChars(s.mode, ecl) { CountsFitLargest(s.mode, s.numChars); }
  }

  /** A segment of digits, characters or bytes fits some version if and only if it has no more than so many of them. */
  lemma SegmentFitsExactly(s: Segment, ecl: Ecc)
    requires TextualMode(s.mode) && WellFormed(s)
    ensures (exists u :: 1 <= u <= 40 && FitsIn([s], u, ecl)) <==> s.numChars <= MaxChars(s.mode, ecl)
  {
    hide FitsIn, MaxChars, WellFormed;
    FitsLargestExactly(s, ecl);
    if u :| 1 <= u <= 40 && FitsIn([s], u, ecl) { FitsLargest(s, u, ecl); }
  }

  lemma NothingFits(ecl: Ecc)
    ensures FitsIn([], 40, ecl)
  {
    assert StreamOf([], 40) == [];
  }

  /** A text fits some version if and only if it is no longer than its mode allows. */
  lemma TextFitsExactly(text: seq<uint8>, ecl: Ecc)
    requires forall s :: s in TextSegments(text) ==> WellFormed(s)
    ensures (exists u :: 1 <= u <= 40 && FitsIn(TextSegments(text), u, ecl))
            <==> |text| <= MaxChars(TextMode(text), ecl)
  {
    hide FitsIn, TextData, WellFormed;
    if text == [] {
      NothingFits(ecl);
      assert FitsIn(TextSegments(text), 40, ecl);
    } else {
      var s := TextSegments(text)[0];
      assert s in TextSegments(text);
      SegmentFitsExactly(s, ecl);
    }
  }

  /** At the low level every text of up to 2953 bytes is encoded. */
  lemma LowHoldsAnyText(text: seq<uint8>)
    requires |text| <= 2953
    ensures |text| <= MaxChars(TextMode(text), Low)
  {
  }
}
