// Version tables and capacities (deps/qrcodegen.cpp; ISO/IEC 18004:2015, section 7.5.1).
module Versions {
  import opened Blocks

  const MIN_VERSION := 1
  const MAX_VERSION := 40

  datatype Ecc = Low | Medium | Quartile | High {
    /** The two bits that name the level in the format information. */
    function FormatBits(): (b: nat)
      ensures b < 4
    {
      match this
      case Low => 1
      case Medium => 0
      case Quartile => 3
      case High => 2
    }

    function Ordinal(): nat {
      match this
      case Low => 0
      case Medium => 1
      case Quartile => 2
      case High => 3
    }
  }

  predicate ValidVersion(v: int) { MIN_VERSION <= v <= MAX_VERSION }

  function Size(v: nat): nat { 4 * v + 17 }

  /** Modules left for codewords and remainder bits once all function modules are set aside. */
  function RawDataModules(v: nat): (m: nat)
    requires ValidVersion(v)
    ensures 208 <= m <= 29648
  {
    CapacityInRange(v);
    var base := (16 * v + 128) * v + 64;
    if v < 2 then base
    else
      var a := v / 7 + 2;
      base - ((25 * a - 10) * a - 55) - (if v >= 7 then 36 else 0)
  }

  lemma CapacityInRange(v: nat)
    requires ValidVersion(v)
    ensures var a := v / 7 + 2;
            var m := (16 * v + 128) * v + 64
                     - (if v >= 2 then (25 * a - 10) * a - 55 else 0) - (if v >= 7 then 36 else 0);
            208 <= m <= 29648
  {
    var a := v / 7 + 2;
    assert 2 <= a <= 7 && 7 * (a - 2) <= v < 7 * (a - 1);
    if a == 2 {
    } else if a == 3 {
    } else if a == 4 {
    } else if a == 5 {
    } else if a == 6 {
    } else {
      assert (25 * a - 10) * a == 1155;
    }
    SquareGrows(v);
  }

  lemma SquareGrows(v: nat)
    requires 1 <= v <= 40
    ensures v <= v * v <= 40 * v
  {
  }

  function RawCodewords(v: nat): nat
    requires ValidVersion(v)
  {
    RawDataModules(v) / 8
  }

  // ---- NUM_ERROR_CORRECTION_BLOCKS and ECC_CODEWORDS_PER_BLOCK, one function per level ----

  datatype BlockSpec = BlockSpec(numBlocks: nat, eccLen: nat)

  function LowBlocks(v: nat): BlockSpec {
    match v
    case 1 => BlockSpec(1, 7) case 2 => BlockSpec(1, 10) case 3 => BlockSpec(1, 15) case 4 => BlockSpec(1, 20)
    case 5 => BlockSpec(1, 26) case 6 => BlockSpec(2, 18) case 7 => BlockSpec(2, 20) case 8 => BlockSpec(2, 24)
    case 9 => BlockSpec(2, 30) case 10 => BlockSpec(4, 18) case 11 => BlockSpec(4, 20)
    case 12 => BlockSpec(4, 24) case 13 => BlockSpec(4, 26) case 14 => BlockSpec(4, 30)
    case 15 => BlockSpec(6, 22) case 16 => BlockSpec(6, 24) case 17 => BlockSpec(6, 28)
    case 18 => BlockSpec(6, 30) case 19 => BlockSpec(7, 28) case 20 => BlockSpec(8, 28)
    case 21 => BlockSpec(8, 28) case 22 => BlockSpec(9, 28) case 23 => BlockSpec(9, 30)
    case 24 => BlockSpec(10, 30) case 25 => BlockSpec(12, 26) case 26 => BlockSpec(12, 28)
    case 27 => BlockSpec(12, 30) case 28 => BlockSpec(13, 30) case 29 => BlockSpec(14, 30)
    case 30 => BlockSpec(15, 30) case 31 => BlockSpec(16, 30) case 32 => BlockSpec(17, 30)
    case 33 => BlockSpec(18, 30) case 34 => BlockSpec(19, 30) case 35 => BlockSpec(19, 30)
    case 36 => BlockSpec(20, 30) case 37 => BlockSpec(21, 30) case 38 => BlockSpec(22, 30)
    case 39 => BlockSpec(24, 30) case _ => BlockSpec(25, 30)
  }

  function MediumBlocks(v: nat): BlockSpec {
    match v
    case 1 => BlockSpec(1, 10) case 2 => BlockSpec(1, 16) case 3 => BlockSpec(1, 26) case 4 => BlockSpec(2, 18)
    case 5 => BlockSpec(2, 24) case 6 => BlockSpec(4, 16) case 7 => BlockSpec(4, 18) case 8 => BlockSpec(4, 22)
    case 9 => BlockSpec(5, 22) case 10 => BlockSpec(5, 26) case 11 => BlockSpec(5, 30)
    case 12 => BlockSpec(8, 22) case 13 => BlockSpec(9, 22) case 14 => BlockSpec(9, 24)
    case 15 => BlockSpec(10, 24) case 16 => BlockSpec(10, 28) case 17 => BlockSpec(11, 28)
    case 18 => BlockSpec(13, 26) case 19 => BlockSpec(14, 26) case 20 => BlockSpec(16, 26)
    case 21 => BlockSpec(17, 26) case 22 => BlockSpec(17, 28) case 23 => BlockSpec(18, 28)
    case 24 => BlockSpec(20, 28) case 25 => BlockSpec(21, 28) case 26 => BlockSpec(23, 28)
    case 27 => BlockSpec(25, 28) case 28 => BlockSpec(26, 28) case 29 => BlockSpec(28, 28)
    case 30 => BlockSpec(29, 28) case 31 => BlockSpec(31, 28) case 32 => BlockSpec(33, 28)
    case 33 => BlockSpec(35, 28) case 34 => BlockSpec(37, 28) case 35 => BlockSpec(38, 28)
    case 36 => BlockSpec(40, 28) case 37 => BlockSpec(43, 28) case 38 => BlockSpec(45, 28)
    case 39 => BlockSpec(47, 28) case _ => BlockSpec(49, 28)
  }

  function QuartileBlocks(v: nat): BlockSpec {
    match v
    case 1 => BlockSpec(1, 13) case 2 => BlockSpec(1, 22) case 3 => BlockSpec(2, 18) case 4 => BlockSpec(2, 26)
    case 5 => BlockSpec(4, 18) case 6 => BlockSpec(4, 24) case 7 => BlockSpec(6, 18) case 8 => BlockSpec(6, 22)
    case 9 => BlockSpec(8, 20) case 10 => BlockSpec(8, 24) case 11 => BlockSpec(8, 28)
    case 12 => BlockSpec(10, 26) case 13 => BlockSpec(12, 24) case 14 => BlockSpec(16, 20)
    case 15 => BlockSpec(12, 30) case 16 => BlockSpec(17, 24) case 17 => BlockSpec(16, 28)
    case 18 => BlockSpec(18, 28) case 19 => BlockSpec(21, 26) case 20 => BlockSpec(20, 30)
    case 21 => BlockSpec(23, 28) case 22 => BlockSpec(23, 30) case 23 => BlockSpec(25, 30)
    case 24 => BlockSpec(27, 30) case 25 => BlockSpec(29, 30) case 26 => BlockSpec(34, 28)
    case 27 => BlockSpec(34, 30) case 28 => BlockSpec(35, 30) case 29 => BlockSpec(38, 30)
    case 30 => BlockSpec(40, 30) case 31 => BlockSpec(43, 30) case 32 => BlockSpec(45, 30)
    case 33 => BlockSpec(48, 30) case 34 => BlockSpec(51, 30) case 35 => BlockSpec(53, 30)
    case 36 => BlockSpec(56, 30) case 37 => BlockSpec(59, 30) case 38 => BlockSpec(62, 30)
    case 39 => BlockSpec(65, 30) case _ => BlockSpec(68, 30)
  }

  function HighBlocks(v: nat): BlockSpec {
    match v
    case 1 => BlockSpec(1, 17) case 2 => BlockSpec(1, 28) case 3 => BlockSpec(2, 22) case 4 => BlockSpec(4, 16)
    case 5 => BlockSpec(4, 22) case 6 => BlockSpec(4, 28) case 7 => BlockSpec(5, 26) case 8 => BlockSpec(6, 26)
    case 9 => BlockSpec(8, 24) case 10 => BlockSpec(8, 28) case 11 => BlockSpec(11, 24)
    case 12 => BlockSpec(11, 28) case 13 => BlockSpec(16, 22) case 14 => BlockSpec(16, 24)
    case 15 => BlockSpec(18, 24) case 16 => BlockSpec(16, 30) case 17 => BlockSpec(19, 28)
    case 18 => BlockSpec(21, 28) case 19 => BlockSpec(25, 26) case 20 => BlockSpec(25, 28)
    case 21 => BlockSpec(25, 30) case 22 => BlockSpec(34, 24) case 23 => BlockSpec(30, 30)
    case 24 => BlockSpec(32, 30) case 25 => BlockSpec(35, 30) case 26 => BlockSpec(37, 30)
    case 27 => BlockSpec(40, 30) case 28 => BlockSpec(42, 30) case 29 => BlockSpec(45, 30)
    case 30 => BlockSpec(48, 30) case 31 => BlockSpec(51, 30) case 32 => BlockSpec(54, 30)
    case 33 => BlockSpec(57, 30) case 34 => BlockSpec(60, 30) case 35 => BlockSpec(63, 30)
    case 36 => BlockSpec(66, 30) case 37 => BlockSpec(70, 30) case 38 => BlockSpec(74, 30)
    case 39 => BlockSpec(77, 30) case _ => BlockSpec(81, 30)
  }

  function BlockSpecOf(v: nat, ecl: Ecc): BlockSpec {
    match ecl
    case Low => LowBlocks(v)
    case Medium => MediumBlocks(v)
    case Quartile => QuartileBlocks(v)
    case High => HighBlocks(v)
  }

  /** Every block has room for its error correction and at least one data byte. */
  predicate Fits(s: BlockSpec, raw: nat) {
    s.numBlocks > 0 && 1 <= s.eccLen <= 30 && s.numBlocks * (s.eccLen + 1) <= raw
  }

  lemma LowFits(v: nat)
    requires ValidVersion(v)
    ensures Fits(LowBlocks(v), RawCodewords(v))
  {
  }

  lemma MediumFits(v: nat)
    requires ValidVersion(v)
    ensures Fits(MediumBlocks(v), RawCodewords(v))
  {
  }

  lemma QuartileFits(v: nat)
    requires ValidVersion(v)
    ensures Fits(QuartileBlocks(v), RawCodewords(v))
  {
  }

  lemma HighFits(v: nat)
    requires ValidVersion(v)
    ensures Fits(HighBlocks(v), RawCodewords(v))
  {
  }

  lemma EverySpecFits(v: nat, ecl: Ecc)
    requires ValidVersion(v)
    ensures Fits(BlockSpecOf(v, ecl), RawCodewords(v))
  {
    match ecl
    case Low => LowFits(v);
    case Medium => MediumFits(v);
    case Quartile => QuartileFits(v);
    case High => HighFits(v);
  }

  lemma QuotientAtLeast(raw: nat, blocks: nat, k: nat)
    requires blocks > 0 && blocks * k <= raw
    ensures k <= raw / blocks
  {
    var q := raw / blocks;
    assert raw < blocks * (q + 1);
    CancelFactor(blocks, k, q + 1);
  }

  lemma CancelFactor(a: nat, b: nat, c: nat)
    requires a * b < a * c
    ensures b < c
  {
  }

  /** The blocks of a specification that fits hold all codewords. */
  function SpecLayout(s: BlockSpec, raw: nat): (l: Layout)
    requires Fits(s, raw)
    ensures l.Valid()
    ensures RawLen(l) == raw
    ensures l.TotalData() == raw - s.numBlocks * s.eccLen
  {
    MoreThanEcc(s, raw);
    QuotientAtLeast(raw, s.numBlocks, s.eccLen);
    LayoutCovers(s.numBlocks, s.eccLen, raw);
    LayoutOf(s.numBlocks, s.eccLen, raw)
  }

  lemma MoreThanEcc(s: BlockSpec, raw: nat)
    requires Fits(s, raw)
    ensures s.numBlocks * s.eccLen <= raw
  {
  }

  /** How the codewords of a version and level are divided into blocks. */
  function LayoutFor(v: nat, ecl: Ecc): (l: Layout)
    requires ValidVersion(v)
    ensures l.Valid()
    ensures RawLen(l) == RawCodewords(v)
    ensures l.TotalData() == DataCodewords(v, ecl)
  {
    hide RawCodewords, BlockSpecOf, SpecLayout, Fits;
    EverySpecFits(v, ecl);
    SpecLayout(BlockSpecOf(v, ecl), RawCodewords(v))
  }

  function DataCodewords(v: nat, ecl: Ecc): int
    requires ValidVersion(v)
  {
    RawCodewords(v) - BlockSpecOf(v, ecl).numBlocks * BlockSpecOf(v, ecl).eccLen
  }
}
