// Tables of the standard that the source computes or stores in another form: how the codewords of every
// version and level are divided (ISO/IEC 18004:2015, tables 1 and 9), and the format and version
// information (annexes C and D).
module Tables {
  import opened Bch
  import opened Bits
  import opened Blocks
  import opened Versions
  import opened Patterns

  // ---- codewords and blocks ----

  /** The codewords of a version in all. */
  function TotalCodewords(v: nat): nat {
    match v
    case 1 => 26 case 2 => 44 case 3 => 70 case 4 => 100 case 5 => 134 case 6 => 172 case 7 => 196
    case 8 => 242 case 9 => 292 case 10 => 346 case 11 => 404 case 12 => 466 case 13 => 532 case 14 => 581
    case 15 => 655 case 16 => 733 case 17 => 815 case 18 => 901 case 19 => 991 case 20 => 1085 case 21 => 1156
    case 22 => 1258 case 23 => 1364 case 24 => 1474 case 25 => 1588 case 26 => 1706 case 27 => 1828
    case 28 => 1921 case 29 => 2051 case 30 => 2185 case 31 => 2323 case 32 => 2465 case 33 => 2611
    case 34 => 2761 case 35 => 2876 case 36 => 3034 case 37 => 3196 case 38 => 3362 case 39 => 3532
    case _ => 3706
  }

  lemma TotalIs(v: nat)
    requires ValidVersion(v)
    ensures RawCodewords(v) == TotalCodewords(v)
  {
    if v <= 20 { SmallTotals(v); } else { LargeTotals(v); }
    hide *;
  }

  lemma SmallTotals(v: nat)
    requires 1 <= v <= 20
    ensures RawCodewords(v) == TotalCodewords(v)
  {
  }

  lemma LargeTotals(v: nat)
    requires 21 <= v <= 40
    ensures RawCodewords(v) == TotalCodewords(v)
  {
  }

  function LowLayout(v: nat): Layout {
    match v
    case 1 => Layout(1, 0, 19, 7) case 2 => Layout(1, 0, 34, 10) case 3 => Layout(1, 0, 55, 15)
    case 4 => Layout(1, 0, 80, 20) case 5 => Layout(1, 0, 108, 26) case 6 => Layout(2, 0, 68, 18)
    case 7 => Layout(2, 0, 78, 20) case 8 => Layout(2, 0, 97, 24) case 9 => Layout(2, 0, 116, 30)
    case 10 => Layout(2, 2, 68, 18) case 11 => Layout(4, 0, 81, 20) case 12 => Layout(2, 2, 92, 24)
    case 13 => Layout(4, 0, 107, 26) case 14 => Layout(3, 1, 115, 30) case 15 => Layout(5, 1, 87, 22)
    case 16 => Layout(5, 1, 98, 24) case 17 => Layout(1, 5, 107, 28) case 18 => Layout(5, 1, 120, 30)
    case 19 => Layout(3, 4, 113, 28) case 20 => Layout(3, 5, 107, 28) case 21 => Layout(4, 4, 116, 28)
    case 22 => Layout(2, 7, 111, 28) case 23 => Layout(4, 5, 121, 30) case 24 => Layout(6, 4, 117, 30)
    case 25 => Layout(8, 4, 106, 26) case 26 => Layout(10, 2, 114, 28) case 27 => Layout(8, 4, 122, 30)
    case 28 => Layout(3, 10, 117, 30) case 29 => Layout(7, 7, 116, 30) case 30 => Layout(5, 10, 115, 30)
    case 31 => Layout(13, 3, 115, 30) case 32 => Layout(17, 0, 115, 30) case 33 => Layout(17, 1, 115, 30)
    case 34 => Layout(13, 6, 115, 30) case 35 => Layout(12, 7, 121, 30) case 36 => Layout(6, 14, 121, 30)
    case 37 => Layout(17, 4, 122, 30) case 38 => Layout(4, 18, 122, 30) case 39 => Layout(20, 4, 117, 30)
    case _ => Layout(19, 6, 118, 30)
  }

  lemma LowDivides(v: nat)
    requires ValidVersion(v)
    ensures Divides(LowBlocks(v), TotalCodewords(v), LowLayout(v))
  {
    if v <= 20 { SmallLow(v); } else { LargeLow(v); }
    hide *;
  }

  lemma SmallLow(v: nat)
    requires 1 <= v <= 20
    ensures Divides(LowBlocks(v), TotalCodewords(v), LowLayout(v))
  {
  }

  lemma LargeLow(v: nat)
    requires 21 <= v <= 40
    ensures Divides(LowBlocks(v), TotalCodewords(v), LowLayout(v))
  {
  }

  function MediumLayout(v: nat): Layout {
    match v
    case 1 => Layout(1, 0, 16, 10) case 2 => Layout(1, 0, 28, 16) case 3 => Layout(1, 0, 44, 26)
    case 4 => Layout(2, 0, 32, 18) case 5 => Layout(2, 0, 43, 24) case 6 => Layout(4, 0, 27, 16)
    case 7 => Layout(4, 0, 31, 18) case 8 => Layout(2, 2, 38, 22) case 9 => Layout(3, 2, 36, 22)
    case 10 => Layout(4, 1, 43, 26) case 11 => Layout(1, 4, 50, 30) case 12 => Layout(6, 2, 36, 22)
    case 13 => Layout(8, 1, 37, 22) case 14 => Layout(4, 5, 40, 24) case 15 => Layout(5, 5, 41, 24)
    case 16 => Layout(7, 3, 45, 28) case 17 => Layout(10, 1, 46, 28) case 18 => Layout(9, 4, 43, 26)
    case 19 => Layout(3, 11, 44, 26) case 20 => Layout(3, 13, 41, 26) case 21 => Layout(17, 0, 42, 26)
    case 22 => Layout(17, 0, 46, 28) case 23 => Layout(4, 14, 47, 28) case 24 => Layout(6, 14, 45, 28)
    case 25 => Layout(8, 13, 47, 28) case 26 => Layout(19, 4, 46, 28) case 27 => Layout(22, 3, 45, 28)
    case 28 => Layout(3, 23, 45, 28) case 29 => Layout(21, 7, 45, 28) case 30 => Layout(19, 10, 47, 28)
    case 31 => Layout(2, 29, 46, 28) case 32 => Layout(10, 23, 46, 28) case 33 => Layout(14, 21, 46, 28)
    case 34 => Layout(14, 23, 46, 28) case 35 => Layout(12, 26, 47, 28) case 36 => Layout(6, 34, 47, 28)
    case 37 => Layout(29, 14, 46, 28) case 38 => Layout(13, 32, 46, 28) case 39 => Layout(40, 7, 47, 28)
    case _ => Layout(18, 31, 47, 28)
  }

  lemma MediumDivides(v: nat)
    requires ValidVersion(v)
    ensures Divides(MediumBlocks(v), TotalCodewords(v), MediumLayout(v))
  {
    if v <= 20 { SmallMedium(v); } else { LargeMedium(v); }
    hide *;
  }

  lemma SmallMedium(v: nat)
    requires 1 <= v <= 20
    ensures Divides(MediumBlocks(v), TotalCodewords(v), MediumLayout(v))
  {
  }

  lemma LargeMedium(v: nat)
    requires 21 <= v <= 40
    ensures Divides(MediumBlocks(v), TotalCodewords(v), MediumLayout(v))
  {
  }

  function QuartileLayout(v: nat): Layout {
    match v
    case 1 => Layout(1, 0, 13, 13) case 2 => Layout(1, 0, 22, 22) case 3 => Layout(2, 0, 17, 18)
    case 4 => Layout(2, 0, 24, 26) case 5 => Layout(2, 2, 15, 18) case 6 => Layout(4, 0, 19, 24)
    case 7 => Layout(2, 4, 14, 18) case 8 => Layout(4, 2, 18, 22) case 9 => Layout(4, 4, 16, 20)
    case 10 => Layout(6, 2, 19, 24) case 11 => Layout(4, 4, 22, 28) case 12 => Layout(4, 6, 20, 26)
    case 13 => Layout(8, 4, 20, 24) case 14 => Layout(11, 5, 16, 20) case 15 => Layout(5, 7, 24, 30)
    case 16 => Layout(15, 2, 19, 24) case 17 => Layout(1, 15, 22, 28) case 18 => Layout(17, 1, 22, 28)
    case 19 => Layout(17, 4, 21, 26) case 20 => Layout(15, 5, 24, 30) case 21 => Layout(17, 6, 22, 28)
    case 22 => Layout(7, 16, 24, 30) case 23 => Layout(11, 14, 24, 30) case 24 => Layout(11, 16, 24, 30)
    case 25 => Layout(7, 22, 24, 30) case 26 => Layout(28, 6, 22, 28) case 27 => Layout(8, 26, 23, 30)
    case 28 => Layout(4, 31, 24, 30) case 29 => Layout(1, 37, 23, 30) case 30 => Layout(15, 25, 24, 30)
    case 31 => Layout(42, 1, 24, 30) case 32 => Layout(10, 35, 24, 30) case 33 => Layout(29, 19, 24, 30)
    case 34 => Layout(44, 7, 24, 30) case 35 => Layout(39, 14, 24, 30) case 36 => Layout(46, 10, 24, 30)
    case 37 => Layout(49, 10, 24, 30) case 38 => Layout(48, 14, 24, 30) case 39 => Layout(43, 22, 24, 30)
    case _ => Layout(34, 34, 24, 30)
  }

  lemma QuartileDivides(v: nat)
    requires ValidVersion(v)
    ensures Divides(QuartileBlocks(v), TotalCodewords(v), QuartileLayout(v))
  {
    if v <= 20 { SmallQuartile(v); } else { LargeQuartile(v); }
    hide *;
  }

  lemma SmallQuartile(v: nat)
    requires 1 <= v <= 20
    ensures Divides(QuartileBlocks(v), TotalCodewords(v), QuartileLayout(v))
  {
  }

  lemma LargeQuartile(v: nat)
    requires 21 <= v <= 40
    ensures Divides(QuartileBlocks(v), TotalCodewords(v), QuartileLayout(v))
  {
  }

  function HighLayout(v: nat): Layout {
    match v
    case 1 => Layout(1, 0, 9, 17) case 2 => Layout(1, 0, 16, 28) case 3 => Layout(2, 0, 13, 22)
    case 4 => Layout(4, 0, 9, 16) case 5 => Layout(2, 2, 11, 22) case 6 => Layout(4, 0, 15, 28)
    case 7 => Layout(4, 1, 13, 26) case 8 => Layout(4, 2, 14, 26) case 9 => Layout(4, 4, 12, 24)
    case 10 => Layout(6, 2, 15, 28) case 11 => Layout(3, 8, 12, 24) case 12 => Layout(7, 4, 14, 28)
    case 13 => Layout(12, 4, 11, 22) case 14 => Layout(11, 5, 12, 24) case 15 => Layout(11, 7, 12, 24)
    case 16 => Layout(3, 13, 15, 30) case 17 => Layout(2, 17, 14, 28) case 18 => Layout(2, 19, 14, 28)
    case 19 => Layout(9, 16, 13, 26) case 20 => Layout(15, 10, 15, 28) case 21 => Layout(19, 6, 16, 30)
    case 22 => Layout(34, 0, 13, 24) case 23 => Layout(16, 14, 15, 30) case 24 => Layout(30, 2, 16, 30)
    case 25 => Layout(22, 13, 15, 30) case 26 => Layout(33, 4, 16, 30) case 27 => Layout(12, 28, 15, 30)
    case 28 => Layout(11, 31, 15, 30) case 29 => Layout(19, 26, 15, 30) case 30 => Layout(23, 25, 15, 30)
    case 31 => Layout(23, 28, 15, 30) case 32 => Layout(19, 35, 15, 30) case 33 => Layout(11, 46, 15, 30)
    case 34 => Layout(59, 1, 16, 30) case 35 => Layout(22, 41, 15, 30) case 36 => Layout(2, 64, 15, 30)
    case 37 => Layout(24, 46, 15, 30) case 38 => Layout(42, 32, 15, 30) case 39 => Layout(10, 67, 15, 30)
    case _ => Layout(20, 61, 15, 30)
  }

  lemma HighDivides(v: nat)
    requires ValidVersion(v)
    ensures Divides(HighBlocks(v), TotalCodewords(v), HighLayout(v))
  {
    if v <= 20 { SmallHigh(v); } else { LargeHigh(v); }
    hide *;
  }

  lemma SmallHigh(v: nat)
    requires 1 <= v <= 20
    ensures Divides(HighBlocks(v), TotalCodewords(v), HighLayout(v))
  {
  }

  lemma LargeHigh(v: nat)
    requires 21 <= v <= 40
    ensures Divides(HighBlocks(v), TotalCodewords(v), HighLayout(v))
  {
  }

  /** Short and long blocks, their data and their error correction, as the standard lists them. */
  function StandardLayout(v: nat, ecl: Ecc): Layout {
    match ecl
    case Low => LowLayout(v)
    case Medium => MediumLayout(v)
    case Quartile => QuartileLayout(v)
    case High => HighLayout(v)
  }

  /** The layout has these blocks and divides the codewords between them. */
  predicate Divides(s: BlockSpec, raw: nat, l: Layout) {
    && s.numBlocks == l.numShort + l.numLong && s.eccLen == l.eccLen && l.numShort > 0
    && raw == s.numBlocks * (l.shortData + l.eccLen) + l.numLong
  }

  lemma OnlyLayout(s: BlockSpec, raw: nat, l: Layout)
    requires Fits(s, raw) && Divides(s, raw, l)
    ensures SpecLayout(s, raw) == l
  {
    UniqueQuotient(raw, s.numBlocks, l.shortData + l.eccLen, l.numLong);
    MoreThanEcc(s, raw);
    QuotientAtLeast(raw, s.numBlocks, s.eccLen);
  }

  lemma UniqueQuotient(a: nat, k: nat, q: nat, r: nat)
    requires r < k && a == k * q + r
    ensures a / k == q && a % k == r
  {
    var d := a / k - q;
    assert k * d == r - a % k;
    Smaller(k, d);
  }

  lemma Smaller(k: int, d: int)
    requires 0 - k < k * d < k
    ensures d == 0
  {
  }

  lemma LayoutIsStandard(v: nat, ecl: Ecc)
    requires ValidVersion(v)
    ensures LayoutFor(v, ecl) == StandardLayout(v, ecl)
  {
    hide LowLayout, MediumLayout, QuartileLayout, HighLayout, LowBlocks, MediumBlocks, QuartileBlocks, HighBlocks;
    hide RawCodewords, TotalCodewords, SpecLayout, Divides, Fits;
    TotalIs(v);
    EverySpecFits(v, ecl);
    match ecl
    case Low => LowDivides(v); OnlyLayout(LowBlocks(v), TotalCodewords(v), LowLayout(v));
    case Medium => MediumDivides(v); OnlyLayout(MediumBlocks(v), TotalCodewords(v), MediumLayout(v));
    case Quartile => QuartileDivides(v); OnlyLayout(QuartileBlocks(v), TotalCodewords(v), QuartileLayout(v));
    case High => HighDivides(v); OnlyLayout(HighBlocks(v), TotalCodewords(v), HighLayout(v));
  }

  // ---- format and version information ----

  lemma RegisterStarts(s: seq<bool>, divisor: seq<bool>)
    requires |s| == |divisor| > 0
    ensures Register(s, divisor, 0) == s
  {
  }

  lemma RegisterStep(s: seq<bool>, divisor: seq<bool>, k: nat)
    requires |s| == |divisor| > 0
    ensures Register(s, divisor, k + 1) == Shifted(Register(s, divisor, k), divisor, false)
  {
  }

  lemma ShiftedAt(rem: seq<bool>, divisor: seq<bool>)
    requires |rem| == |divisor| > 0
    ensures forall i :: 0 <= i < |rem| ==>
              Shifted(rem, divisor, false)[i] == ((i + 1 < |rem| && rem[i + 1]) != (rem[0] && divisor[i]))
  {
  }

  lemma FormatDivisorIs()
    ensures var d := FORMAT_DIVISOR;
            && !d[0] && d[1] && !d[2] && !d[3] && d[4] && d[5] && !d[6] && d[7] && d[8] && d[9]
  {
  }

  /** One step of the register, bit by bit. */
  lemma FormatStep(s: seq<bool>, k: nat, rem: seq<bool>) returns (next: seq<bool>)
    requires |s| == |rem| == 10 && rem == Register(s, FORMAT_DIVISOR, k)
    ensures |next| == 10 && next == Register(s, FORMAT_DIVISOR, k + 1)
    ensures next[0] == rem[1] && next[1] == (rem[2] != rem[0]) && next[2] == rem[3] && next[3] == rem[4]
            && next[4] == (rem[5] != rem[0]) && next[5] == (rem[6] != rem[0]) && next[6] == rem[7]
            && next[7] == (rem[8] != rem[0]) && next[8] == (rem[9] != rem[0]) && next[9] == rem[0]
  {
    RegisterStep(s, FORMAT_DIVISOR, k);
    hide Register;
    next := Shifted(rem, FORMAT_DIVISOR, false);
    FormatDivisorIs();
    ShiftedAt(rem, FORMAT_DIVISOR);
  }

  /** Each bit of the error correction is a parity of data bits. */
  lemma FormatParities(s: seq<bool>) returns (r: seq<bool>)
    requires |s| == 10 && !s[0] && !s[1] && !s[2] && !s[3] && !s[4]
    ensures |r| == 10 && r == Register(s, FORMAT_DIVISOR, 10)
    ensures r[0] == ((s[5] != s[6]) != s[8]) && r[1] == ((s[6] != s[7]) != s[9])
            && r[2] == ((s[5] != s[6]) != s[7]) && r[3] == ((s[6] != s[7]) != s[8]) && r[4] == ((s[7] != s[8]) != s[9])
            && r[5] == ((s[5] != s[6]) != s[9]) && r[6] == ((s[5] != s[7]) != s[8]) && r[7] == ((s[6] != s[8]) != s[9])
            && r[8] == ((((s[5] != s[6]) != s[7]) != s[8]) != s[9]) && r[9] == ((s[5] != s[7]) != s[9])
  {
    r := s;
    RegisterStarts(s, FORMAT_DIVISOR);
    hide Register;
    r := FormatStep(s, 0, r);
    r := FormatStep(s, 1, r);
    r := FormatStep(s, 2, r);
    r := FormatStep(s, 3, r);
    r := FormatStep(s, 4, r);
    r := FormatStep(s, 5, r);
    r := FormatStep(s, 6, r);
    r := FormatStep(s, 7, r);
    r := FormatStep(s, 8, r);
    r := FormatStep(s, 9, r);
  }

  lemma VersionDivisorIs()
    ensures var d := VERSION_DIVISOR;
            && d[0] && d[1] && d[2] && d[3] && !d[4] && !d[5] && d[6] && !d[7] && !d[8] && d[9] && !d[10]
            && d[11]
  {
  }

  /** One step of the register, bit by bit. */
  lemma VersionStep(s: seq<bool>, k: nat, rem: seq<bool>) returns (next: seq<bool>)
    requires |s| == |rem| == 12 && rem == Register(s, VERSION_DIVISOR, k)
    ensures |next| == 12 && next == Register(s, VERSION_DIVISOR, k + 1)
    ensures next[0] == (rem[1] != rem[0]) && next[1] == (rem[2] != rem[0]) && next[2] == (rem[3] != rem[0])
            && next[3] == (rem[4] != rem[0]) && next[4] == rem[5] && next[5] == rem[6] && next[6] == (rem[7] != rem[0])
            && next[7] == rem[8] && next[8] == rem[9] && next[9] == (rem[10] != rem[0]) && next[10] == rem[11]
            && next[11] == rem[0]
  {
    RegisterStep(s, VERSION_DIVISOR, k);
    hide Register;
    next := Shifted(rem, VERSION_DIVISOR, false);
    VersionDivisorIs();
    ShiftedAt(rem, VERSION_DIVISOR);
  }

  /** Each bit of the error correction is a parity of data bits. */
  lemma VersionParities(s: seq<bool>) returns (r: seq<bool>)
    requires |s| == 12 && !s[0] && !s[1] && !s[2] && !s[3] && !s[4] && !s[5]
    ensures |r| == 12 && r == Register(s, VERSION_DIVISOR, 12)
    ensures r[0] == ((s[6] != s[7]) != s[11]) && r[1] == (s[8] != s[11]) && r[2] == ((s[7] != s[9]) != s[11])
            && r[3] == ((((s[6] != s[7]) != s[8]) != s[10]) != s[11]) && r[4] == ((s[6] != s[8]) != s[9])
            && r[5] == (((s[6] != s[7]) != s[9]) != s[10]) && r[6] == (((s[7] != s[8]) != s[10]) != s[11])
            && r[7] == (((s[6] != s[7]) != s[8]) != s[9]) && r[8] == (((s[7] != s[8]) != s[9]) != s[10])
            && r[9] == ((((s[6] != s[8]) != s[9]) != s[10]) != s[11]) && r[10] == (s[9] != s[10])
            && r[11] == ((s[6] != s[10]) != s[11])
  {
    r := s;
    RegisterStarts(s, VERSION_DIVISOR);
    hide Register;
    r := VersionStep(s, 0, r);
    r := VersionStep(s, 1, r);
    r := VersionStep(s, 2, r);
    r := VersionStep(s, 3, r);
    r := VersionStep(s, 4, r);
    r := VersionStep(s, 5, r);
    r := VersionStep(s, 6, r);
    r := VersionStep(s, 7, r);
    r := VersionStep(s, 8, r);
    r := VersionStep(s, 9, r);
    r := VersionStep(s, 10, r);
    r := VersionStep(s, 11, r);
  }

  /**
   * The fifteen format bits f of five data bits t: the data and ten parities of it, five data bits and two
   * parities inverted by the fixed mask.
   */
  predicate StandardFormat(t: seq<bool>, f: seq<bool>)
    requires |t| == 5 && |f| == 15
  {
    && f[0] == !t[0] && f[1] == t[1] && f[2] == !t[2] && f[3] == t[3] && f[4] == !t[4]
    && f[5] == ((t[0] != t[1]) != t[3]) && f[6] == ((t[1] != t[2]) != t[4]) && f[7] == ((t[0] != t[1]) != t[2])
    && f[8] == ((t[1] != t[2]) != t[3]) && f[9] == ((t[2] != t[3]) != t[4])
    && f[10] == !((t[0] != t[1]) != t[4]) && f[11] == ((t[0] != t[2]) != t[3])
    && f[12] == ((t[1] != t[3]) != t[4]) && f[13] == !((((t[0] != t[1]) != t[2]) != t[3]) != t[4])
    && f[14] == ((t[0] != t[2]) != t[4])
  }

  lemma MaskIs()
    ensures var m := FORMAT_MASK;
            && m[0] && !m[1] && m[2] && !m[3] && m[4] && !m[5] && !m[6] && !m[7] && !m[8] && !m[9]
            && m[10] && !m[11] && !m[12] && m[13] && !m[14]
  {
  }

  lemma XorParts(data: seq<bool>, rem: seq<bool>, mask: seq<bool>)
    requires |data| == 5 && |rem| == 10 && |mask| == 15
    ensures forall i :: 0 <= i < 5 ==> Xor(data + rem, mask)[i] == (data[i] != mask[i])
    ensures forall i :: 0 <= i < 10 ==> Xor(data + rem, mask)[5 + i] == (rem[i] != mask[5 + i])
  {
  }

  lemma Masked(data: seq<bool>, rem: seq<bool>)
    requires |data| == 5 && |rem| == 10
    ensures var f := Xor(data + rem, FORMAT_MASK);
            && f[0] == !data[0] && f[1] == data[1] && f[2] == !data[2] && f[3] == data[3] && f[4] == !data[4]
            && f[5] == rem[0] && f[6] == rem[1] && f[7] == rem[2] && f[8] == rem[3] && f[9] == rem[4]
            && f[10] == !rem[5] && f[11] == rem[6] && f[12] == rem[7] && f[13] == !rem[8] && f[14] == rem[9]
  {
    MaskIs();
    XorParts(data, rem, FORMAT_MASK);
  }

  /** The two bits of a level, as the standard numbers them. */
  function LevelBits(ecl: Ecc): nat {
    match ecl case Medium => 0 case Low => 1 case High => 2 case Quartile => 3
  }

  /** The format bits of level and mask. */
  lemma FormatIsStandard(ecl: Ecc, mask: nat)
    requires mask < 8
    ensures StandardFormat(BitsOf(8 * LevelBits(ecl) + mask, 5), FormatInfo(ecl, mask))
  {
    hide Register, BitsOf, Xor;
    assert ecl.FormatBits() == LevelBits(ecl);
    var t := BitsOf(8 * LevelBits(ecl) + mask, 5);
    var r := FormatParities(Zeros(5) + t);
    Masked(t, r);
  }

  /** The eighteen version bits f of the six bits t of the version: those, and twelve parities of them. */
  predicate StandardVersion(t: seq<bool>, f: seq<bool>)
    requires |t| == 6 && |f| == 18
  {
    && f[0] == t[0] && f[1] == t[1] && f[2] == t[2] && f[3] == t[3] && f[4] == t[4] && f[5] == t[5]
    && f[6] == ((t[0] != t[1]) != t[5]) && f[7] == (t[2] != t[5]) && f[8] == ((t[1] != t[3]) != t[5])
    && f[9] == ((((t[0] != t[1]) != t[2]) != t[4]) != t[5]) && f[10] == ((t[0] != t[2]) != t[3])
    && f[11] == (((t[0] != t[1]) != t[3]) != t[4]) && f[12] == (((t[1] != t[2]) != t[4]) != t[5])
    && f[13] == (((t[0] != t[1]) != t[2]) != t[3]) && f[14] == (((t[1] != t[2]) != t[3]) != t[4])
    && f[15] == ((((t[0] != t[2]) != t[3]) != t[4]) != t[5]) && f[16] == (t[3] != t[4])
    && f[17] == ((t[0] != t[4]) != t[5])
  }

  lemma Behind(t: seq<bool>, r: seq<bool>)
    requires |t| == 6 && |r| == 12
    ensures forall i :: 0 <= i < 6 ==> (t + r)[i] == t[i]
    ensures forall i :: 0 <= i < 12 ==> (t + r)[6 + i] == r[i]
  {
  }

  lemma VersionIsStandard(v: nat)
    requires 7 <= v <= 40
    ensures StandardVersion(BitsOf(v, 6), VersionInfo(v))
  {
    SmallBits(v);
    hide Register, BitsOf;
    var t := BitsOf(v, 6);
    var r := VersionParities(Zeros(6) + t);
    Behind(t, r);
  }
}
