// A reference reader for finished symbols, and the theorem that it returns exactly the segments that
// were encoded: format bits, mask removal, zigzag read, de-interleaving and bit stream parsing
// (the encoder's side is deps/qrcodegen.cpp, lines 239-584).
module Reader {
  import opened Bits
  import opened Galois
  import opened Options
  import opened ReedSolomon
  import opened Blocks
  import opened Versions
  import opened Grids
  import opened Masks
  import opened Zigzag
  import opened Patterns
  import opened Capacity
  import opened Segments
  import opened QrSymbol
  import opened Encoder
  import opened Limits

  /** The version a grid of this size has, if any. */
  function VersionOf(n: nat): Option<nat> {
    if n % 4 == 1 && 21 <= n <= 177 then Some((n - 17) / 4) else None
  }

  /** The five data bits of the format information: the left end of row 8. */
  function FormatData(g: Grid, n: nat): (bits: seq<bool>)
    requires n >= 21 && Square(g, n)
    ensures |bits| == 5
  {
    seq(5, x requires 0 <= x < 5 => At(g, n, x, 8) != FORMAT_MASK[x])
  }

  function LevelOf(formatBits: nat): Ecc {
    match formatBits
    case 0 => Medium
    case 1 => Low
    case 2 => High
    case _ => Quartile
  }

  /** The codeword modules with the mask removed. */
  function Unmask(g: Grid, v: nat, mask: nat): (u: Grid)
    requires ValidVersion(v) && mask < 8 && Square(g, Size(v))
    ensures Square(u, Size(v))
    ensures forall x, y :: InGrid(Size(v), x, y) ==>
      At(u, Size(v), x, y) == (At(g, Size(v), x, y) != (MaskBit(mask, x, y) && !IsFunction(v, x, y)))
  {
    seq(Size(v), y requires 0 <= y < Size(v) =>
      seq(Size(v), x requires 0 <= x < Size(v) =>
        At(g, Size(v), x, y) != (MaskBit(mask, x, y) && !IsFunction(v, x, y))))
  }

  /** The non-function modules of the whole scan, unmasked. */
  function ScanBits(g: Grid, v: nat, mask: nat): (bits: seq<bool>)
    requires ValidVersion(v) && mask < 8 && Square(g, Size(v)) && ValidSize(Size(v))
    ensures |bits| == FreeModules(FunctionGrid(v), Size(v))
  {
    ReadBits(Unmask(g, v, mask), FunctionGrid(v), Size(v), NumPairs(Size(v)), 0)
  }

  function FirstBytes(bits: seq<bool>, k: nat): (data: Poly)
    requires 8 * k <= |bits|
    ensures |data| == k
  {
    Pack(bits[..8 * k])
  }

  /** All codewords, data and error correction, in the order the scan meets them. */
  function ReadCodewords(g: Grid, v: nat, mask: nat): (codewords: Poly)
    requires ValidVersion(v) && mask < 8 && Square(g, Size(v))
    ensures |codewords| == RawCodewords(v)
  {
    EnoughFreeModules(v);
    var bits := ScanBits(g, v, mask);
    var k := RawCodewords(v);
    assert 8 * k <= |bits|;
    FirstBytes(bits, k)
  }

  /** The level and the mask, as the format information names them. */
  function ReadFormat(g: Grid, n: nat): (f: (Ecc, nat))
    requires n >= 21 && Square(g, n)
    ensures f.1 < 8
  {
    var format := ValueOf(FormatData(g, n));
    (LevelOf(format / 8), format % 8)
  }

  /** The data bits under a layout. */
  function DataBits(layout: Layout, codewords: Poly): seq<bool>
    requires |codewords| == RawLen(layout)
  {
    Stream(ReadBlocks(layout, codewords, layout.NumBlocks()))
  }

  function ReadSymbol(g: Grid): Option<seq<Segment>> {
    match VersionOf(|g|)
    case None => None
    case Some(v) =>
      if !Square(g, Size(v)) then None
      else
        var (ecl, mask) := ReadFormat(g, Size(v));
        ParseAll(DataBits(LayoutFor(v, ecl), ReadCodewords(g, v, mask)), v)
  }

  // ---- the format information names the level and the mask ----

  /** The reader finds data bit x of the format information at (x, 8). */
  lemma FormatModule(g: Grid, v: nat, ecl: Ecc, codewords: Poly, mask: nat, x: nat)
    requires ValidVersion(v) && mask < 8 && g == SymbolGrid(v, ecl, codewords, mask) && x < 5
    ensures FormatData(g, Size(v))[x] == BitsOf(ecl.FormatBits() * 8 + mask, 5)[x]
  {
    hide SymbolGrid, FormatRemainder, CodewordBit, PatternDark, AlignmentPaint, BitsOf, MaskBit, InFinder, InVersion;
    var n := Size(v);
    assert InGrid(n, x, 8) && InFormat(n, x, 8) && IsFunction(v, x, 8);
    assert At(g, n, x, 8) == ModuleAt(v, ecl, codewords, mask, x, 8);
    assert FormatDark(n, FormatInfo(ecl, mask), x, 8) == FormatInfo(ecl, mask)[x];
  }

  lemma FormatValue(ecl: Ecc, mask: nat)
    requires mask < 8
    ensures var format := ValueOf(BitsOf(ecl.FormatBits() * 8 + mask, 5));
            LevelOf(format / 8) == ecl && format % 8 == mask
  {
    hide BitsOf, ValueOf;
    FivePower();
    ValueOfBitsOf(ecl.FormatBits() * 8 + mask, 5);
  }

  lemma FivePower()
    ensures Pow2(5) == 32
  {
  }

  lemma FormatReadsBack(g: Grid, v: nat, ecl: Ecc, codewords: Poly, mask: nat)
    requires ValidVersion(v) && mask < 8 && g == SymbolGrid(v, ecl, codewords, mask)
    ensures ReadFormat(g, Size(v)) == (ecl, mask)
  {
    hide SymbolGrid, FormatData, BitsOf, ValueOf, LevelOf;
    var data := BitsOf(ecl.FormatBits() * 8 + mask, 5);
    forall x | 0 <= x < 5
      ensures FormatData(g, Size(v))[x] == data[x]
    {
      FormatModule(g, v, ecl, codewords, mask, x);
    }
    assert FormatData(g, Size(v)) == data;
    FormatValue(ecl, mask);
  }

  // ---- the scan returns the codewords ----

  /** Removing the mask leaves the codewords drawn over some grid. */
  lemma UnmaskedIsDrawn(g: Grid, v: nat, ecl: Ecc, codewords: Poly, mask: nat)
    requires ValidVersion(v) && mask < 8 && g == SymbolGrid(v, ecl, codewords, mask) && ValidSize(Size(v))
    ensures var n, u := Size(v), Unmask(g, v, mask);
            forall x, y :: InGrid(n, x, y) && !IsFunction(v, x, y) ==> At(u, n, x, y) == CodewordBit(v, codewords, x, y)
  {
    hide SymbolGrid, CodewordBit, MaskBit, IsFunction, FunctionDark;
    var n, u := Size(v), Unmask(g, v, mask);
    forall x, y | InGrid(n, x, y) && !IsFunction(v, x, y)
      ensures x != 6 && At(u, n, x, y) == CodewordBit(v, codewords, x, y)
    {
      FreeColumn(v, x, y);
      assert At(g, n, x, y) == ModuleAt(v, ecl, codewords, mask, x, y);
    }
  }

  lemma FreeColumn(v: nat, x: int, y: int)
    requires ValidVersion(v) && !IsFunction(v, x, y)
    ensures x != 6
  {
  }

  lemma CodewordsReadBack(g: Grid, v: nat, ecl: Ecc, codewords: Poly, mask: nat)
    requires ValidVersion(v) && mask < 8 && g == SymbolGrid(v, ecl, codewords, mask)
    requires |codewords| == RawCodewords(v)
    ensures ReadCodewords(g, v, mask) == codewords
  {
    hide SymbolGrid, Rank, IsFunction, MaskBit, RawDataModules, ReadBits, PairOf, StepOf;
    EnoughFreeModules(v);
    var n, f, bits := Size(v), FunctionGrid(v), Stream(codewords);
    var u := Unmask(g, v, mask);
    UnmaskedIsDrawn(g, v, ecl, codewords, mask);
    forall x, y | InGrid(n, x, y)
      ensures At(u, n, x, y) == Drawn(u, f, n, bits, NumPairs(n), 0, x, y)
    {
      if x != 6 && !At(f, n, x, y) { assert At(u, n, x, y) == CodewordBit(v, codewords, x, y); }
    }
    assert DrawnUpTo(u, u, f, n, bits, NumPairs(n), 0);
    var read := ReadBits(u, f, n, NumPairs(n), 0);
    forall k | 0 <= k < |bits|
      ensures read[k] == bits[k]
    {
      ReadsBackDrawn(u, u, f, n, bits, NumPairs(n), 0, k);
    }
    assert read[..|bits|] == bits;
    PackOfStream(codewords);
  }

  // ---- the whole way back ----

  /** A symbol is read back up to the point where segments are parsed. */
  lemma SymbolReadsBack(g: Grid, v: nat, ecl: Ecc, layout: Layout, codewords: Poly, mask: nat)
    requires ValidVersion(v) && mask < 8 && layout == LayoutFor(v, ecl) && |codewords| == RawLen(layout)
    requires g == SymbolGrid(v, ecl, codewords, mask)
    ensures ReadSymbol(g) == ParseAll(DataBits(layout, codewords), v)
  {
    hide SymbolGrid, LayoutFor, DataBits, ReadFormat, ReadCodewords, ParseAll, RawCodewords, RawLen, DataCodewords;
    FormatReadsBack(g, v, ecl, codewords, mask);
    CodewordsReadBack(g, v, ecl, codewords, mask);
    assert |g| == Size(v) && VersionOf(|g|) == Some(v);
  }

  /** De-interleaving and parsing return the segments. */
  lemma CodewordsParse(segs: seq<Segment>, v: nat, layout: Layout)
    requires layout.Valid() && |StreamOf(segs, v)| <= 8 * layout.TotalData()
    requires forall s :: s in segs ==> WellFormed(s) && CountFits(s, v)
    ensures var codewords := CodewordsFor(layout, StreamOf(segs, v));
            |codewords| == RawLen(layout)
            && ParseAll(DataBits(layout, codewords), v) == Some(segs)
  {
    hide StreamOf, Interleaved, ReadBlocks, Message, ParseAll, WellFormed, CountFits, RawLen, Pack, Stream, Terminated;
    var stream, capacity := StreamOf(segs, v), 8 * layout.TotalData();
    var message := Message(stream, capacity);
    Deinterleaves(layout, Pack(message));
    StreamOfPack(message);
    MessageIsTerminated(stream, capacity);
    StreamParses(segs, v, message[|stream|..]);
    assert message == stream + message[|stream|..];
  }

  /** The reader returns exactly the segments a symbol shows, at every version, level and mask. */
  lemma ReadsBack(segs: seq<Segment>, g: Grid, v: nat, ecl: Ecc, mask: nat)
    requires ValidVersion(v) && mask < 8
    requires forall s :: s in segs ==> WellFormed(s) && CountFits(s, v)
    requires |StreamOf(segs, v)| <= CapacityBits(v, ecl)
    requires g == SymbolGrid(v, ecl, SymbolCodewords(segs, v, ecl), mask)
    ensures ReadSymbol(g) == Some(segs)
  {
    hide SymbolGrid, LayoutFor, CodewordsFor, ReadSymbol, ParseAll, DataBits, WellFormed, CountFits, StreamOf, RawLen;
    var layout := LayoutFor(v, ecl);
    CodewordsParse(segs, v, layout);
    SymbolReadsBack(g, v, ecl, layout, SymbolCodewords(segs, v, ecl), mask);
  }

  /** Block j as a reader takes it out of the symbol's codewords, data before error correction. */
  function ReadCodeBlock(l: Layout, codewords: Poly, j: nat): Poly
    requires |codewords| == RawLen(l) && j < l.NumBlocks()
  {
    ReadBlock(l, codewords, j) + seq(l.eccLen, i requires 0 <= i < l.eccLen =>
      EccPositionInRange(l, j, i);
      codewords[EccPosition(l, j, i)])
  }

  lemma EccPositionInRange(l: Layout, j: nat, i: nat)
    requires j < l.NumBlocks() && i < l.eccLen
    ensures EccPosition(l, j, i) < RawLen(l)
  {
    assert (i + 1) * l.NumBlocks() == i * l.NumBlocks() + l.NumBlocks();
    assert (i + 1) * l.NumBlocks() <= l.eccLen * l.NumBlocks();
  }

  /** Every block in the symbol has zero syndromes: it vanishes at every root of the generator. */
  lemma BlocksHaveZeroSyndromes(g: Grid, v: nat, ecl: Ecc, data: Poly, mask: nat, j: nat, i: nat)
    requires ValidVersion(v) && mask < 8
    requires |data| == LayoutFor(v, ecl).TotalData()
    requires g == SymbolGrid(v, ecl, Interleaved(LayoutFor(v, ecl), data), mask)
    requires j < LayoutFor(v, ecl).NumBlocks() && i < LayoutFor(v, ecl).eccLen
    ensures Eval(ReadCodeBlock(LayoutFor(v, ecl), ReadCodewords(g, v, mask), j), Root(i)) == ZERO
  {
    hide SymbolGrid, LayoutFor, Interleaved, ReadCodewords, RawCodewords, Eval, Root, Remainder;
    var l := LayoutFor(v, ecl);
    var codewords := Interleaved(l, data);
    Deinterleaves(l, data);
    CodewordsReadBack(g, v, ecl, codewords, mask);
    BlockReadsBack(l, data, j);
    EccBlockReadsBack(l, data, j);
    CodewordVanishes(DataBlock(l, data, j), l.eccLen, Divisor(l), i);
  }

  lemma EccBlockReadsBack(l: Layout, data: Poly, j: nat)
    requires l.Valid() && |data| == l.TotalData() && j < l.NumBlocks()
    requires |Interleaved(l, data)| == RawLen(l)
    ensures ReadCodeBlock(l, Interleaved(l, data), j) == ReadBlock(l, Interleaved(l, data), j) + EccBlock(l, data, j)
  {
    hide Interleaved, ReadBlock, EccBlock, EccPosition;
    var codewords := Interleaved(l, data);
    var ecc := seq(l.eccLen, i requires 0 <= i < l.eccLen =>
      EccPositionInRange(l, j, i);
      codewords[EccPosition(l, j, i)]);
    forall i | 0 <= i < l.eccLen
      ensures ecc[i] == EccBlock(l, data, j)[i]
    {
      EccRecovered(l, data, j, i);
    }
  }

  // ---- encoding text and binary data ----

  /** A symbol produced for well-formed segments can be read back. */
  lemma ShownIsRead(qr: QrCode, segs: seq<Segment>)
    requires Shows(qr, segs) && forall s :: s in segs ==> WellFormed(s)
    ensures ReadSymbol(qr.modules) == Some(segs)
  {
    hide LayoutFor, ReadSymbol, SymbolGrid, StreamOf, SymbolCodewords, WellFormed, CountFits;
    ReadsBack(segs, qr.modules, qr.version, qr.ecl, qr.mask);
  }

  /**
   * The text is a C string. A symbol comes back exactly for texts up to the limit of their mode, and decodes to
   * the text; InvalidArgument is the length error.
   */
  method EncodeText(text: seq<uint8>, ecl: Ecc) returns (r: EncodeResult)
    requires 0 !in text
    ensures r.Encoded? <==> |text| <= MaxChars(TextMode(text), ecl)
    ensures ecl.Low? && |text| <= 2953 ==> r.Encoded?
    ensures r.InvalidArgument? <==> |text| > INT_MAX && TextMode(text).Byte?
    ensures r.Encoded? ==> ReadSymbol(r.qr.modules) == Some(TextSegments(text))
    ensures r.Encoded? ==> TextOf(TextSegments(text)) == Some(text)
    ensures r.Encoded? ==> r.qr.ecl.Ordinal() >= ecl.Ordinal()
  {
    hide ReadSymbol, Shows, WellFormed, TextOf, TotalBits, FitsIn, LeastVersion, BestOf, SymbolCodewords, TextMode,
         TextSegments, MaxChars;
    LimitsFitInt(TextMode(text), ecl);
    var segs := MakeSegments(text);
    if segs.None? {
      return InvalidArgument;
    }
    TextFitsExactly(text, ecl);
    if |text| <= 2953 { LowHoldsAnyText(text); }
    r := EncodeSegments(segs.value, ecl, 1, 40, -1, true);
    if r.Encoded? {
      ShownIsRead(r.qr, segs.value);
    }
  }

  /** A symbol comes back exactly for data up to the limit, and decodes to one byte segment holding the data. */
  method EncodeBinary(data: seq<uint8>, ecl: Ecc) returns (r: EncodeResult)
    ensures r.Encoded? <==> |data| <= MaxChars(Byte, ecl)
    ensures r.InvalidArgument? <==> |data| > INT_MAX
    ensures r.Encoded? ==> ReadSymbol(r.qr.modules) == Some([Segment(Byte, |data|, ByteBits(data))])
    ensures r.Encoded? ==> TextOf([Segment(Byte, |data|, ByteBits(data))]) == Some(data)
    ensures r.Encoded? ==> r.qr.ecl.Ordinal() >= ecl.Ordinal()
  {
    hide ReadSymbol, Shows, TotalBits, FitsIn, LeastVersion, BestOf, SymbolCodewords, ByteBits, ReadBytes, MaxChars;
    LimitsFitInt(Byte, ecl);
    var seg := MakeBytes(data);
    if seg.None? {
      return InvalidArgument;
    }
    ByteText(data);
    SegmentFitsExactly(seg.value, ecl);
    assert [seg.value][1..] == [] && data + [] == data;
    r := EncodeSegments([seg.value], ecl, 1, 40, -1, true);
    if r.Encoded? {
      ShownIsRead(r.qr, [seg.value]);
    }
  }
}
