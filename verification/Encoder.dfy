// encodeSegments: choosing the version and the error-correction level, concatenating the segments,
// padding to the capacity and building the symbol (deps/qrcodegen.cpp, lines 239-317).
module Encoder {
  import opened Bits
  import opened Options
  import opened ReedSolomon
  import opened Blocks
  import opened Versions
  import opened Patterns
  import opened Segments
  import opened QrSymbol

  datatype EncodeResult = InvalidArgument | DataTooLong | Encoded(qr: QrCode)

  function CapacityBits(v: nat, ecl: Ecc): nat
    requires ValidVersion(v)
  {
    8 * LayoutFor(v, ecl).TotalData()
  }

  lemma CapacityIs(v: nat, ecl: Ecc)
    requires ValidVersion(v)
    ensures CapacityBits(v, ecl) == DataCodewords(v, ecl) * 8
  {
    hide DataCodewords;
  }

  ghost predicate FitsIn(segs: seq<Segment>, v: nat, ecl: Ecc)
    requires ValidVersion(v)
  {
    TotalBits(segs, v) != -1 && TotalBits(segs, v) <= CapacityBits(v, ecl)
  }

  /** v is the least version of the range that the segments fit into. */
  ghost predicate LeastVersion(segs: seq<Segment>, ecl: Ecc, minVersion: nat, v: nat)
    requires 1 <= minVersion <= v <= 40
  {
    FitsIn(segs, v, ecl) && forall u :: minVersion <= u < v ==> !FitsIn(segs, u, ecl)
  }

  /** The level ends at the highest one the data fit, but never below the one asked for. */
  ghost predicate BoostedLevel(segs: seq<Segment>, v: nat, asked: Ecc, ecl: Ecc)
    requires ValidVersion(v)
  {
    && ecl.Ordinal() >= asked.Ordinal()
    && FitsIn(segs, v, ecl)
    && forall e: Ecc :: e.Ordinal() > ecl.Ordinal() ==> !FitsIn(segs, v, e)
  }

  // ---- padding ----

  /** n pad bytes, 0xEC and 0x11 in turn, starting with 0xEC when `first`. */
  function PadBytes(n: nat, first: bool): (bits: seq<bool>)
    ensures |bits| == 8 * n
  {
    if n == 0 then [] else PadByte(first) + PadBytes(n - 1, !first)
  }

  function PadByte(first: bool): (b: byte) {
    if first then [true, true, true, false, true, true, false, false]
    else [false, false, false, true, false, false, false, true]
  }

  lemma AlignmentFits(n: nat, capacity: nat)
    requires n <= capacity && capacity % 8 == 0
    ensures var aligned := n + (8 - n % 8) % 8; aligned <= capacity && (capacity - aligned) % 8 == 0
  {
    var k := (8 - n % 8) % 8;
    assert (n + k) % 8 == 0 && k < 8;
  }

  /** The message bits, a terminator of up to four zeros, zeros up to a byte, and pad bytes. */
  function Message(stream: seq<bool>, capacity: nat): (m: seq<bool>)
    requires |stream| <= capacity && capacity % 8 == 0
    ensures |m| == capacity
  {
    var terminated := stream + Zeros(if capacity - |stream| < 4 then capacity - |stream| else 4);
    AlignmentFits(|terminated|, capacity);
    var aligned := terminated + Zeros((8 - |terminated| % 8) % 8);
    aligned + PadBytes((capacity - |aligned|) / 8, true)
  }

  /** Behind the message bits a reader finds a terminator or fewer than four bits. */
  lemma MessageIsTerminated(stream: seq<bool>, capacity: nat)
    requires |stream| <= capacity && capacity % 8 == 0
    ensures Message(stream, capacity)[..|stream|] == stream
    ensures Terminated(Message(stream, capacity)[|stream|..])
  {
    var m := Message(stream, capacity);
    assert m[..|stream|] == stream;
    var tail := m[|stream|..];
    if |tail| >= 4 {
      var terminated := stream + Zeros(4);
      assert m[..|stream| + 4] == terminated;
      assert tail[..4] == Zeros(4) == [false, false, false, false];
    }
  }

  /**
   * Behind the message bits come zeros up to the first whole byte that leaves room for a terminator of four, or
   * up to the capacity, and then bytes 0xEC and 0x11 in turn.
   */
  lemma PaddingFormat(stream: seq<bool>, capacity: nat, i: nat)
    requires |stream| <= i < capacity && capacity % 8 == 0
    ensures var m, first := Message(stream, capacity), (|stream| + 11) / 8 * 8;
            m[i] == (i >= first && BitsOf(if (i - first) / 8 % 2 == 0 then 0xEC else 0x11, 8)[(i - first) % 8])
  {
    PadByteBits();
    hide PadByte, BitsOf;
    var first := (|stream| + 11) / 8 * 8;
    var z := if capacity - |stream| < 4 then capacity - |stream| else 4;
    var aligned := stream + Zeros(z) + Zeros((8 - (|stream| + z) % 8) % 8);
    AlignedLength(|stream|, z, capacity);
    hide PadBytes;
    if i >= |aligned| { PadBit((capacity - |aligned|) / 8, true, i - |aligned|); }
  }

  lemma AlignedLength(n: nat, z: nat, capacity: nat)
    requires n <= capacity && capacity % 8 == 0 && z == (if capacity - n < 4 then capacity - n else 4)
    ensures var aligned, first := n + z + (8 - (n + z) % 8) % 8, (n + 11) / 8 * 8;
            if capacity - n < 4 then aligned == capacity <= first else aligned == first
  {
  }

  lemma {:induction false} PadBit(n: nat, first: bool, i: nat)
    requires i < 8 * n
    ensures PadBytes(n, first)[i] == PadByte(if i / 8 % 2 == 0 then first else !first)[i % 8]
  {
    hide PadByte;
    OneByteOn(i);
    if i >= 8 { PadBit(n - 1, !first, i - 8); }
  }

  lemma OneByteOn(i: nat)
    ensures if i < 8 then i / 8 == 0 && i % 8 == i
            else (i - 8) % 8 == i % 8 && ((i - 8) / 8 % 2 == 0 <==> i / 8 % 2 != 0)
  {
    if i >= 8 { assert (i - 8) / 8 == i / 8 - 1; }
  }

  lemma PadByteBits()
    ensures BitsOf(0xEC, 8) == PadByte(true) && BitsOf(0x11, 8) == PadByte(false)
  {
    assert BitsOf(0xE, 4) == [true, true, true, false];
    assert BitsOf(0x1, 4) == [false, false, false, true];
  }

  lemma {:induction false} PadBytesAppend(n: nat, first: bool)
    ensures PadBytes(n + 1, first) == PadBytes(n, first) + PadByte(if n % 2 == 0 then first else !first)
  {
    hide PadByte;
    if n > 0 {
      PadBytesAppend(n - 1, !first);
      var a, b, c := PadByte(first), PadBytes(n - 1, !first), PadByte(if n % 2 == 0 then first else !first);
      assert a + (b + c) == (a + b) + c;
    } else {
      assert PadBytes(0, !first) == [] && PadByte(first) + [] == [] + PadByte(first);
    }
  }

  lemma NoPadBytes()
    ensures PadBytes(0, true) == []
  {
  }

  method AppendZeros(bb: BitBuffer, n: nat)
    requires n <= 31
    modifies bb
    ensures bb.bits == old(bb.bits) + Zeros(n)
  {
    var ok := bb.AppendBits(0, n);
    ZeroBits(n);
  }

  /** The alternating pad bytes, up to the capacity. */
  method AppendPadBytes(bb: BitBuffer, capacity: nat)
    requires |bb.bits| <= capacity && (capacity - |bb.bits|) % 8 == 0
    modifies bb
    ensures bb.bits == old(bb.bits) + PadBytes((capacity - |old(bb.bits)|) / 8, true)
  {
    hide PadByte, PadBytes;
    ghost var aligned := bb.bits;
    NoPadBytes();
    assert aligned + [] == aligned;
    var padByte := 0xEC;
    ghost var n := 0;
    while |bb.bits| < capacity
      invariant |aligned| + 8 * n == |bb.bits| <= capacity
      invariant bb.bits == aligned + PadBytes(n, true)
      invariant padByte == if n % 2 == 0 then 0xEC else 0x11
      decreases capacity - |bb.bits|
    {
      ghost var before := PadBytes(n, true);
      PadBytesAppend(n, true);
      AppendPadByte(bb, padByte);
      assert (aligned + before) + PadByte(n % 2 == 0) == aligned + (before + PadByte(n % 2 == 0));
      padByte := if padByte == 0xEC then 0x11 else 0xEC;
      n := n + 1;
    }
  }

  method AppendPadByte(bb: BitBuffer, padByte: nat)
    requires padByte == 0xEC || padByte == 0x11
    modifies bb
    ensures bb.bits == old(bb.bits) + PadByte(padByte == 0xEC)
  {
    PowersOfTwo();
    PadByteBits();
    var ok := bb.AppendBits(padByte, 8);
  }

  /** Terminator, byte alignment and alternating pad bytes. */
  method Pad(bb: BitBuffer, capacity: nat)
    requires |bb.bits| <= capacity && capacity % 8 == 0
    modifies bb
    ensures bb.bits == Message(old(bb.bits), capacity)
  {
    hide PadBytes;
    AppendZeros(bb, if 4 < capacity - |bb.bits| then 4 else capacity - |bb.bits|);
    AlignmentFits(|bb.bits|, capacity);
    AppendZeros(bb, (8 - |bb.bits| % 8) % 8);
    AppendPadBytes(bb, capacity);
  }

  /** Big-endian packing: bit i is or-ed into bit 7 - (i & 7) of byte i >> 3. */
  method PackBits(bits: seq<bool>) returns (dataCodewords: Poly)
    requires |bits| % 8 == 0
    ensures dataCodewords == Pack(bits)
  {
    var none: byte := Zeros(8);
    dataCodewords := seq(|bits| / 8, k => none);
    for i := 0 to |bits|
      invariant |dataCodewords| == |bits| / 8
      invariant forall k, j :: 0 <= k < |bits| / 8 && 0 <= j < 8 ==>
        dataCodewords[k][j] == (8 * k + j < i && bits[8 * k + j])
    {
      var b := dataCodewords[i / 8];
      dataCodewords := dataCodewords[i / 8 := b[i % 8 := b[i % 8] || bits[i]]];
    }
    forall k | 0 <= k < |dataCodewords|
      ensures dataCodewords[k] == Pack(bits)[k]
    {
      forall j | 0 <= j < 8 ensures dataCodewords[k][j] == Pack(bits)[k][j] {}
    }
  }

  method AppendSegment(bb: BitBuffer, seg: Segment, version: nat)
    requires CountFits(seg, version)
    modifies bb
    ensures bb.bits == old(bb.bits) + SegmentBits(seg, version)
  {
    hide BitsOf;
    PowersOfTwo();
    var cc := seg.mode.CharCountBits(version);
    PowGrows(cc, 16);
    ghost var header, count := BitsOf(seg.mode.ModeBits(), 4), BitsOf(seg.numChars, cc);
    ghost var before := bb.bits;
    assert ((before + header) + count) + seg.data == before + (header + count + seg.data);
    var ok := bb.AppendBits(seg.mode.ModeBits(), 4);
    ok := bb.AppendBits(seg.numChars, cc);
    bb.bits := bb.bits + seg.data;
  }

  /** Header, count and payload of every segment in turn. */
  method Concatenate(segs: seq<Segment>, version: nat) returns (bb: BitBuffer)
    requires forall s :: s in segs ==> CountFits(s, version)
    ensures fresh(bb) && bb.bits == StreamOf(segs, version)
  {
    hide SegmentBits, CountFits;
    bb := new BitBuffer();
    for k := 0 to |segs|
      invariant fresh(bb) && bb.bits == StreamOf(segs[..k], version)
    {
      AppendSegment(bb, segs[k], version);
      assert segs[..k + 1][..k] == segs[..k];
    }
    assert segs[..|segs|] == segs;
  }

  lemma {:induction false} PowGrows(a: nat, b: nat)
    requires a <= b
    ensures Pow2(a) <= Pow2(b)
    decreases b
  {
    if a < b { PowGrows(a, b - 1); }
  }

  // ---- encodeSegments ----

  /** Tries the versions of the range in ascending order. */
  method FindVersion(segs: seq<Segment>, ecl: Ecc, minVersion: nat, maxVersion: nat)
                     returns (version: Option<nat>, dataUsedBits: int)
    requires 1 <= minVersion <= maxVersion <= 40
    ensures version.None? ==> forall u :: minVersion <= u <= maxVersion ==> !FitsIn(segs, u, ecl)
    ensures version.Some? ==>
            minVersion <= version.value <= maxVersion && LeastVersion(segs, ecl, minVersion, version.value)
    ensures version.Some? ==> dataUsedBits == TotalBits(segs, version.value) && FitsIn(segs, version.value, ecl)
  {
    hide CapacityBits, DataCodewords, TotalBits;
    var v := minVersion;
    while true
      invariant minVersion <= v <= maxVersion
      invariant forall u :: minVersion <= u < v ==> !FitsIn(segs, u, ecl)
      decreases maxVersion - v
    {
      CapacityIs(v, ecl);
      var dataCapacityBits := DataCodewords(v, ecl) * 8;
      dataUsedBits := GetTotalBits(segs, v);
      if dataUsedBits != -1 && dataUsedBits <= dataCapacityBits {
        return Some(v), dataUsedBits;
      }
      if v >= maxVersion {
        return None, dataUsedBits;
      }
      v := v + 1;
    }
  }

  /** Raises the level while the data still fit: medium, quartile, high. */
  method BoostLevel(segs: seq<Segment>, version: nat, ecl: Ecc, dataUsedBits: int) returns (level: Ecc)
    requires ValidVersion(version) && dataUsedBits == TotalBits(segs, version) && FitsIn(segs, version, ecl)
    ensures BoostedLevel(segs, version, ecl, level) && FitsIn(segs, version, level)
  {
    hide CapacityBits, DataCodewords, TotalBits;
    CapacityIs(version, Medium);
    CapacityIs(version, Quartile);
    CapacityIs(version, High);
    level := ecl;
    if dataUsedBits <= DataCodewords(version, Medium) * 8 {
      level := Medium;
    }
    if dataUsedBits <= DataCodewords(version, Quartile) * 8 {
      level := Quartile;
    }
    if dataUsedBits <= DataCodewords(version, High) * 8 {
      level := High;
    }
  }

  lemma StreamFits(segs: seq<Segment>, v: nat, ecl: Ecc)
    requires ValidVersion(v) && FitsIn(segs, v, ecl)
    ensures forall s :: s in segs ==> CountFits(s, v)
    ensures |StreamOf(segs, v)| == TotalBits(segs, v) <= CapacityBits(v, ecl)
  {
    hide LayoutFor, DataCodewords;
  }

  /** The codewords of a bit stream under a layout. */
  ghost function CodewordsFor(l: Layout, stream: seq<bool>): Poly
    requires l.Valid() && |stream| <= 8 * l.TotalData()
  {
    Interleaved(l, Pack(Message(stream, 8 * l.TotalData())))
  }

  /** The codewords of the finished symbol. */
  ghost function SymbolCodewords(segs: seq<Segment>, v: nat, ecl: Ecc): Poly
    requires ValidVersion(v) && |StreamOf(segs, v)| <= CapacityBits(v, ecl)
  {
    CodewordsFor(LayoutFor(v, ecl), StreamOf(segs, v))
  }

  lemma CodewordsAre(l: Layout, stream: seq<bool>, data: Poly)
    requires l.Valid() && |stream| <= 8 * l.TotalData()
    requires data == Pack(Message(stream, 8 * l.TotalData()))
    ensures |data| == l.TotalData() && CodewordsFor(l, stream) == Interleaved(l, data)
  {
    hide Message, Interleaved;
  }

  lemma SymbolCodewordsAre(segs: seq<Segment>, v: nat, ecl: Ecc)
    requires ValidVersion(v) && |StreamOf(segs, v)| <= CapacityBits(v, ecl)
    ensures LayoutFor(v, ecl).Valid() && CapacityBits(v, ecl) == 8 * LayoutFor(v, ecl).TotalData()
    ensures SymbolCodewords(segs, v, ecl) == CodewordsFor(LayoutFor(v, ecl), StreamOf(segs, v))
  {
    hide LayoutFor, CodewordsFor, StreamOf, RawLen, RawCodewords, DataCodewords;
  }

  /** The symbol's modules are those of the segments' codewords under its version, level and mask. */
  ghost predicate Shows(qr: QrCode, segs: seq<Segment>)
    reads qr
  {
    && ValidVersion(qr.version) && 0 <= qr.mask < 8
    && (forall s :: s in segs ==> CountFits(s, qr.version))
    && |StreamOf(segs, qr.version)| <= CapacityBits(qr.version, qr.ecl)
    && qr.modules == SymbolGrid(qr.version, qr.ecl, SymbolCodewords(segs, qr.version, qr.ecl), qr.mask)
  }

  lemma ShowsSegments(qr: QrCode, segs: seq<Segment>)
    requires ValidVersion(qr.version) && 0 <= qr.mask < 8
    requires forall s :: s in segs ==> CountFits(s, qr.version)
    requires |StreamOf(segs, qr.version)| <= CapacityBits(qr.version, qr.ecl)
    requires qr.modules == SymbolGrid(qr.version, qr.ecl, SymbolCodewords(segs, qr.version, qr.ecl), qr.mask)
    ensures Shows(qr, segs)
  {
    hide CountFits, StreamOf, CapacityBits, SymbolGrid, SymbolCodewords;
  }

  method EncodeSegments(segs: seq<Segment>, ecl: Ecc, minVersion: int, maxVersion: int, mask: int, boostEcl: bool)
                        returns (r: EncodeResult)
    ensures r.InvalidArgument? <==> !(1 <= minVersion <= maxVersion <= 40) || mask < -1 || mask > 7
    ensures r.DataTooLong? ==> forall u :: minVersion <= u <= maxVersion ==> !FitsIn(segs, u, ecl)
    ensures r.Encoded? ==> exists u :: minVersion <= u <= maxVersion && FitsIn(segs, u, ecl)
    ensures r.Encoded? ==> minVersion <= r.qr.version <= maxVersion
    ensures r.Encoded? ==> LeastVersion(segs, ecl, minVersion, r.qr.version)
    ensures r.Encoded? ==> if boostEcl then BoostedLevel(segs, r.qr.version, ecl, r.qr.ecl) else r.qr.ecl == ecl
    ensures r.Encoded? ==> forall u :: minVersion <= u < r.qr.version ==> !FitsIn(segs, u, ecl)
    ensures r.Encoded? && boostEcl ==>
              && r.qr.ecl.Ordinal() >= ecl.Ordinal() && FitsIn(segs, r.qr.version, r.qr.ecl)
              && forall e: Ecc :: e.Ordinal() > r.qr.ecl.Ordinal() ==> !FitsIn(segs, r.qr.version, e)
    ensures r.Encoded? ==> Shows(r.qr, segs) && (mask != -1 ==> r.qr.mask == mask)
    ensures r.Encoded? && mask == -1 ==>
      BestOf(r.qr.version, r.qr.ecl, SymbolCodewords(segs, r.qr.version, r.qr.ecl), r.qr.mask, 8)
  {
    hide LayoutFor, DataCodewords, RawCodewords, TotalBits, FitsIn, CapacityBits, BestOf, Shows, SymbolGrid,
         SymbolCodewords, StreamOf;
    if !(1 <= minVersion <= maxVersion <= 40) || mask < -1 || mask > 7 {
      return InvalidArgument;
    }
    var found, dataUsedBits := FindVersion(segs, ecl, minVersion, maxVersion);
    if found.None? {
      return DataTooLong;
    }
    var version := found.value;
    var level := ecl;
    if boostEcl {
      level := BoostLevel(segs, version, ecl, dataUsedBits);
    }
    StreamFits(segs, version, level);
    var qr := BuildSymbol(segs, version, level, mask);
    r := Encoded(qr);
  }

  /** Concatenates, pads, packs and draws. */
  method BuildSymbol(segs: seq<Segment>, version: nat, level: Ecc, mask: int) returns (qr: QrCode)
    requires ValidVersion(version) && -1 <= mask <= 7
    requires |StreamOf(segs, version)| <= CapacityBits(version, level)
    requires forall s :: s in segs ==> CountFits(s, version)
    ensures qr.version == version && qr.ecl == level && Shows(qr, segs)
    ensures mask != -1 ==> qr.mask == mask
    ensures mask == -1 ==> BestOf(version, level, SymbolCodewords(segs, version, level), qr.mask, 8)
  {
    hide *;
    CapacityIs(version, level);
    var bb := Concatenate(segs, version);
    Pad(bb, DataCodewords(version, level) * 8);
    var dataCodewords := PackBits(bb.bits);
    SymbolCodewordsAre(segs, version, level);
    CodewordsAre(LayoutFor(version, level), StreamOf(segs, version), dataCodewords);
    qr := new QrCode(version, level, dataCodewords, mask);
    ShowsSegments(qr, segs);
  }
}
