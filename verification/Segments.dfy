// Segments: the makers for numeric, alphanumeric, byte and ECI data, and a reference reader that
// parses the concatenated bit stream (deps/qrcodegen.cpp, lines 38-193; ISO/IEC 18004:2015,
// sections 7.4.2 to 7.4.5).
module Segments {
  import opened Bits
  import opened Options

  const INT_MAX: nat := 0x7FFF_FFFF

  datatype Mode = Numeric | Alphanumeric | Byte | Kanji | Eci {
    function ModeBits(): (b: nat)
      ensures 0 < b < 16
    {
      match this
      case Numeric => 1
      case Alphanumeric => 2
      case Byte => 4
      case Kanji => 8
      case Eci => 7
    }

    /** The width of the character count field, by version range. */
    function CharCountBits(ver: nat): (b: nat)
      ensures b <= 16
    {
      var range := (ver + 7) / 17;
      match this
      case Numeric => if range == 0 then 10 else if range == 1 then 12 else 14
      case Alphanumeric => if range == 0 then 9 else if range == 1 then 11 else 13
      case Byte => if range == 0 then 8 else 16
      case Kanji => if range == 0 then 8 else if range == 1 then 10 else 12
      case Eci => 0
    }
  }

  datatype Segment = Segment(mode: Mode, numChars: nat, data: seq<bool>)

  // ---- numeric and alphanumeric packing ----

  /** Packed modes write groups of characters as one number in base 10 or 45. */
  predicate Packed(m: Mode) { m.Numeric? || m.Alphanumeric? }

  function Base(m: Mode): nat { if m.Numeric? then 10 else 45 }

  function Group(m: Mode): nat { if m.Numeric? then 3 else 2 }

  /** The bits of a group of k characters. */
  function Width(m: Mode, k: nat): nat {
    if m.Numeric? then (if k == 3 then 10 else k * 3 + 1) else (if k == 2 then 11 else 6)
  }

  /** The number a group of character values stands for. */
  function Radix(base: nat, vals: seq<nat>): nat {
    if vals == [] then 0 else Radix(base, vals[..|vals| - 1]) * base + vals[|vals| - 1]
  }

  lemma RadixAppend(base: nat, vals: seq<nat>, d: nat)
    ensures Radix(base, vals + [d]) == Radix(base, vals) * base + d
  {
    assert (vals + [d])[..|vals|] == vals;
  }

  /** The characters of the first group out of n. */
  function First(m: Mode, n: nat): nat { if n < Group(m) then n else Group(m) }

  function PackedLength(m: Mode, n: nat): nat {
    n / Group(m) * Width(m, Group(m)) + (if n % Group(m) == 0 then 0 else Width(m, n % Group(m)))
  }

  function GroupBits(m: Mode, vals: seq<nat>): (bits: seq<bool>)
    ensures |bits| == Width(m, |vals|)
  {
    BitsOf(Radix(Base(m), vals), Width(m, |vals|))
  }

  /** Full groups first, then a group of the characters that remain. */
  function PackedBits(m: Mode, vals: seq<nat>): seq<bool> {
    if vals == [] then []
    else GroupBits(m, vals[..First(m, |vals|)]) + PackedBits(m, vals[First(m, |vals|)..])
  }

  lemma PackedOneGroup(m: Mode, group: seq<nat>)
    requires 0 < |group| <= Group(m)
    ensures PackedBits(m, group) == GroupBits(m, group)
  {
    assert group[..|group|] == group && group[|group|..] == [];
  }

  lemma PackedFirstGroup(m: Mode, group: seq<nat>, rest: seq<nat>)
    requires |group| == Group(m)
    ensures PackedBits(m, group + rest) == GroupBits(m, group) + PackedBits(m, rest)
  {
    assert (group + rest)[..Group(m)] == group && (group + rest)[Group(m)..] == rest;
  }

  lemma FullGroups(m: Mode, n: nat)
    requires n > 0 && n % Group(m) == 0
    ensures n >= Group(m) && (n - Group(m)) % Group(m) == 0
  {
    if m.Numeric? { assert n % 3 == 0; } else { assert n % 2 == 0; }
  }

  lemma PackedEmpty(m: Mode)
    ensures PackedBits(m, []) == [] && Radix(Base(m), []) == 0
  {
  }

  lemma {:induction false} PackedBitsAppend(m: Mode, a: seq<nat>, b: seq<nat>)
    requires |a| % Group(m) == 0
    ensures PackedBits(m, a + b) == PackedBits(m, a) + PackedBits(m, b)
  {
    hide PackedBits, GroupBits;
    PackedEmpty(m);
    if a == [] {
      assert a + b == b;
    } else {
      FullGroups(m, |a|);
      var first, rest := a[..Group(m)], a[Group(m)..];
      PackedBitsAppend(m, rest, b);
      PackedFirstGroup(m, first, rest);
      PackedFirstGroup(m, first, rest + b);
      assert a == first + rest && a + b == first + (rest + b);
      var g, p, q := GroupBits(m, first), PackedBits(m, rest), PackedBits(m, b);
      assert g + (p + q) == (g + p) + q;
    }
  }

  ghost predicate Below(base: nat, vals: seq<nat>) { forall i :: 0 <= i < |vals| ==> vals[i] < base }

  lemma BelowAppend(base: nat, vals: seq<nat>, d: nat)
    requires d < base
    ensures Below(base, []) && (Below(base, vals) ==> Below(base, vals + [d]))
  {
  }

  lemma GroupFits(m: Mode, vals: seq<nat>)
    requires Packed(m) && Below(Base(m), vals) && |vals| <= Group(m)
    ensures Radix(Base(m), vals) < Pow2(Width(m, |vals|)) < 0x1_0000
  {
    PowersOfTwo();
    if |vals| == 1 {
      assert Radix(Base(m), vals[..0]) == 0;
    } else if |vals| == 2 {
      assert vals[..1][..0] == [];
      assert Radix(Base(m), vals[..1]) == vals[0];
    } else if |vals| == 3 {
      assert vals[..2][..1] == vals[..1] && vals[..1][..0] == [];
      assert Radix(10, vals[..1]) == vals[0];
      assert Radix(10, vals[..2]) == vals[0] * 10 + vals[1];
    }
  }

  /** Appends one group of accumCount characters. */
  method AppendGroup(m: Mode, bb: BitBuffer, accumData: nat, width: int, ghost before: seq<nat>, ghost group: seq<nat>)
    requires Packed(m) && |before| % Group(m) == 0 && bb.bits == PackedBits(m, before)
    requires 0 < |group| <= Group(m) && Below(Base(m), group)
    requires accumData == Radix(Base(m), group) && width == Width(m, |group|)
    modifies bb
    ensures bb.bits == PackedBits(m, before + group)
  {
    GroupFits(m, group);
    var ok := bb.AppendBits(accumData, width);
    PackedOneGroup(m, group);
    PackedBitsAppend(m, before, group);
  }

  // ---- numeric ----

  predicate IsDigit(c: uint8) { '0' as int <= c <= '9' as int }

  predicate AllDigits(text: seq<uint8>) { forall i :: 0 <= i < |text| ==> IsDigit(text[i]) }

  function DigitValues(text: seq<uint8>): (vals: seq<nat>)
    requires AllDigits(text)
    ensures |vals| == |text| && Below(10, vals)
  {
    seq(|text|, i requires 0 <= i < |text| => text[i] - '0' as int)
  }

  lemma DigitValuesNext(digits: seq<uint8>, k: nat, before: seq<nat>, group: seq<nat>)
    requires k < |digits| && AllDigits(digits[..k]) && IsDigit(digits[k]) && before + group == DigitValues(digits[..k])
    ensures AllDigits(digits[..k + 1])
    ensures before + (group + [digits[k] - '0' as int]) == DigitValues(digits[..k + 1])
  {
    assert digits[..k + 1] == digits[..k] + [digits[k]];
    assert before + (group + [digits[k] - '0' as int]) == (before + group) + [digits[k] - '0' as int];
  }

  lemma NoDigits(digits: seq<uint8>)
    ensures AllDigits(digits[..0]) && DigitValues(digits[..0]) == []
  {
  }

  lemma NotADigit(digits: seq<uint8>, k: nat)
    requires k < |digits| && !IsDigit(digits[k])
    ensures !AllDigits(digits)
  {
  }

  /** Succeeds exactly on strings of digits. */
  method MakeNumeric(digits: seq<uint8>) returns (r: Option<Segment>)
    ensures r.Some? <==> AllDigits(digits)
    ensures r.Some? ==> r.value == Segment(Numeric, |digits|, PackedBits(Numeric, DigitValues(digits)))
  {
    hide PackedBits, Radix, DigitValues, BitsOf, AllDigits, Below;
    var bb := new BitBuffer();
    var accumData, accumCount, charCount := 0, 0, 0;
    ghost var before, group: seq<nat> := [], [];
    PackedEmpty(Numeric);
    BelowAppend(10, [], 0);
    NoDigits(digits);
    while charCount < |digits|
      invariant charCount <= |digits| && accumCount == |group| < 3 && |before| % 3 == 0
      invariant bb.bits == PackedBits(Numeric, before) && accumData == Radix(10, group)
      invariant Below(10, group)
      invariant AllDigits(digits[..charCount]) && before + group == DigitValues(digits[..charCount])
    {
      var c := digits[charCount];
      if !IsDigit(c) {
        NotADigit(digits, charCount);
        return None;
      }
      RadixAppend(10, group, c - '0' as int);
      BelowAppend(10, group, c - '0' as int);
      group := group + [c - '0' as int];
      accumData := accumData * 10 + (c - '0' as int);
      accumCount := accumCount + 1;
      DigitValuesNext(digits, charCount, before, group[..|group| - 1]);
      if accumCount == 3 {
        AppendGroup(Numeric, bb, accumData, 10, before, group);
        before, group := before + group, [];
        PackedEmpty(Numeric);
        accumData := 0;
        accumCount := 0;
      }
      charCount := charCount + 1;
    }
    assert digits[..charCount] == digits;
    if accumCount > 0 {
      AppendGroup(Numeric, bb, accumData, accumCount * 3 + 1, before, group);
    }
    assert before + [] == before;
    r := Some(Segment(Numeric, charCount, bb.bits));
  }

  // ---- alphanumeric ----

  const ALPHANUMERIC_CHARSET := "0123456789" + "ABCDEFGHIJKLMNOPQRSTUVWXYZ" + " $%*+-./:"

  /** The first position of c in the character set at or after k, as strchr finds it. */
  function CharIndex(c: uint8, k: nat): (i: Option<nat>)
    requires k <= |ALPHANUMERIC_CHARSET|
    ensures i.Some? ==> i.value < 45 && ALPHANUMERIC_CHARSET[i.value] as int == c
    decreases |ALPHANUMERIC_CHARSET| - k
  {
    if k == |ALPHANUMERIC_CHARSET| then None
    else if ALPHANUMERIC_CHARSET[k] as int == c then Some(k)
    else CharIndex(c, k + 1)
  }

  predicate AllAlphanumeric(text: seq<uint8>) { forall i :: 0 <= i < |text| ==> CharIndex(text[i], 0).Some? }

  function CharValues(text: seq<uint8>): (vals: seq<nat>)
    requires AllAlphanumeric(text)
    ensures |vals| == |text| && Below(45, vals)
  {
    seq(|text|, i requires 0 <= i < |text| => CharIndex(text[i], 0).value)
  }

  lemma CharValuesNext(text: seq<uint8>, k: nat, before: seq<nat>, group: seq<nat>)
    requires k < |text| && AllAlphanumeric(text[..k]) && CharIndex(text[k], 0).Some?
    requires before + group == CharValues(text[..k])
    ensures AllAlphanumeric(text[..k + 1])
    ensures before + (group + [CharIndex(text[k], 0).value]) == CharValues(text[..k + 1])
  {
    assert text[..k + 1] == text[..k] + [text[k]];
    assert before + (group + [CharIndex(text[k], 0).value]) == (before + group) + [CharIndex(text[k], 0).value];
  }

  lemma NoChars(text: seq<uint8>)
    ensures AllAlphanumeric(text[..0]) && CharValues(text[..0]) == []
  {
  }

  lemma NotInCharset(text: seq<uint8>, k: nat)
    requires k < |text| && CharIndex(text[k], 0).None?
    ensures !AllAlphanumeric(text)
  {
  }

  /** Succeeds exactly on strings over the alphanumeric character set. */
  method MakeAlphanumeric(text: seq<uint8>) returns (r: Option<Segment>)
    ensures r.Some? <==> AllAlphanumeric(text)
    ensures r.Some? ==> r.value == Segment(Alphanumeric, |text|, PackedBits(Alphanumeric, CharValues(text)))
  {
    hide PackedBits, Radix, CharValues, BitsOf, AllAlphanumeric, Below, CharIndex;
    var bb := new BitBuffer();
    var accumData, accumCount, charCount := 0, 0, 0;
    ghost var before, group: seq<nat> := [], [];
    PackedEmpty(Alphanumeric);
    BelowAppend(45, [], 0);
    NoChars(text);
    while charCount < |text|
      invariant charCount <= |text| && accumCount == |group| < 2 && |before| % 2 == 0
      invariant bb.bits == PackedBits(Alphanumeric, before) && accumData == Radix(45, group)
      invariant Below(45, group)
      invariant AllAlphanumeric(text[..charCount]) && before + group == CharValues(text[..charCount])
    {
      var temp := CharIndex(text[charCount], 0);
      if temp.None? {
        NotInCharset(text, charCount);
        return None;
      }
      RadixAppend(45, group, temp.value);
      BelowAppend(45, group, temp.value);
      group := group + [temp.value];
      accumData := accumData * 45 + temp.value;
      accumCount := accumCount + 1;
      CharValuesNext(text, charCount, before, group[..|group| - 1]);
      if accumCount == 2 {
        AppendGroup(Alphanumeric, bb, accumData, 11, before, group);
        before, group := before + group, [];
        PackedEmpty(Alphanumeric);
        accumData := 0;
        accumCount := 0;
      }
      charCount := charCount + 1;
    }
    assert text[..charCount] == text;
    if accumCount > 0 {
      AppendGroup(Alphanumeric, bb, accumData, 6, before, group);
    }
    assert before + [] == before;
    r := Some(Segment(Alphanumeric, charCount, bb.bits));
  }

  // ---- reading packed payloads ----

  /** The k base-`base` digits of a number, most significant first. */
  function DigitsOf(base: nat, v: nat, k: nat): (digits: seq<nat>)
    requires base > 0
    ensures |digits| == k
    decreases k
  {
    if k == 0 then [] else DigitsOf(base, v / base, k - 1) + [v % base]
  }

  lemma {:induction false} DigitsOfRadix(base: nat, vals: seq<nat>)
    requires base > 0 && Below(base, vals)
    ensures DigitsOf(base, Radix(base, vals), |vals|) == vals
  {
    if vals != [] {
      var rest, d := vals[..|vals| - 1], vals[|vals| - 1];
      DigitsOfRadix(base, rest);
      DivideBack(base, Radix(base, rest), d);
      assert vals == rest + [d];
    }
  }

  lemma DivideBack(base: nat, q: nat, d: nat)
    requires d < base
    ensures (q * base + d) / base == q && (q * base + d) % base == d
  {
    var r := (q * base + d) / base;
    assert base * r <= q * base + d < base * (r + 1);
    FactorLess(r, q + 1, base);
    FactorLess(q, r + 1, base);
  }

  lemma FactorLess(a: nat, b: nat, base: nat)
    requires base * a < base * b
    ensures a < b
  {
  }

  /** Reads n character values back from a packed payload. */
  function ReadPacked(m: Mode, bits: seq<bool>, n: nat): Option<seq<nat>>
    requires Packed(m)
    decreases n
  {
    if n == 0 then Some([])
    else
      var k := First(m, n);
      if |bits| < Width(m, k) then None
      else
        var rest := ReadPacked(m, bits[Width(m, k)..], n - k);
        if rest.None? then None
        else Some(DigitsOf(Base(m), ValueOf(bits[..Width(m, k)]), k) + rest.value)
  }

  /** A packed payload decodes to the values it was made from. */
  lemma {:induction false} PackedReadsBack(m: Mode, vals: seq<nat>)
    requires Packed(m) && Below(Base(m), vals)
    ensures ReadPacked(m, PackedBits(m, vals), |vals|) == Some(vals)
  {
    hide BitsOf, ValueOf, Radix, DigitsOf, Pow2;
    if vals != [] {
      var k := First(m, |vals|);
      var group, rest := vals[..k], vals[k..];
      var bits := PackedBits(m, vals);
      assert bits[..Width(m, k)] == GroupBits(m, group);
      assert bits[Width(m, k)..] == PackedBits(m, rest);
      GroupFits(m, group);
      ValueOfBitsOf(Radix(Base(m), group), Width(m, k));
      DigitsOfRadix(Base(m), group);
      PackedReadsBack(m, rest);
      assert vals == group + rest;
    }
  }

  lemma {:induction false} PackedBitsLength(m: Mode, vals: seq<nat>)
    ensures |PackedBits(m, vals)| == PackedLength(m, |vals|)
  {
    if vals != [] {
      var k := First(m, |vals|);
      PackedBitsLength(m, vals[k..]);
      PackedLengthStep(m, |vals|);
      assert |vals[..k]| == k;
    }
  }

  lemma PackedLengthStep(m: Mode, n: nat)
    requires n > 0
    ensures PackedLength(m, n) == Width(m, First(m, n)) + PackedLength(m, n - First(m, n))
  {
    var g := Group(m);
    if n >= g {
      if m.Numeric? { ThreeLess(n); } else { TwoLess(n); }
      OneMore((n - g) / g, Width(m, g));
    } else {
      assert n / g == 0 && n % g == n;
    }
  }

  lemma TwoLess(n: nat)
    requires n >= 2
    ensures n / 2 == (n - 2) / 2 + 1 && n % 2 == (n - 2) % 2
  {
  }

  lemma ThreeLess(n: nat)
    requires n >= 3
    ensures n / 3 == (n - 3) / 3 + 1 && n % 3 == (n - 3) % 3
  {
  }

  lemma OneMore(k: nat, w: nat)
    ensures (k + 1) * w == w + k * w
  {
  }

  // ---- bytes ----

  method MakeBytes(data: seq<uint8>) returns (r: Option<Segment>)
    ensures r.Some? <==> |data| <= INT_MAX
    ensures r.Some? ==> r.value == Segment(Byte, |data|, ByteBits(data))
  {
    if |data| > INT_MAX {
      return None;
    }
    var bb := new BitBuffer();
    for k := 0 to |data|
      invariant bb.bits == ByteBits(data[..k])
    {
      PowersOfTwo();
      var ok := bb.AppendBits(data[k], 8);
      assert data[..k + 1][..k] == data[..k];
    }
    assert data[..|data|] == data;
    r := Some(Segment(Byte, |data|, bb.bits));
  }

  // ---- ECI ----

  /** One, two or three bytes, told apart by their leading bits. */
  function EciBits(v: nat): seq<bool> {
    if v < 0x80 then BitsOf(v, 8)
    else if v < 0x4000 then BitsOf(2, 2) + BitsOf(v, 14)
    else BitsOf(6, 3) + BitsOf(v, 21)
  }

  method MakeEci(assignVal: int) returns (r: Option<Segment>)
    ensures r.Some? <==> 0 <= assignVal < 1000000
    ensures r.Some? ==> r.value == Segment(Eci, 0, EciBits(assignVal))
  {
    if assignVal < 0 || assignVal >= 1000000 {
      return None;
    }
    PowersOfTwo();
    var bb := new BitBuffer();
    var ok;
    if assignVal < 0x80 {
      ok := bb.AppendBits(assignVal, 8);
    } else if assignVal < 0x4000 {
      ok := bb.AppendBits(2, 2);
      ok := bb.AppendBits(assignVal, 14);
    } else {
      ok := bb.AppendBits(6, 3);
      ok := bb.AppendBits(assignVal, 21);
    }
    r := Some(Segment(Eci, 0, bb.bits));
  }

  /** The length an ECI payload announces with its leading bits. */
  function EciLength(bits: seq<bool>): Option<nat> {
    if |bits| >= 1 && !bits[0] then Some(8)
    else if |bits| >= 2 && bits[0] && !bits[1] then Some(16)
    else if |bits| >= 3 && bits[0] && bits[1] && !bits[2] then Some(24)
    else None
  }

  function ReadEci(bits: seq<bool>): Option<nat> {
    match EciLength(bits)
    case None => None
    case Some(len) =>
      if len > |bits| then None
      else Some(ValueOf(bits[if len == 8 then 0 else if len == 16 then 2 else 3..len]))
  }

  lemma EciOneByte(v: nat)
    requires v < 0x80
    ensures var bits := BitsOf(v, 8); EciLength(bits) == Some(8) && ReadEci(bits) == Some(v)
  {
    hide BitsOf, ValueOf, Pow2, Shr;
    PowersOfTwo();
    BitsOfAt(v, 8, 0);
    ShrZeroIffSmall(v, 7);
    ValueOfBitsOf(v, 8);
    var bits := BitsOf(v, 8);
    assert bits[0..8] == bits;
  }

  lemma EciPrefixes()
    ensures BitsOf(2, 2) == [true, false] && BitsOf(6, 3) == [true, true, false]
  {
  }

  lemma EciTwoBytes(v: nat)
    requires v < 0x4000
    ensures var bits := BitsOf(2, 2) + BitsOf(v, 14); EciLength(bits) == Some(16) && ReadEci(bits) == Some(v)
  {
    hide BitsOf, ValueOf, Pow2;
    PowersOfTwo();
    EciPrefixes();
    ValueOfBitsOf(v, 14);
    var payload := BitsOf(v, 14);
    assert (BitsOf(2, 2) + payload)[2..16] == payload;
  }

  lemma EciThreeBytes(v: nat)
    requires v < 1000000
    ensures var bits := BitsOf(6, 3) + BitsOf(v, 21); EciLength(bits) == Some(24) && ReadEci(bits) == Some(v)
  {
    hide BitsOf, ValueOf, Pow2;
    PowersOfTwo();
    EciPrefixes();
    ValueOfBitsOf(v, 21);
    var payload := BitsOf(v, 21);
    assert (BitsOf(6, 3) + payload)[3..24] == payload;
  }

  /** An ECI payload announces its own length and decodes to its assignment value. */
  lemma EciReadsBack(v: nat)
    requires v < 1000000
    ensures EciLength(EciBits(v)) == Some(|EciBits(v)|)
    ensures ReadEci(EciBits(v)) == Some(v)
  {
    if v < 0x80 {
      EciOneByte(v);
    } else if v < 0x4000 {
      EciTwoBytes(v);
    } else {
      EciThreeBytes(v);
    }
  }

  // ---- text ----

  predicate TextualMode(m: Mode) { m.Numeric? || m.Alphanumeric? || m.Byte? }

  /** Numeric before alphanumeric before bytes. */
  function TextMode(text: seq<uint8>): (m: Mode)
    ensures TextualMode(m)
  {
    if AllDigits(text) then Numeric else if AllAlphanumeric(text) then Alphanumeric else Byte
  }

  /** The payload of a text in its mode. */
  function TextData(text: seq<uint8>): seq<bool> {
    if AllDigits(text) then PackedBits(Numeric, DigitValues(text))
    else if AllAlphanumeric(text) then PackedBits(Alphanumeric, CharValues(text))
    else ByteBits(text)
  }

  /** No segment for an empty text and one for any other. */
  function TextSegments(text: seq<uint8>): seq<Segment> {
    if text == [] then [] else [Segment(TextMode(text), |text|, TextData(text))]
  }

  /** The most compact mode the whole text fits; the text is a C string, so it holds no NUL. */
  method MakeSegments(text: seq<uint8>) returns (r: Option<seq<Segment>>)
    requires 0 !in text
    ensures r.None? <==> |text| > INT_MAX && TextMode(text).Byte?
    ensures r.Some? ==> r.value == TextSegments(text)
    ensures r.Some? ==> (forall s :: s in r.value ==> WellFormed(s)) && TextOf(r.value) == Some(text)
  {
    hide TextMode, TextData, SegmentText, WellFormed;
    if |text| == 0 {
      return Some([]);
    }
    var seg := MakeSegment(text);
    if seg.None? {
      return None;
    }
    assert [seg.value][1..] == [] && text + [] == text;
    r := Some([seg.value]);
  }

  method MakeSegment(text: seq<uint8>) returns (r: Option<Segment>)
    ensures r.None? <==> |text| > INT_MAX && TextMode(text).Byte?
    ensures r.Some? ==> r.value == Segment(TextMode(text), |text|, TextData(text))
    ensures r.Some? ==> WellFormed(r.value) && SegmentText(r.value) == Some(text)
  {
    hide PackedBits, ReadPacked, PackedLength, SegmentText, ByteBits;
    if AllDigits(text) {
      r := MakeNumeric(text);
      NumericText(text);
    } else if AllAlphanumeric(text) {
      r := MakeAlphanumeric(text);
      AlphanumericText(text);
    } else {
      r := MakeBytes(text);
      ByteText(text);
    }
  }

  lemma ByteText(text: seq<uint8>)
    ensures var s := Segment(Byte, |text|, ByteBits(text)); WellFormed(s) && SegmentText(s) == Some(text)
  {
    BytesReadBack(text);
  }

  function DigitChars(vals: seq<nat>): seq<int> {
    seq(|vals|, i requires 0 <= i < |vals| => '0' as int + vals[i])
  }

  function CharsetChars(vals: seq<nat>): seq<int> {
    seq(|vals|, i requires 0 <= i < |vals| =>
      if vals[i] < |ALPHANUMERIC_CHARSET| then ALPHANUMERIC_CHARSET[vals[i]] as int else 0)
  }

  /** The characters a segment decodes to, for the modes a reader turns into text. */
  function SegmentText(s: Segment): Option<seq<int>> {
    match s.mode
    case Numeric =>
      (match ReadPacked(Numeric, s.data, s.numChars)
       case None => None
       case Some(vals) => Some(DigitChars(vals)))
    case Alphanumeric =>
      (match ReadPacked(Alphanumeric, s.data, s.numChars)
       case None => None
       case Some(vals) => Some(CharsetChars(vals)))
    case Byte => if |s.data| % 8 == 0 then Some(ReadBytes(s.data)) else None
    case _ => None
  }

  function TextOf(segs: seq<Segment>): Option<seq<int>> {
    if segs == [] then Some([])
    else
      var first, rest := SegmentText(segs[0]), TextOf(segs[1..]);
      if first.None? || rest.None? then None else Some(first.value + rest.value)
  }

  lemma NumericText(text: seq<uint8>)
    requires AllDigits(text)
    ensures var s := Segment(Numeric, |text|, PackedBits(Numeric, DigitValues(text)));
            WellFormed(s) && SegmentText(s) == Some(text)
  {
    assert DigitChars(DigitValues(text)) == text;
    PackedReadsBack(Numeric, DigitValues(text));
    PackedBitsLength(Numeric, DigitValues(text));
  }

  lemma AlphanumericText(text: seq<uint8>)
    requires AllAlphanumeric(text)
    ensures var s := Segment(Alphanumeric, |text|, PackedBits(Alphanumeric, CharValues(text)));
            WellFormed(s) && SegmentText(s) == Some(text)
  {
    assert CharsetChars(CharValues(text)) == text;
    PackedReadsBack(Alphanumeric, CharValues(text));
    PackedBitsLength(Alphanumeric, CharValues(text));
  }

  // ---- the bit stream and its reader ----

  /** The payload length a reader derives from the mode, the count field and the bits that follow. */
  function PayloadLength(m: Mode, n: nat, bits: seq<bool>): Option<nat> {
    match m
    case Numeric => Some(PackedLength(m, n))
    case Alphanumeric => Some(PackedLength(m, n))
    case Byte => Some(8 * n)
    case Kanji => Some(13 * n)
    case Eci => EciLength(bits)
  }

  /** The payload has the length its own header announces. */
  predicate WellFormed(s: Segment) {
    PayloadLength(s.mode, s.numChars, s.data) == Some(|s.data|)
  }

  function SegmentBits(s: Segment, ver: nat): seq<bool> {
    BitsOf(s.mode.ModeBits(), 4) + BitsOf(s.numChars, s.mode.CharCountBits(ver)) + s.data
  }

  function StreamOf(segs: seq<Segment>, ver: nat): seq<bool> {
    if segs == [] then [] else StreamOf(segs[..|segs| - 1], ver) + SegmentBits(segs[|segs| - 1], ver)
  }

  lemma {:induction false} StreamOfFirst(segs: seq<Segment>, ver: nat)
    requires segs != []
    ensures StreamOf(segs, ver) == SegmentBits(segs[0], ver) + StreamOf(segs[1..], ver)
  {
    hide SegmentBits;
    var n := |segs| - 1;
    if n == 0 {
      assert segs[..0] == [] && segs[1..] == [];
    } else {
      StreamOfFirst(segs[..n], ver);
      assert segs[..n][1..] == segs[1..][..n - 1] && segs[1..][n - 1] == segs[n];
      var a, b, c := SegmentBits(segs[0], ver), StreamOf(segs[1..][..n - 1], ver), SegmentBits(segs[n], ver);
      assert (a + b) + c == a + (b + c);
    }
  }

  /** Every count fits its field at the version. */
  predicate CountFits(s: Segment, ver: nat) {
    s.numChars < Pow2(s.mode.CharCountBits(ver))
  }

  function ModeOf(bits: nat): Option<Mode> {
    match bits
    case 1 => Some(Numeric)
    case 2 => Some(Alphanumeric)
    case 4 => Some(Byte)
    case 8 => Some(Kanji)
    case 7 => Some(Eci)
    case _ => None
  }

  /** One segment and the bits behind it. */
  function ParseSegment(bits: seq<bool>, ver: nat): (r: Option<(Segment, seq<bool>)>)
    requires |bits| >= 4
    ensures r.Some? ==> |r.value.1| < |bits|
  {
    match ModeOf(ValueOf(bits[..4]))
    case None => None
    case Some(m) =>
      var cc := m.CharCountBits(ver);
      if |bits| < 4 + cc then None
      else
        var n, body := ValueOf(bits[4..4 + cc]), bits[4 + cc..];
        match PayloadLength(m, n, body)
        case None => None
        case Some(len) => if len > |body| then None else Some((Segment(m, n, body[..len]), body[len..]))
  }

  /** All segments up to a terminator, or to an end with fewer than four bits left. */
  function ParseAll(bits: seq<bool>, ver: nat): Option<seq<Segment>>
    decreases |bits|
  {
    if |bits| < 4 || ValueOf(bits[..4]) == 0 then Some([])
    else
      match ParseSegment(bits, ver)
      case None => None
      case Some(first) =>
        match ParseAll(first.1, ver)
        case None => None
        case Some(rest) => Some([first.0] + rest)
  }

  /** What ends the segments: a terminator of four zero bits, or fewer than four bits. */
  predicate Terminated(tail: seq<bool>) {
    |tail| < 4 || tail[..4] == [false, false, false, false]
  }

  lemma SegmentParses(s: Segment, ver: nat, rest: seq<bool>)
    requires WellFormed(s) && CountFits(s, ver)
    ensures var bits := SegmentBits(s, ver) + rest;
            |bits| >= 4 && ValueOf(bits[..4]) != 0 && ParseSegment(bits, ver) == Some((s, rest))
  {
    hide BitsOf, ValueOf, Pow2, PackedLength;
    var cc := s.mode.CharCountBits(ver);
    var bits := SegmentBits(s, ver) + rest;
    ModeFieldReadsBack(s.mode);
    ValueOfBitsOf(s.numChars, cc);
    assert bits[..4] == BitsOf(s.mode.ModeBits(), 4);
    assert bits[4..4 + cc] == BitsOf(s.numChars, cc);
    var body := bits[4 + cc..];
    assert body == s.data + rest;
    assert body[..|s.data|] == s.data && body[|s.data|..] == rest;
    assert PayloadLength(s.mode, s.numChars, body) == Some(|s.data|) by {
      if s.mode.Eci? { assert |s.data| > 0; assert forall i :: 0 <= i < |s.data| ==> body[i] == s.data[i]; }
    }
  }

  lemma ModeFieldReadsBack(m: Mode)
    ensures ValueOf(BitsOf(m.ModeBits(), 4)) == m.ModeBits() && ModeOf(m.ModeBits()) == Some(m)
  {
    PowersOfTwo();
    ValueOfBitsOf(m.ModeBits(), 4);
  }

  /** The concatenated stream parses back uniquely, whatever follows the terminator. */
  lemma {:induction false} StreamParses(segs: seq<Segment>, ver: nat, tail: seq<bool>)
    requires forall s :: s in segs ==> WellFormed(s) && CountFits(s, ver)
    requires Terminated(tail)
    ensures ParseAll(StreamOf(segs, ver) + tail, ver) == Some(segs)
  {
    hide SegmentBits, ParseSegment;
    if segs == [] {
      assert StreamOf(segs, ver) + tail == tail;
      if |tail| >= 4 { ZeroField(tail[..4]); }
    } else {
      var rest := StreamOf(segs[1..], ver) + tail;
      StreamOfFirst(segs, ver);
      assert StreamOf(segs, ver) + tail == SegmentBits(segs[0], ver) + rest;
      SegmentParses(segs[0], ver, rest);
      StreamParses(segs[1..], ver, tail);
      assert segs == [segs[0]] + segs[1..];
    }
  }

  lemma ZeroField(bits: seq<bool>)
    requires bits == [false, false, false, false]
    ensures ValueOf(bits) == 0
  {
    assert bits[..3][..2][..1] == [false] && bits[..3][..2] == [false, false] && bits[..3] == [false, false, false];
    assert ValueOf([false]) == 0;
    assert ValueOf([false, false]) == 0;
    assert ValueOf([false, false, false]) == 0;
  }

  // ---- the length of the stream ----

  /** -1 when a count does not fit its field or the sum leaves the int range, else the real length. */
  method GetTotalBits(segs: seq<Segment>, ver: nat) returns (result: int)
    ensures result == TotalBits(segs, ver)
  {
    hide BitsOf;
    result := 0;
    for k := 0 to |segs|
      invariant result == |StreamOf(segs[..k], ver)| <= INT_MAX
      invariant forall s :: s in segs[..k] ==> CountFits(s, ver)
    {
      var seg := segs[k];
      var ccbits := seg.mode.CharCountBits(ver);
      StreamPrefix(segs, k + 1, ver);
      assert segs[..k + 1] == segs[..k] + [seg] && segs[..k + 1][..k] == segs[..k];
      if seg.numChars >= Pow2(ccbits) {
        assert seg in segs && !CountFits(seg, ver);
        return -1;
      }
      if 4 + ccbits > INT_MAX - result {
        return -1;
      }
      result := result + 4 + ccbits;
      if |seg.data| > INT_MAX - result {
        return -1;
      }
      result := result + |seg.data|;
    }
    assert segs[..|segs|] == segs;
  }

  ghost function TotalBits(segs: seq<Segment>, ver: nat): int {
    if (forall s :: s in segs ==> CountFits(s, ver)) && |StreamOf(segs, ver)| <= INT_MAX then |StreamOf(segs, ver)|
    else -1
  }

  lemma {:induction false} StreamPrefix(segs: seq<Segment>, k: nat, ver: nat)
    requires k <= |segs|
    ensures |StreamOf(segs[..k], ver)| <= |StreamOf(segs, ver)|
  {
    if k < |segs| {
      StreamPrefix(segs[..|segs| - 1], k, ver);
      assert segs[..|segs| - 1][..k] == segs[..k];
    } else {
      assert segs[..k] == segs;
    }
  }

  lemma PowersOfTwo()
    ensures Pow2(4) == 16 && Pow2(6) == 64 && Pow2(7) == 128 && Pow2(8) == 256 && Pow2(10) == 1024 && Pow2(11) == 2048
    ensures Pow2(14) == 16384 && Pow2(16) == 65536 && Pow2(21) == 2097152
  {
    assert Pow2(5) == 32;
    assert Pow2(9) == 512;
    assert Pow2(12) == 4096;
    assert Pow2(13) == 8192;
    assert Pow2(15) == 32768;
    assert Pow2(17) == 131072;
    assert Pow2(18) == 262144;
    assert Pow2(19) == 524288;
    assert Pow2(20) == 1048576;
  }

  // ---- the formats of the standard ----

  /** Mode indicators, and the widths of the character count field by version (tables 2 and 3). */
  lemma HeaderFields(ver: nat)
    requires 1 <= ver <= 40
    ensures Numeric.ModeBits() == 1 && Alphanumeric.ModeBits() == 2 && Byte.ModeBits() == 4
    ensures Kanji.ModeBits() == 8 && Eci.ModeBits() == 7
    ensures Numeric.CharCountBits(ver) == if ver <= 9 then 10 else if ver <= 26 then 12 else 14
    ensures Alphanumeric.CharCountBits(ver) == if ver <= 9 then 9 else if ver <= 26 then 11 else 13
    ensures Byte.CharCountBits(ver) == if ver <= 9 then 8 else 16
    ensures Kanji.CharCountBits(ver) == if ver <= 9 then 8 else if ver <= 26 then 10 else 12
    ensures Eci.CharCountBits(ver) == 0
  {
  }

  /** Three digits are a number of ten bits, two characters 45 times the first plus the second in eleven bits. */
  lemma GroupFormat(a: nat, b: nat, c: nat)
    ensures GroupBits(Numeric, [a, b, c]) == BitsOf(100 * a + 10 * b + c, 10)
    ensures GroupBits(Numeric, [a, b]) == BitsOf(10 * a + b, 7) && GroupBits(Numeric, [a]) == BitsOf(a, 4)
    ensures GroupBits(Alphanumeric, [a, b]) == BitsOf(45 * a + b, 11) && GroupBits(Alphanumeric, [a]) == BitsOf(a, 6)
  {
    hide BitsOf;
    assert [a, b, c][..2] == [a, b] && [a, b][..1] == [a] && [a][..0] == [];
    var none: seq<nat> := [];
    assert Radix(10, none) == 0 && Radix(45, none) == 0;
    assert Radix(10, [a]) == a && Radix(45, [a]) == a;
    assert Radix(10, [a, b]) == 10 * a + b && Radix(45, [a, b]) == 45 * a + b;
  }

  /** Payloads of n characters. */
  lemma PayloadFormat(n: nat)
    ensures PackedLength(Numeric, n) == 10 * (n / 3) + (if n % 3 == 0 then 0 else if n % 3 == 1 then 4 else 7)
    ensures PackedLength(Alphanumeric, n) == 11 * (n / 2) + 6 * (n % 2)
  {
  }

  /** The value of an alphanumeric character: digits, capital letters, and nine others (table 5). */
  function CharacterValue(c: uint8): Option<nat> {
    if 48 <= c <= 57 then Some(c - 48)
    else if 65 <= c <= 90 then Some(c - 55)
    else if c == 32 then Some(36) else if c == 36 then Some(37) else if c == 37 then Some(38)
    else if c == 42 then Some(39) else if c == 43 then Some(40) else if c == 45 then Some(41)
    else if c == 46 then Some(42) else if c == 47 then Some(43) else if c == 58 then Some(44)
    else None
  }

  lemma CharacterAt(k: nat, c: uint8)
    requires k < 45
    ensures ALPHANUMERIC_CHARSET[k] as int == c <==> CharacterValue(c) == Some(k)
  {
    CharacterOf(k);
    hide ALPHANUMERIC_CHARSET;
  }

  lemma CharacterOf(k: nat)
    requires k < 45
    ensures ALPHANUMERIC_CHARSET[k] ==
            if k < 10 then (48 + k) as char else if k < 36 then (55 + k) as char
            else if k == 36 then 32 as char else if k == 37 then 36 as char else if k == 38 then 37 as char
            else if k == 39 then 42 as char else if k == 40 then 43 as char else if k == 41 then 45 as char
            else if k == 42 then 46 as char else if k == 43 then 47 as char else 58 as char
  {
  }

  lemma {:induction false} CharactersFrom(c: uint8, k: nat)
    requires k <= 45
    ensures CharIndex(c, k) == if CharacterValue(c).Some? && CharacterValue(c).value >= k then CharacterValue(c)
            else None
    decreases 45 - k
  {
    CharactersStep(c, k);
    hide CharacterValue, ALPHANUMERIC_CHARSET, CharIndex;
    if k < 45 {
      CharacterAt(k, c);
      CharactersFrom(c, k + 1);
    } else {
      ValuesAreBelow45(c);
    }
  }

  lemma CharactersStep(c: uint8, k: nat)
    requires k <= 45
    ensures CharIndex(c, k) == if k == 45 then None else if ALPHANUMERIC_CHARSET[k] as int == c then Some(k)
                               else CharIndex(c, k + 1)
  {
  }

  lemma ValuesAreBelow45(c: uint8)
    ensures CharacterValue(c).Some? ==> CharacterValue(c).value < 45
  {
  }

  /** Digits alone are numeric, characters with a value alphanumeric, and all other texts bytes. */
  lemma ModeFormat(text: seq<uint8>)
    ensures TextMode(text) ==
            if forall i :: 0 <= i < |text| ==> 48 <= text[i] <= 57 then Numeric
            else if forall i :: 0 <= i < |text| ==> CharacterValue(text[i]).Some? then Alphanumeric
            else Byte
  {
    hide CharIndex, CharacterValue;
    forall i | 0 <= i < |text|
      ensures CharIndex(text[i], 0) == CharacterValue(text[i])
    {
      CharacterFormat(text[i]);
    }
  }

  lemma CharacterFormat(c: uint8)
    ensures CharIndex(c, 0) == CharacterValue(c)
  {
    CharactersFrom(c, 0);
  }
}
