// The pairing code: Base32 without padding over a 32-bit accumulator that is never masked, grouped with
// separators (common/src/utils/StringUtils.cpp; the alphabet is that of section 6 of RFC 4648).
module Base32 {
  import opened Options
  import opened Bits

  const ALPHABET := "ABCDEFGHIJKLMNOPQRSTUVWXYZ234567"

  function Letter(i: nat): char
    requires i < 32
  {
    ALPHABET[i]
  }

  /** Twenty-six letters, then the digits from 2 on. */
  lemma LetterCode(i: nat)
    requires i < 32
    ensures Letter(i) as int == if i < 26 then 65 + i else 24 + i
  {
  }

  // ---- 32-bit words, most significant bit first ----

  type word = w: seq<bool> | |w| == 32 witness seq(32, i => false)

  function ShiftLeft(w: word, k: nat): (r: word)
    requires k <= 32
  {
    w[k..] + Zeros(k)
  }

  function ShiftRight(w: word, k: nat): (r: word)
    requires k <= 32
  {
    Zeros(k) + w[..32 - k]
  }

  function Or(a: word, b: word): word {
    seq(32, i requires 0 <= i < 32 => a[i] || b[i])
  }

  function WordOf(c: uint8): word { Zeros(24) + BitsOf(c, 8) }

  /** `w & 0x1F`, as an index into the alphabet. */
  function Low5(w: word): (v: nat)
    ensures v < 32
  {
    FiveBits(w[27..]);
    ValueOf(w[27..])
  }

  lemma FiveBits(bits: seq<bool>)
    requires |bits| == 5
    ensures ValueOf(bits) < 32
  {
    BitsOfValueOf(bits);
    assert Pow2(5) == 32;
  }

  /** The last k bits of the accumulator are all the algorithm ever looks at. */
  function Last(w: word, k: nat): (bits: seq<bool>)
    requires k <= 32
    ensures |bits| == k
  {
    w[32 - k..]
  }

  lemma ShiftInByte(w: word, c: uint8, k: nat)
    requires k <= 24
    ensures Last(Or(ShiftLeft(w, 8), WordOf(c)), k + 8) == Last(w, k) + BitsOf(c, 8)
  {
    hide BitsOf;
    var r := Or(ShiftLeft(w, 8), WordOf(c));
    assert forall i :: 0 <= i < 24 ==> r[i] == w[i + 8];
    assert forall i :: 24 <= i < 32 ==> r[i] == BitsOf(c, 8)[i - 24];
  }

  lemma ShiftOutFive(w: word, k: nat)
    requires 5 <= k <= 32
    ensures Low5(ShiftRight(w, k - 5)) == ValueOf(Last(w, k)[..5])
  {
    assert ShiftRight(w, k - 5)[27..] == Last(w, k)[..5];
  }

  lemma ShiftOutRest(w: word, k: nat)
    requires k <= 5
    ensures Low5(ShiftLeft(w, 5 - k)) == ValueOf(Last(w, k) + Zeros(5 - k))
  {
    assert ShiftLeft(w, 5 - k)[27..] == Last(w, k) + Zeros(5 - k);
  }

  // ---- the encoding, five bits at a time ----

  function Symbol(bits: seq<bool>): (c: char)
    requires |bits| == 5
  {
    FiveBits(bits);
    Letter(ValueOf(bits))
  }

  /** The symbols of whole groups of five bits. */
  function Symbols(bits: seq<bool>): (text: string)
    requires |bits| % 5 == 0
    ensures |text| == |bits| / 5
  {
    if bits == [] then "" else Symbols(bits[..|bits| - 5]) + [Symbol(bits[|bits| - 5..])]
  }

  /** Bits filled up with zeros to a multiple of five. */
  function Filled(bits: seq<bool>): (r: seq<bool>)
    ensures |r| % 5 == 0 && |r| < |bits| + 5
  {
    bits + Zeros((5 - |bits| % 5) % 5)
  }

  function Encoded(data: seq<uint8>): string {
    Symbols(Filled(ByteBits(data)))
  }

  lemma SymbolsThen(bits: seq<bool>, five: seq<bool>)
    requires |bits| % 5 == 0 && |five| == 5
    ensures Symbols(bits + five) == Symbols(bits) + [Symbol(five)]
  {
    hide Symbol;
    assert (bits + five)[..|bits|] == bits && (bits + five)[|bits|..] == five;
  }

  lemma EmitFive(bits: seq<bool>, done: nat, w: word, k: nat)
    requires 5 <= k <= 32 && done + k == |bits| && done % 5 == 0 && Last(w, k) == bits[done..]
    ensures Symbols(bits[..done]) + [Letter(Low5(ShiftRight(w, k - 5)))] == Symbols(bits[..done + 5])
    ensures Last(w, k - 5) == bits[done + 5..]
  {
    hide Symbols, Letter, Low5, ValueOf;
    ShiftOutFive(w, k);
    var five := bits[done..done + 5];
    assert bits[done..][..5] == five;
    SymbolsThen(bits[..done], five);
    assert bits[..done + 5] == bits[..done] + five;
    assert Last(w, k - 5) == Last(w, k)[5..];
  }

  method ToBase32String(str: seq<uint8>) returns (encodedStr: string)
    ensures encodedStr == Encoded(str)
  {
    hide Symbols, ByteBits, Low5, Letter;
    encodedStr := "";
    var buffer: word := Zeros(32);
    var bitsLeft: nat := 0;
    ghost var done := 0;
    NoSymbols();
    for k := 0 to |str|
      invariant bitsLeft < 5 && done + bitsLeft == |ByteBits(str[..k])| && done % 5 == 0
      invariant Last(buffer, bitsLeft) == ByteBits(str[..k])[done..]
      invariant encodedStr == Symbols(ByteBits(str[..k])[..done])
    {
      ghost var bits, more := ByteBits(str[..k]), ByteBits(str[..k + 1]);
      NextByte(str, k);
      ShiftInByte(buffer, str[k], bitsLeft);
      assert more[done..] == bits[done..] + BitsOf(str[k], 8) && more[..done] == bits[..done];
      buffer := Or(ShiftLeft(buffer, 8), WordOf(str[k]));
      bitsLeft := bitsLeft + 8;
      while bitsLeft >= 5
        invariant bitsLeft <= 12 && done + bitsLeft == |more| && done % 5 == 0
        invariant Last(buffer, bitsLeft) == more[done..]
        invariant encodedStr == Symbols(more[..done])
      {
        EmitFive(more, done, buffer, bitsLeft);
        encodedStr := encodedStr + [Letter(Low5(ShiftRight(buffer, bitsLeft - 5)))];
        done := done + 5;
        bitsLeft := bitsLeft - 5;
      }
    }
    assert str[..|str|] == str;
    ghost var bits := ByteBits(str);
    if bitsLeft > 0 {
      EmitRest(bits, done, buffer, bitsLeft);
      encodedStr := encodedStr + [Letter(Low5(ShiftLeft(buffer, 5 - bitsLeft)))];
    } else {
      assert Filled(bits) == bits == bits[..done];
    }
  }

  lemma EmitRest(bits: seq<bool>, done: nat, w: word, k: nat)
    requires 0 < k < 5 && done + k == |bits| && done % 5 == 0 && Last(w, k) == bits[done..]
    ensures Symbols(bits[..done]) + [Letter(Low5(ShiftLeft(w, 5 - k)))] == Symbols(Filled(bits))
  {
    hide Symbols, Letter, Low5, ValueOf;
    ShiftOutRest(w, k);
    FilledUp(bits, done, k);
    var five := bits[done..] + Zeros(5 - k);
    SymbolsThen(bits[..done], five);
    assert Filled(bits) == bits[..done] + five;
  }

  lemma FilledUp(bits: seq<bool>, done: nat, k: nat)
    requires 0 < k < 5 && done + k == |bits| && done % 5 == 0
    ensures Filled(bits) == bits + Zeros(5 - k)
  {
    assert |bits| % 5 == k;
  }

  lemma NoSymbols()
    ensures Symbols([]) == "" && ByteBits([]) == []
  {
  }

  lemma NextByte(str: seq<uint8>, k: nat)
    requires k < |str|
    ensures ByteBits(str[..k + 1]) == ByteBits(str[..k]) + BitsOf(str[k], 8)
  {
    assert str[..k + 1][..k] == str[..k];
  }

  /** A code of n bytes has ceil(8n / 5) symbols. */
  lemma CodeLength(data: seq<uint8>)
    ensures |Encoded(data)| == (8 * |data| + 4) / 5
  {
  }

  // ---- decoding ----

  function IndexOf(c: char, k: nat): (i: Option<nat>)
    requires k <= 32
    ensures i.Some? ==> i.value < 32
    decreases 32 - k
  {
    if k == 32 then None else if Letter(k) == c then Some(k) else IndexOf(c, k + 1)
  }

  /** Five bits for each symbol; None for a character outside the alphabet. */
  function SymbolBits(text: string): (r: Option<seq<bool>>)
    ensures r.Some? ==> |r.value| == 5 * |text|
  {
    if text == "" then Some([])
    else
      var rest, last := SymbolBits(text[..|text| - 1]), IndexOf(text[|text| - 1], 0);
      if rest.None? || last.None? then None else Some(rest.value + BitsOf(last.value, 5))
  }

  /** The largest multiple of eight up to k. */
  function WholeBytes(k: nat): (n: nat)
    ensures n % 8 == 0 && n <= k < n + 8
  {
    k - k % 8
  }

  /** Whole bytes; what is left over must be fewer than five zero bits. */
  function DecodeBits(bits: seq<bool>): Option<seq<nat>> {
    var n := WholeBytes(|bits|);
    if |bits| - n >= 5 || bits[n..] != Zeros(|bits| - n) then None else Some(ReadBytes(bits[..n]))
  }

  function Decode(text: string): Option<seq<nat>> {
    match SymbolBits(text)
    case None => None
    case Some(bits) => DecodeBits(bits)
  }

  lemma IndexOfSymbol(i: nat)
    requires i < 32
    ensures IndexOf(Letter(i), 0) == Some(i)
  {
    FoundAt(i, 0);
  }

  lemma {:induction false} FoundAt(i: nat, k: nat)
    requires k <= i < 32
    ensures IndexOf(Letter(i), k) == Some(i)
    decreases i - k
  {
    hide Letter;
    if k < i {
      LettersDiffer(k, i);
      FoundAt(i, k + 1);
    }
  }

  lemma LettersDiffer(k: nat, i: nat)
    requires k < i < 32
    ensures Letter(k) != Letter(i)
  {
    hide Letter;
    LetterCode(k);
    LetterCode(i);
  }

  lemma SymbolReadsBack(bits: seq<bool>)
    requires |bits| == 5
    ensures IndexOf(Symbol(bits), 0).Some? && BitsOf(IndexOf(Symbol(bits), 0).value, 5) == bits
  {
    hide Letter, IndexOf, BitsOf, ValueOf;
    FiveBits(bits);
    BitsOfValueOf(bits);
    IndexOfSymbol(ValueOf(bits));
  }

  lemma FiveLess(k: nat)
    requires k > 0 && k % 5 == 0
    ensures k >= 5 && (k - 5) % 5 == 0 && (k - 5) / 5 == k / 5 - 1
  {
  }

  lemma {:induction false} SymbolsReadBack(bits: seq<bool>)
    requires |bits| % 5 == 0
    ensures SymbolBits(Symbols(bits)) == Some(bits)
  {
    hide Symbol, IndexOf, BitsOf;
    if bits != [] {
      FiveLess(|bits|);
      var n := |bits| - 5;
      var text := Symbols(bits);
      SymbolsReadBack(bits[..n]);
      SymbolReadsBack(bits[n..]);
      assert text[..|text| - 1] == Symbols(bits[..n]);
      assert bits == bits[..n] + bits[n..];
    }
  }

  lemma FilledShape(bits: seq<bool>)
    ensures |bits| <= |Filled(bits)| && Filled(bits) == bits + Zeros(|Filled(bits)| - |bits|)
  {
  }

  lemma WholeBytesOf(n: nat, k: nat)
    requires n % 8 == 0 && k < 8
    ensures WholeBytes(n + k) == n
  {
  }

  lemma FilledDecodes(data: seq<uint8>)
    ensures DecodeBits(Filled(ByteBits(data))) == Some(data)
  {
    hide ReadBytes, ByteBits, Filled, WholeBytes;
    var bits := ByteBits(data);
    var filled := Filled(bits);
    FilledShape(bits);
    WholeBytesOf(|bits|, |filled| - |bits|);
    var n := WholeBytes(|filled|);
    assert filled[..n] == bits && filled[n..] == Zeros(|filled| - n);
    BytesReadBack(data);
  }

  /** Base32 decodes to the bytes it was made from. */
  lemma DecodesBack(data: seq<uint8>)
    ensures Decode(Encoded(data)) == Some(data)
  {
    hide SymbolBits, Symbols, DecodeBits, ByteBits, Filled;
    SymbolsReadBack(Filled(ByteBits(data)));
    FilledDecodes(data);
  }

  // ---- grouping ----

  function Chunks(str: string, groupSize: nat): seq<string>
    requires groupSize > 0
  {
    if |str| == 0 then []
    else if |str| <= groupSize then [str]
    else [str[..groupSize]] + Chunks(str[groupSize..], groupSize)
  }

  function Join(chunks: seq<string>, seperator: string): string {
    if chunks == [] then "" else if |chunks| == 1 then chunks[0]
    else chunks[0] + seperator + Join(chunks[1..], seperator)
  }

  /** What is left of the string from position i on. */
  function From(str: string, i: nat): string { if i < |str| then str[i..] else "" }

  lemma NextChunk(str: string, i: nat, groupSize: nat)
    requires groupSize > 0 && i < |str|
    ensures Chunks(From(str, i), groupSize)
            == [if |str| - i <= groupSize then str[i..] else str[i..i + groupSize]]
              + Chunks(From(str, i + groupSize), groupSize)
  {
    if |str| - i > groupSize {
      assert str[i..][..groupSize] == str[i..i + groupSize] && str[i..][groupSize..] == From(str, i + groupSize);
    }
  }

  lemma FirstChunk(str: string, groupSize: nat)
    requires groupSize > 0
    ensures Chunks(str, groupSize) == [] + Chunks(From(str, 0), groupSize)
  {
    assert From(str, 0) == str;
  }

  lemma LastChunk(str: string, i: nat, groupSize: nat)
    requires groupSize > 0 && i >= |str|
    ensures Chunks(From(str, i), groupSize) == []
  {
  }

  /** A group size of zero would make the source loop for ever. */
  method WithSeperators(str: string, seperator: string, groupSize: nat) returns (r: string)
    requires groupSize > 0
    ensures r == Join(Chunks(str, groupSize), seperator)
  {
    hide Chunks, From, Join;
    var chunks := [];
    var i := 0;
    FirstChunk(str, groupSize);
    while i < |str|
      invariant Chunks(str, groupSize) == chunks + Chunks(From(str, i), groupSize)
      decreases |str| - i
    {
      var chunk := if |str| - i <= groupSize then str[i..] else str[i..i + groupSize];
      NextChunk(str, i, groupSize);
      assert chunks + ([chunk] + Chunks(From(str, i + groupSize), groupSize))
             == (chunks + [chunk]) + Chunks(From(str, i + groupSize), groupSize);
      chunks := chunks + [chunk];
      i := i + groupSize;
    }
    LastChunk(str, i, groupSize);
    assert chunks + [] == chunks;
    r := Join(chunks, seperator);
  }

  /** The text without its hyphens. */
  function Strip(text: string): string {
    if text == "" then ""
    else if text[0] == '-' then Strip(text[1..])
    else [text[0]] + Strip(text[1..])
  }

  lemma {:induction false} StripNothing(text: string)
    requires '-' !in text
    ensures Strip(text) == text
  {
    if text != "" {
      StripNothing(text[1..]);
      assert text == [text[0]] + text[1..];
    }
  }

  lemma {:induction false} StripAppend(a: string, b: string)
    ensures Strip(a + b) == Strip(a) + Strip(b)
  {
    if a == "" {
      assert a + b == b;
    } else {
      StripAppend(a[1..], b);
      assert (a + b)[0] == a[0] && (a + b)[1..] == a[1..] + b;
    }
  }

  lemma JoinFirst(str: string, groupSize: nat, seperator: string)
    requires 0 < groupSize < |str|
    ensures Join(Chunks(str, groupSize), seperator)
            == str[..groupSize] + seperator + Join(Chunks(str[groupSize..], groupSize), seperator)
  {
    var chunks := Chunks(str, groupSize);
    assert chunks[0] == str[..groupSize] && chunks[1..] == Chunks(str[groupSize..], groupSize);
    assert |chunks| > 1;
  }

  lemma JoinOnly(str: string, groupSize: nat, seperator: string)
    requires groupSize > 0 && |str| <= groupSize
    ensures Join(Chunks(str, groupSize), seperator) == str
  {
  }

  /** Grouping with hyphens is undone by stripping them, for every group size. */
  lemma {:induction false} StripUndoesGrouping(str: string, groupSize: nat)
    requires groupSize > 0 && '-' !in str
    ensures Strip(Join(Chunks(str, groupSize), "-")) == str
    decreases |str|
  {
    hide Join, Chunks, Strip;
    if |str| <= groupSize {
      JoinOnly(str, groupSize, "-");
      StripNothing(str);
    } else {
      var first, rest := str[..groupSize], str[groupSize..];
      StripUndoesGrouping(rest, groupSize);
      JoinFirst(str, groupSize, "-");
      StripNothing(first);
      StripAppend(first + "-", Join(Chunks(rest, groupSize), "-"));
      StripAppend(first, "-");
      StripHyphen();
      assert first + "" == first && str == first + rest;
    }
  }

  lemma StripHyphen()
    ensures Strip("-") == ""
  {
    assert "-"[1..] == "";
  }

  lemma {:induction false} NoHyphens(bits: seq<bool>)
    requires |bits| % 5 == 0
    ensures '-' !in Symbols(bits)
  {
    if bits != [] {
      hide Letter;
      NoHyphens(bits[..|bits| - 5]);
      FiveBits(bits[|bits| - 5..]);
      LetterCode(ValueOf(bits[|bits| - 5..]));
    }
  }

  /** The pairing code: stripped of its hyphens and decoded it gives back the payload. */
  method PairingCode(payload: seq<uint8>) returns (code: string)
    ensures Decode(Strip(code)) == Some(payload)
    ensures |Strip(code)| == (8 * |payload| + 4) / 5
  {
    hide Decode, Encoded, Strip;
    var encoded := ToBase32String(payload);
    code := WithSeperators(encoded, "-", 5);
    EncodedHasNoHyphens(payload);
    StripUndoesGrouping(encoded, 5);
    DecodesBack(payload);
    CodeLength(payload);
  }

  lemma EncodedHasNoHyphens(data: seq<uint8>)
    ensures '-' !in Encoded(data)
  {
    NoHyphens(Filled(ByteBits(data)));
  }

  // ---- the formats of the pairing code ----

  /** The letters, and then the digits from 2 to 7 (RFC 4648, section 6). */
  lemma AlphabetFormat(i: nat)
    requires i < 32
    ensures Letter(i) == if i < 26 then ('A' as int + i) as char else ('2' as int + i - 26) as char
  {
  }

  lemma GroupStep(i: nat, g: nat)
    requires g > 0 && i >= g
    ensures i / g == (i - g) / g + 1 && i % g == (i - g) % g
  {
    var q, r := (i - g) / g, (i - g) % g;
    assert i == g * (q + 1) + r;
    OneQuotient(i, g, q + 1, r);
  }

  lemma OneQuotient(a: nat, g: nat, q: nat, r: nat)
    requires r < g && a == g * q + r
    ensures a / g == q && a % g == r
  {
    var d := a / g - q;
    assert g * d == r - a % g;
    NoMultiple(g, d);
  }

  lemma NoMultiple(g: int, d: int)
    requires 0 - g < g * d < g
    ensures d == 0
  {
  }

  /** A hyphen stands behind every full group that is not the last one, and all else is the string in order. */
  lemma {:induction false} GroupFormat(str: string, g: nat, i: nat)
    requires g > 0
    ensures var t := Join(Chunks(str, g), "-");
            && |t| == |str| + (if |str| == 0 then 0 else (|str| - 1) / g)
            && (i < |t| ==> (i % (g + 1) == g || 0 <= i - i / (g + 1) < |str|)
                            && t[i] == if i % (g + 1) == g then '-' else str[i - i / (g + 1)])
    decreases |str|
  {
    hide Join, Chunks;
    if |str| <= g {
      JoinOnly(str, g, "-");
      SmallQuotient(str, g, i);
    } else {
      var rest := str[g..];
      JoinFirst(str, g, "-");
      GroupStep(|str| - 1, g);
      if i >= g + 1 {
        GroupFormat(rest, g, i - (g + 1));
        GroupStep(i, g + 1);
      } else {
        GroupFormat(rest, g, 0);
        SmallIndex(i, g);
      }
    }
  }

  lemma SmallIndex(i: nat, g: nat)
    requires i <= g
    ensures i / (g + 1) == 0 && i % (g + 1) == i
  {
  }

  lemma SmallQuotient(str: string, g: nat, i: nat)
    requires g > 0 && |str| <= g
    ensures |str| > 0 ==> (|str| - 1) / g == 0
    ensures i < |str| ==> i / (g + 1) == 0 && i % (g + 1) == i
  {
  }
}
