// The phone's side of the packet framing, and the hexadecimal form of encrypted payloads
// (android-app/.../LegacyProtocol.kt).
module LegacyProtocol {
  import opened Bits
  import opened Options
  import opened Framing

  /** What becomes of a call to write a packet. */
  datatype Outcome = Refused | Written | Broken

  lemma FrameLength(p: Packet)
    requires Framable(p)
    ensures |Frame(p)| == 12 + |p.data|
  {
  }

  /** A socket's data streams: what arrives, and how much can be written, before the connection ends or fails. */
  class DataStreams {
    var input: seq<uint8>
    var output: seq<uint8>
    var room: nat

    method ReadByte() returns (b: Option<uint8>)
      modifies this`input
      ensures b.Some? ==> old(input) == [b.value] + input
      ensures b.None? ==> old(input) == input == []
    {
      if input == [] {
        return None;
      }
      b := Some(input[0]);
      input := input[1..];
    }

    method ReadFully(n: nat) returns (data: Option<seq<uint8>>)
      modifies this`input
      ensures data.Some? ==> |data.value| == n && old(input) == data.value + input
      ensures data.None? ==> |old(input)| < n
    {
      if |input| < n {
        input := [];
        return None;
      }
      data := Some(input[..n]);
      input := input[n..];
    }

    method ReadUnsignedShort() returns (v: Option<nat>)
      modifies this`input
      ensures v.Some? ==> |old(input)| >= 2 && v.value == FromNetwork(old(input)[..2]) && input == old(input)[2..]
      ensures v.None? ==> |old(input)| < 2
    {
      var bytes := ReadFully(2);
      if bytes.None? {
        return None;
      }
      v := Some(FromNetwork(bytes.value));
    }

    /** Writes all bytes, or those the connection still takes before it fails. */
    method Write(bytes: seq<uint8>) returns (ok: bool)
      modifies this`output, this`room
      ensures ok <==> |bytes| <= old(room)
      ensures ok ==> output == old(output) + bytes && room == old(room) - |bytes|
      ensures !ok ==> output == old(output) + bytes[..old(room)] && room == 0
    {
      ok := |bytes| <= room;
      var taken := if ok then bytes else bytes[..room];
      output := output + taken;
      room := room - |taken|;
    }

    /** Appends one field behind the part of the frame that is already written. */
    method WriteField(field: seq<uint8>, ghost before: seq<uint8>, ghost done: seq<uint8>, ghost frame: seq<uint8>)
      returns (ok: bool)
      requires output == before + done && done + field <= frame
      modifies this`output, this`room
      ensures ok <==> |field| <= old(room)
      ensures ok ==> output == before + (done + field) && room == old(room) - |field|
      ensures PartOf(before, output, frame)
    {
      ok := Write(field);
      PartOfLonger(before, done, output, field, frame[|done| + |field|..]);
      assert (before + done) + field == before + (done + field);
      assert done + field + frame[|done| + |field|..] == frame;
    }

    /**
     * Refuses empty and oversized payloads; the id is cut to sixteen bits. A failing connection gets part of
     * the frame.
     */
    method WritePacket(id: int, data: seq<uint8>) returns (r: Outcome)
      modifies this`output, this`room
      ensures r.Refused? <==> !(1 <= |data| <= 65535)
      ensures r.Refused? ==> output == old(output) && room == old(room)
      ensures r.Written? ==>
              output == old(output) + Frame(Packet(id % 0x1_0000, data)) && Framable(Packet(id % 0x1_0000, data))
      ensures r.Broken? ==> PartOf(old(output), output, Frame(Packet(id % 0x1_0000, data)))
      ensures r.Broken? <==> !r.Refused? && old(room) < 12 + |data|
      ensures r.Written? ==> room == old(room) - 12 - |data|
    {
      if !(|data| != 0 && |data| <= 65535) {
        return Refused;
      }
      hide PartOf;
      ghost var before, frame := output, Frame(Packet(id % 0x1_0000, data));
      var packetId, length := Network(id % 0x1_0000), Network(|data|);
      assert data[..|data|] == data;
      assert before + [] == before && [] + HEADER == HEADER;
      var ok := WriteField(HEADER, before, [], frame);
      if !ok {
        return Broken;
      }
      ok := WriteField(packetId, before, HEADER, frame);
      if !ok {
        return Broken;
      }
      ok := WriteField(length, before, HEADER + packetId, frame);
      if !ok {
        return Broken;
      }
      ok := WriteField(data, before, HEADER + packetId + length, frame);
      r := if ok then Written else Broken;
    }

    /** Successive calls up to the first that fails. */
    method WritePackets(ps: seq<Packet>) returns (written: nat)
      requires AllFramable(ps)
      modifies this`output, this`room
      ensures PartOf(old(output), output, Frames(ps))
      ensures written == |ps| ==> output == old(output) + Frames(ps)
      ensures old(room) >= |Frames(ps)| ==> written == |ps|
    {
      hide Frames, Frame;
      ghost var before, capacity := output, room;
      written := 0;
      NoFrames();
      assert before + [] == before;
      while written < |ps|
        invariant written <= |ps| && output == before + Frames(ps[..written])
        invariant capacity == room + |Frames(ps[..written])|
      {
        ghost var p, done := ps[written], Frames(ps[..written]);
        ghost var frame := Frame(p);
        FramesSplit(ps, written + 1);
        FramesThen(ps[..written], p);
        FrameLength(p);
        assert ps[..written] + [p] == ps[..written + 1];
        ghost var rest := Frames(ps)[|done + frame|..];
        assert done + frame + rest == Frames(ps);
        var r := WritePacket(ps[written].id, ps[written].data);
        assert p.id % 0x1_0000 == p.id && Packet(p.id, p.data) == p;
        if !r.Written? {
          PartOfLonger(before, done, output, frame, rest);
          return;
        }
        assert (before + done) + frame == before + (done + frame);
        written := written + 1;
      }
      assert ps[..|ps|] == ps;
    }

    /** Successive calls up to the first that fails. */
    method ReadPackets(n: nat) returns (packets: seq<Packet>)
      modifies this`input
      ensures |packets| <= n && DecodeMany(old(input), |packets|).Some?
              && DecodeMany(old(input), |packets|).value.0 == packets
      ensures DecodeMany(old(input), n).Some? ==> |packets| == n
    {
      packets := [];
      while |packets| < n
        invariant |packets| <= n && DecodeMany(old(input), |packets|) == Some((packets, input))
      {
        var p := ReadPacket();
        if p.None? {
          DecodeManyStops(old(input), |packets| + 1, n);
          return;
        }
        packets := packets + [p.value];
      }
    }

    /** Returns the next packet of the stream, and fails exactly if there is none. */
    method ReadPacket() returns (p: Option<Packet>)
      modifies this`input
      ensures p.Some? ==> Decode(old(input)) == Got(p.value, input)
      ensures p.None? ==> !Decode(old(input)).Got?
    {
      var matched: nat := 0;
      while matched < |HEADER|
        invariant matched <= |HEADER|
        invariant AfterHeader(old(input), 0) == AfterHeader(input, matched)
        decreases |input| + 1 - if matched == |HEADER| then 1 else 0
      {
        var b := ReadByte();
        if b.None? {
          return None;
        }
        matched := Matched(matched, b.value);
      }
      ghost var body := input;
      var id := ReadUnsignedShort();
      if id.None? {
        return None;
      }
      var len := ReadUnsignedShort();
      if len.None? {
        return None;
      }
      assert body[2..][..2] == body[2..4] && body[2..][2..] == body[4..];
      if len.value == 0 {
        return None;
      }
      var data := ReadFully(len.value);
      if data.None? {
        return None;
      }
      assert body[4..4 + len.value] == data.value;
      p := Some(Packet(id.value, data.value));
    }
  }

  // ---- hexadecimal text ----

  const LOWER_DIGITS := "0123456789abcdef"

  /** The values of the digits beyond ASCII, which the parser also accepts; their table is a parameter. */
  type Digits = char -> Option<nat>

  /** The value of a hexadecimal digit: ASCII digits of either case, or a digit of another script. */
  function HexDigit(c: char, digits: Digits): (d: Option<nat>)
    ensures d.Some? ==> d.value < 16
  {
    if '0' <= c <= '9' then Some(c as int - '0' as int)
    else if 'a' <= c <= 'f' then Some(c as int - 'a' as int + 10)
    else if 'A' <= c <= 'F' then Some(c as int - 'A' as int + 10)
    else if c as int < 0x80 then None
    else if digits(c).Some? && digits(c).value < 16 then digits(c)
    else None
  }

  predicate LowerDigit(c: char) { '0' <= c <= '9' || 'a' <= c <= 'f' }

  lemma DigitChars(d: nat, digits: Digits)
    requires d < 16
    ensures LowerDigit(LOWER_DIGITS[d]) && HexDigit(LOWER_DIGITS[d], digits) == Some(d)
  {
  }

  lemma DigitOfChar(c: char, digits: Digits)
    requires LowerDigit(c)
    ensures LOWER_DIGITS[HexDigit(c, digits).value] == c
  {
    var d := HexDigit(c, digits).value;
    DigitChars(d, digits);
  }

  function HexByte(b: uint8): string {
    [LOWER_DIGITS[b / 16], LOWER_DIGITS[b % 16]]
  }

  function HexEncode(bytes: seq<uint8>): (text: string)
    ensures |text| == 2 * |bytes|
  {
    if bytes == [] then "" else HexByte(bytes[0]) + HexEncode(bytes[1..])
  }

  /** Parsing accepts a sign, and conversion to a byte keeps the low eight bits. */
  function ParseByte(chunk: string, digits: Digits): Option<uint8>
    requires 1 <= |chunk| <= 2
  {
    if |chunk| == 1 then
      match HexDigit(chunk[0], digits)
      case None => None
      case Some(d) => Some(d)
    else
      match HexDigit(chunk[1], digits)
      case None => None
      case Some(low) =>
        if chunk[0] == '+' then Some(low)
        else if chunk[0] == '-' then Some((256 - low) % 256)
        else
          match HexDigit(chunk[0], digits)
          case None => None
          case Some(high) => Some(16 * high + low)
  }

  /** Chunks of two characters; the last one may be a single character. */
  function HexDecode(text: string, digits: Digits): (bytes: Option<seq<uint8>>)
    ensures bytes.Some? ==> |bytes.value| == (|text| + 1) / 2
  {
    if text == "" then Some([])
    else
      var k := if |text| < 2 then |text| else 2;
      var first, rest := ParseByte(text[..k], digits), HexDecode(text[k..], digits);
      if first.None? || rest.None? then None else Some([first.value] + rest.value)
  }

  lemma ByteRoundTrip(b: uint8, digits: Digits)
    ensures |HexByte(b)| == 2 && ParseByte(HexByte(b), digits) == Some(b)
  {
    hide HexDigit;
    DigitChars(b / 16, digits);
    DigitChars(b % 16, digits);
  }

  lemma ByteReencodes(chunk: string, digits: Digits)
    requires |chunk| == 2 && LowerDigit(chunk[0]) && LowerDigit(chunk[1])
    ensures ParseByte(chunk, digits).Some? && HexByte(ParseByte(chunk, digits).value) == chunk
  {
    DigitOfChar(chunk[0], digits);
    DigitOfChar(chunk[1], digits);
    var b := ParseByte(chunk, digits).value;
    assert b / 16 == HexDigit(chunk[0], digits).value && b % 16 == HexDigit(chunk[1], digits).value;
  }

  /** Hexadecimal text decodes to the bytes it was made from. */
  lemma {:induction false} HexRoundTrip(bytes: seq<uint8>, digits: Digits)
    ensures HexDecode(HexEncode(bytes), digits) == Some(bytes)
  {
    if bytes != [] {
      hide HexByte, ParseByte;
      var b, text := bytes[0], HexEncode(bytes);
      ByteRoundTrip(b, digits);
      HexRoundTrip(bytes[1..], digits);
      assert text[..2] == HexByte(b) && text[2..] == HexEncode(bytes[1..]);
      assert bytes == [b] + bytes[1..];
    }
  }

  predicate LowerHex(text: string) { |text| % 2 == 0 && forall i :: 0 <= i < |text| ==> LowerDigit(text[i]) }

  lemma {:induction false} EncodedIsLowerHex(bytes: seq<uint8>)
    ensures LowerHex(HexEncode(bytes))
  {
    if bytes != [] {
      DigitChars(bytes[0] / 16, c => None);
      DigitChars(bytes[0] % 16, c => None);
      EncodedIsLowerHex(bytes[1..]);
    }
  }

  lemma {:induction false} LowerHexReencodes(text: string, digits: Digits)
    requires LowerHex(text)
    ensures HexDecode(text, digits).Some? && HexEncode(HexDecode(text, digits).value) == text
  {
    if text != "" {
      hide HexByte, ParseByte, LowerDigit;
      ByteReencodes(text[..2], digits);
      LowerHexReencodes(text[2..], digits);
      var b := ParseByte(text[..2], digits).value;
      assert HexDecode(text, digits).value == [b] + HexDecode(text[2..], digits).value;
      assert text == text[..2] + text[2..];
    }
  }

  /** The texts that survive decoding and encoding are exactly pairs of lower-case digits; "+f", "A0" or "5" do not. */
  lemma CanonicalHex(text: string, digits: Digits)
    ensures (HexDecode(text, digits).Some? && HexEncode(HexDecode(text, digits).value) == text) <==> LowerHex(text)
  {
    if LowerHex(text) {
      LowerHexReencodes(text, digits);
    } else if HexDecode(text, digits).Some? {
      EncodedIsLowerHex(HexDecode(text, digits).value);
    }
  }
}
