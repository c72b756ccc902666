// Packet framing over sockets with short reads, short writes and would-block results, as the PC's side
// implements it (common/src/connection/BaseConnection.cpp).
module Framing {
  import opened Bits
  import opened Options

  /** The packet header 0xDB065AC7AFDFA4CC in network byte order. */
  const HEADER: seq<uint8> := [0xDB, 0x06, 0x5A, 0xC7, 0xAF, 0xDF, 0xA4, 0xCC]

  datatype PacketError = Unknown | NoError | ClosedConnection | Timeout

  datatype SocketError =
    | WouldBlock | InProgress | TryAgain
    | ConnectRefused | HostUnreachable | ConnectAborted | ConnectReset | NetUnreachable | BrokenPipe
    | TimedOut
    | Other

  function GetPacketError(result: int, error: SocketError): PacketError {
    if result == 0 then ClosedConnection
    else match error
      case WouldBlock => NoError
      case InProgress => NoError
      case TryAgain => NoError
      case TimedOut => Timeout
      case Other => Unknown
      case _ => ClosedConnection
  }

  // ---- frames ----

  datatype Packet = Packet(id: nat, data: seq<uint8>)

  /** The low sixteen bits of v, most significant byte first. */
  function Network(v: nat): (bytes: seq<uint8>)
    ensures |bytes| == 2
  {
    [v / 256 % 256, v % 256]
  }

  function FromNetwork(bytes: seq<uint8>): (v: nat)
    requires |bytes| == 2
    ensures v < 0x1_0000
  {
    var high: nat := bytes[0];
    high * 256 + bytes[1]
  }

  lemma NetworkReadsBack(v: nat)
    ensures FromNetwork(Network(v)) == v % 0x1_0000
  {
    assert v == v / 0x1_0000 * 0x1_0000 + v % 0x1_0000;
    assert v / 256 == v / 0x1_0000 * 256 + v % 0x1_0000 / 256;
  }

  /** The bytes the PC writes for a payload: the size passes through a uint32_t, the length field through a uint16_t. */
  function Frame(p: Packet): seq<uint8> {
    HEADER + Network(p.id) + Network(|p.data|) + p.data[..|p.data| % 0x1_0000_0000]
  }

  /** Eight header bytes, two of id, two of length, high bytes first, and the payload. */
  lemma FrameFormat(p: Packet)
    requires p.id < 0x1_0000 && |p.data| < 0x1_0000
    ensures var f := Frame(p);
            && |f| == 12 + |p.data| && f[..8] == [0xDB, 0x06, 0x5A, 0xC7, 0xAF, 0xDF, 0xA4, 0xCC]
            && f[8] == p.id / 256 && f[9] == p.id % 256 && f[10] == |p.data| / 256 && f[11] == |p.data| % 256
            && f[12..] == p.data
  {
  }

  /** The payloads the framing is made for. */
  predicate Framable(p: Packet) { p.id < 0x1_0000 && 1 <= |p.data| <= 0xFFFF }

  // ---- the header matcher ----

  function Matched(matched: nat, b: uint8): (m: nat)
    requires matched < 8
    ensures m <= 8
  {
    if b == HEADER[matched] then matched + 1 else 0
  }

  /** What follows the first header the matcher recognizes, starting with `matched` bytes matched. */
  function AfterHeader(input: seq<uint8>, matched: nat): (rest: Option<seq<uint8>>)
    requires matched <= 8
    ensures rest.Some? ==> |rest.value| + 8 - matched <= |input|
  {
    if matched == 8 then Some(input)
    else if input == [] then None
    else AfterHeader(input[1..], Matched(matched, input[0]))
  }

  /** The matcher's count after reading bytes in which it recognizes no header. */
  function MatcherAfter(bytes: seq<uint8>, matched: nat): (m: nat)
    requires matched <= 8
    ensures m <= 8
  {
    if matched == 8 || bytes == [] then matched else MatcherAfter(bytes[1..], Matched(matched, bytes[0]))
  }

  lemma {:induction false} MatcherPasses(bytes: seq<uint8>, more: seq<uint8>, matched: nat)
    requires matched <= 8 && MatcherAfter(bytes, matched) < 8
    ensures AfterHeader(bytes + more, matched) == AfterHeader(more, MatcherAfter(bytes, matched))
  {
    if bytes == [] {
      assert bytes + more == more;
    } else {
      MatcherPasses(bytes[1..], more, Matched(matched, bytes[0]));
      assert (bytes + more)[1..] == bytes[1..] + more;
    }
  }

  /** A header is recognized from count k if its first k bytes were matched. */
  lemma {:induction false} HeaderMatches(k: nat, more: seq<uint8>)
    requires k <= 8
    ensures AfterHeader(HEADER[k..] + more, k) == Some(more)
    decreases 8 - k
  {
    if k == 8 {
      assert HEADER[k..] + more == more;
    } else {
      HeaderMatches(k + 1, more);
      assert (HEADER[k..] + more)[1..] == HEADER[k + 1..] + more;
    }
  }

  /** From any other count the whole header is lost, because no header byte equals another. */
  lemma {:induction false} HeaderMisses(k: nat, matched: nat, more: seq<uint8>)
    requires k <= 8 && matched < 8
    requires if k == 0 then matched > 0 else matched == 0
    ensures AfterHeader(HEADER[k..] + more, matched) == AfterHeader(more, 0)
    decreases 8 - k
  {
    if k == 8 {
      assert HEADER[k..] + more == more;
    } else {
      HeaderMisses(k + 1, 0, more);
      assert (HEADER[k..] + more)[1..] == HEADER[k + 1..] + more;
      assert HEADER[k] != HEADER[matched];
    }
  }

  /** Behind junk without a header, the next header is recognized exactly if the junk leaves the count at 0. */
  lemma Resynchronizes(junk: seq<uint8>, more: seq<uint8>)
    requires MatcherAfter(junk, 0) < 8
    ensures AfterHeader(junk + HEADER + more, 0) == Some(more) <==> MatcherAfter(junk, 0) == 0
    ensures MatcherAfter(junk, 0) > 0 ==> AfterHeader(junk + HEADER + more, 0) == AfterHeader(more, 0)
  {
    MatcherPasses(junk, HEADER + more, 0);
    assert junk + HEADER + more == junk + (HEADER + more);
    assert HEADER[0..] == HEADER;
    if MatcherAfter(junk, 0) == 0 {
      HeaderMatches(0, more);
    } else {
      HeaderMisses(0, MatcherAfter(junk, 0), more);
    }
  }

  /** One stray first header byte in front of a frame makes the reader miss the frame. */
  lemma StrayByteLosesFrame(more: seq<uint8>)
    ensures AfterHeader([0xDB] + HEADER + more, 0) == AfterHeader(more, 0) != Some(more)
  {
    assert MatcherAfter([0xDB], 0) == MatcherAfter([0xDB][1..], 1) == 1;
    Resynchronizes([0xDB], more);
  }

  // ---- what a reader makes of a stream ----

  datatype Decoded = Got(packet: Packet, rest: seq<uint8>) | Empty(rest: seq<uint8>) | Incomplete

  /** Id, length and payload; a zero length is an error, whatever follows. */
  function DecodeBody(body: seq<uint8>): Decoded {
    if |body| < 4 then Incomplete
    else
      var id, length := FromNetwork(body[..2]), FromNetwork(body[2..4]);
      if length == 0 then Empty(body[4..])
      else if |body| < 4 + length then Incomplete
      else Got(Packet(id, body[4..4 + length]), body[4 + length..])
  }

  lemma ShortBody(body: seq<uint8>)
    requires |body| < 4
    ensures DecodeBody(body) == Incomplete
  {
  }

  /** A body that starts with these two fields. */
  lemma BodyIs(body: seq<uint8>, id: seq<uint8>, length: seq<uint8>, rest: seq<uint8>)
    requires |id| == |length| == 2 && body == id + (length + rest)
    ensures var n := FromNetwork(length);
            DecodeBody(body) == if n == 0 then Empty(rest) else if |rest| < n then Incomplete
                                else Got(Packet(FromNetwork(id), rest[..n]), rest[n..])
  {
    hide FromNetwork;
    var n := FromNetwork(length);
    assert body[..2] == id && body[2..4] == length && body[4..] == rest;
    if n <= |rest| {
      assert body[4..4 + n] == rest[..n] && body[4 + n..] == rest[n..];
    }
  }

  function Decode(input: seq<uint8>): Decoded {
    match AfterHeader(input, 0)
    case None => Incomplete
    case Some(body) => DecodeBody(body)
  }

  lemma BodyReadsBack(id: nat, length: nat, tail: seq<uint8>)
    ensures DecodeBody(Network(id) + Network(length) + tail)
            == if length % 0x1_0000 == 0 then Empty(tail)
               else if |tail| < length % 0x1_0000 then Incomplete
               else Got(Packet(id % 0x1_0000, tail[..length % 0x1_0000]), tail[length % 0x1_0000..])
  {
    hide Network, FromNetwork;
    NetworkReadsBack(id);
    NetworkReadsBack(length);
    var body := Network(id) + Network(length) + tail;
    assert body[..2] == Network(id) && body[2..4] == Network(length) && body[4..] == tail;
    var n := length % 0x1_0000;
    if n <= |tail| {
      assert body[4..4 + n] == tail[..n] && body[4 + n..] == tail[n..];
    }
  }

  /** A frame behind skippable junk reads back exactly if its id and payload length fit their fields. */
  lemma FrameReadsBack(junk: seq<uint8>, p: Packet, more: seq<uint8>)
    requires MatcherAfter(junk, 0) == 0
    ensures Decode(junk + Frame(p) + more) == Got(p, more) <==> Framable(p)
  {
    hide MatcherAfter, AfterHeader, DecodeBody, Network;
    var payload := p.data[..|p.data| % 0x1_0000_0000];
    var body := Network(p.id) + Network(|p.data|) + (payload + more);
    assert junk + Frame(p) + more == junk + HEADER + body;
    Resynchronizes(junk, body);
    BodyReadsBack(p.id, |p.data|, payload + more);
    if Framable(p) {
      assert payload == p.data;
    }
  }

  /** Junk, frame, junk, frame, and so on. */
  function StreamOfFrames(items: seq<(seq<uint8>, Packet)>): seq<uint8> {
    if items == [] then []
    else
      var last := items[|items| - 1];
      StreamOfFrames(items[..|items| - 1]) + last.0 + Frame(last.1)
  }

  /** n packets in a row, and what is left of the stream. */
  function DecodeMany(input: seq<uint8>, n: nat): (r: Option<(seq<Packet>, seq<uint8>)>)
    ensures r.Some? ==> |r.value.0| == n
  {
    if n == 0 then Some(([], input))
    else match DecodeMany(input, n - 1)
      case None => None
      case Some(before) =>
        match Decode(before.1)
        case Got(p, rest) => Some((before.0 + [p], rest))
        case _ => None
  }

  function PacketsOf(items: seq<(seq<uint8>, Packet)>): seq<Packet> {
    seq(|items|, i requires 0 <= i < |items| => items[i].1)
  }

  /** Whatever is written is read: the same ids and payloads in the same order, junk skipped. */
  lemma {:induction false} FramesReadBack(items: seq<(seq<uint8>, Packet)>, more: seq<uint8>)
    requires forall i :: 0 <= i < |items| ==> Framable(items[i].1) && MatcherAfter(items[i].0, 0) == 0
    ensures DecodeMany(StreamOfFrames(items) + more, |items|) == Some((PacketsOf(items), more))
  {
    hide Frame, Decode, MatcherAfter, Framable;
    if items == [] {
      assert StreamOfFrames(items) + more == more && PacketsOf(items) == [];
    } else {
      var n := |items| - 1;
      var last := items[n];
      FramesReadBack(items[..n], last.0 + Frame(last.1) + more);
      FrameReadsBack(last.0, last.1, more);
      assert StreamOfFrames(items) + more == StreamOfFrames(items[..n]) + (last.0 + Frame(last.1) + more);
      assert PacketsOf(items[..n]) + [last.1] == PacketsOf(items);
    }
  }

  lemma {:induction false} DecodeManyStops(input: seq<uint8>, k: nat, n: nat)
    requires k <= n && DecodeMany(input, k).None?
    ensures DecodeMany(input, n).None?
  {
    if k < n { DecodeManyStops(input, k, n - 1); }
  }

  // ---- streams that break off ----

  /** The frames of a list of packets, one behind the other. */
  function Frames(ps: seq<Packet>): seq<uint8> { StreamOfFrames(Plain(ps)) }

  function Plain(ps: seq<Packet>): seq<(seq<uint8>, Packet)> {
    seq(|ps|, i requires 0 <= i < |ps| => ([], ps[i]))
  }

  lemma FramesThen(ps: seq<Packet>, p: Packet)
    ensures Frames(ps + [p]) == Frames(ps) + Frame(p)
  {
    hide Frame;
    assert Plain(ps + [p])[..|ps|] == Plain(ps);
    assert Frames(ps) + [] + Frame(p) == Frames(ps) + Frame(p);
  }

  lemma NoFrames()
    ensures Frames([]) == []
  {
  }

  lemma {:induction false} FramesSplit(ps: seq<Packet>, k: nat)
    requires k <= |ps|
    ensures |Frames(ps[..k])| <= |Frames(ps)| && Frames(ps)[..|Frames(ps[..k])|] == Frames(ps[..k])
  {
    hide Frames, Frame;
    if k < |ps| {
      var n := |ps| - 1;
      FramesSplit(ps[..n], k);
      FramesThen(ps[..n], ps[n]);
      assert ps[..n][..k] == ps[..k] && ps[..n] + [ps[n]] == ps;
    } else {
      assert ps[..k] == ps;
    }
  }

  lemma {:induction false} AfterHeaderExtends(input: seq<uint8>, more: seq<uint8>, matched: nat)
    requires matched <= 8 && AfterHeader(input, matched).Some?
    ensures AfterHeader(input + more, matched) == Some(AfterHeader(input, matched).value + more)
  {
    if matched < 8 {
      AfterHeaderExtends(input[1..], more, Matched(matched, input[0]));
      assert (input + more)[1..] == input[1..] + more;
    }
  }

  /** A packet found in a stream is found, whatever the stream goes on with. */
  lemma DecodeExtends(input: seq<uint8>, more: seq<uint8>)
    requires Decode(input).Got?
    ensures Decode(input + more) == Got(Decode(input).packet, Decode(input).rest + more)
  {
    hide AfterHeader, FromNetwork;
    AfterHeaderExtends(input, more, 0);
    var body := AfterHeader(input, 0).value;
    var length := FromNetwork(body[2..4]);
    assert (body + more)[..2] == body[..2] && (body + more)[2..4] == body[2..4];
    assert (body + more)[4..4 + length] == body[4..4 + length]
           && (body + more)[4 + length..] == body[4 + length..] + more;
  }

  lemma {:induction false} DecodeManyExtends(input: seq<uint8>, more: seq<uint8>, n: nat)
    requires DecodeMany(input, n).Some?
    ensures DecodeMany(input + more, n) == Some((DecodeMany(input, n).value.0, DecodeMany(input, n).value.1 + more))
  {
    hide Decode;
    if n > 0 {
      DecodeManyExtends(input, more, n - 1);
      DecodeExtends(DecodeMany(input, n - 1).value.1, more);
    }
  }

  lemma {:induction false} DecodeManyPrefix(input: seq<uint8>, k: nat, n: nat)
    requires k <= n && DecodeMany(input, n).Some?
    ensures DecodeMany(input, k).Some? && DecodeMany(input, k).value.0 == DecodeMany(input, n).value.0[..k]
  {
    hide Decode;
    if k < n {
      DecodeManyPrefix(input, k, n - 1);
      var before, all := DecodeMany(input, n - 1).value.0, DecodeMany(input, n).value.0;
      assert all[..n - 1] == before && all[..k] == before[..k];
    }
  }

  predicate AllFramable(ps: seq<Packet>) { forall i :: 0 <= i < |ps| ==> Framable(ps[i]) }

  /** Of a stream of frames that breaks off anywhere, a reader gets the first packets of the list. */
  lemma BrokenStreamIsPrefix(ps: seq<Packet>, sent: seq<uint8>, packets: seq<Packet>)
    requires AllFramable(ps) && sent <= Frames(ps) && |packets| <= |ps|
    requires DecodeMany(sent, |packets|).Some? && DecodeMany(sent, |packets|).value.0 == packets
    ensures packets <= ps
  {
    WholeStreamIsRead(ps);
    hide Frames, DecodeMany, Framable;
    var more := Frames(ps)[|sent|..];
    assert Frames(ps) == sent + more;
    DecodeManyExtends(sent, more, |packets|);
    DecodeManyPrefix(Frames(ps), |packets|, |ps|);
  }

  lemma WholeStreamIsRead(ps: seq<Packet>)
    requires AllFramable(ps)
    ensures DecodeMany(Frames(ps), |ps|) == Some((ps, []))
  {
    hide DecodeMany, Frame, Framable;
    FramesReadBack(Plain(ps), []);
    assert Frames(ps) + [] == Frames(ps);
    assert PacketsOf(Plain(ps)) == ps;
  }

  /** What a call to read a packet returns. */
  datatype Received = Received(packet: Packet) | Failed(error: PacketError) {
    /** The packet is the next one of the stream. */
    ghost predicate Sound(before: seq<uint8>, after: seq<uint8>) {
      Received? ==> Decode(before) == Got(packet, after)
    }

    /** The next packet of the stream is returned, and otherwise the error that fits. */
    ghost predicate Complete(before: seq<uint8>, after: seq<uint8>) {
      match Decode(before)
      case Got(p, rest) => this == Received(p) && after == rest
      case Empty(rest) => this == Failed(Unknown) && after == rest
      case Incomplete => this == Failed(ClosedConnection)
    }
  }

  /** Some prefix of the data was appended. */
  ghost predicate PartOf(before: seq<uint8>, after: seq<uint8>, data: seq<uint8>) {
    && |before| <= |after| <= |before| + |data|
    && after == before + data[..|after| - |before|]
  }

  lemma PartOfLonger(before: seq<uint8>, done: seq<uint8>, after: seq<uint8>, part: seq<uint8>, rest: seq<uint8>)
    requires PartOf(before + done, after, part)
    ensures PartOf(before, after, done + part + rest)
  {
    var n := |after| - |before + done|;
    assert (done + part + rest)[..|after| - |before|] == done + part[..n];
  }

  // ---- sockets ----

  /** What one read or write call does: move some bytes, end the stream, or fail. */
  datatype Turn = Deliver(limit: nat) | Close | Fail(error: SocketError) {
    /** The call makes progress or may be repeated. */
    predicate Benign() {
      Deliver? || (Fail? && (error.WouldBlock? || error.InProgress? || error.TryAgain?))
    }

    /** The call fails for good, and this is the error the caller is told. */
    predicate Fatal(e: PacketError) {
      && !Benign()
      && (e.Timeout? <==> Fail? && error.TimedOut?)
      && (e.Unknown? <==> Fail? && error.Other?)
      && (e.ClosedConnection? <==> Close? || (Fail? && !error.TimedOut? && !error.Other?))
    }
  }

  predicate Benign(turns: seq<Turn>) { forall i :: 0 <= i < |turns| ==> turns[i].Benign() }

  /** The first turns were used up, and all of them were benign. */
  ghost predicate Ran(before: seq<Turn>, after: seq<Turn>) {
    exists k :: 0 <= k <= |before| && RanFor(before, after, k)
  }

  predicate RanFor(before: seq<Turn>, after: seq<Turn>, k: nat)
    requires k <= |before|
  {
    after == before[k..] && Benign(before[..k])
  }

  /** The first turns were used up, and the last one of these is the first that is not benign. */
  ghost predicate Broke(before: seq<Turn>, after: seq<Turn>, e: PacketError) {
    exists k :: 0 <= k < |before| && RanFor(before, before[k..], k) && before[k].Fatal(e) && after == before[k + 1..]
  }

  lemma NothingRan(turns: seq<Turn>)
    ensures Ran(turns, turns)
  {
    assert turns[0..] == turns;
    assert RanFor(turns, turns, 0);
  }

  /** One more turn. */
  lemma RanOne(before: seq<Turn>, turns: seq<Turn>)
    requires Ran(before, turns)
    ensures turns != [] && turns[0].Benign() ==> Ran(before, turns[1..])
    ensures forall e: PacketError :: turns != [] && turns[0].Fatal(e) ==> Broke(before, turns[1..], e)
  {
    var k :| 0 <= k <= |before| && RanFor(before, turns, k);
    if turns != [] {
      assert turns[0] == before[k] && turns[1..] == before[k + 1..];
      if turns[0].Benign() {
        assert before[..k + 1] == before[..k] + [before[k]];
        assert RanFor(before, turns[1..], k + 1);
      }
    }
  }

  lemma RanTrans(a: seq<Turn>, b: seq<Turn>, c: seq<Turn>)
    requires Ran(a, b) && Ran(b, c)
    ensures Ran(a, c)
  {
    var j :| 0 <= j <= |a| && RanFor(a, b, j);
    var k :| 0 <= k <= |b| && RanFor(b, c, k);
    AndThen(a, b, c, j, k);
  }

  lemma AndThen(a: seq<Turn>, b: seq<Turn>, c: seq<Turn>, j: nat, k: nat)
    requires j <= |a| && k <= |b| && RanFor(a, b, j) && RanFor(b, c, k)
    ensures j + k <= |a| && RanFor(a, c, j + k)
  {
    assert a[j..][k..] == a[j + k..];
    assert a[..j + k] == a[..j] + b[..k];
  }

  lemma RanBreaks(a: seq<Turn>, b: seq<Turn>, c: seq<Turn>, e: PacketError)
    requires Ran(a, b) && Broke(b, c, e)
    ensures Broke(a, c, e)
  {
    var j :| 0 <= j <= |a| && RanFor(a, b, j);
    var k :| 0 <= k < |b| && RanFor(b, b[k..], k) && b[k].Fatal(e) && c == b[k + 1..];
    AndThen(a, b, b[k..], j, k);
    assert a[j..][k..] == a[j + k..] && b[k] == a[j + k] && c == a[j + k + 1..];
  }

  /** A benign schedule never breaks, and what is left of it is benign. */
  lemma BenignRuns(before: seq<Turn>, after: seq<Turn>, e: PacketError)
    ensures Benign(before) ==> !Broke(before, after, e) && (Ran(before, after) ==> Benign(after))
  {
  }

  /** Turns that ran, followed by turns that ran or broke. */
  lemma Continues(a: seq<Turn>, b: seq<Turn>, c: seq<Turn>, e: PacketError)
    requires Ran(a, b) && (Ran(b, c) || Broke(b, c, e))
    ensures Ran(b, c) ==> Ran(a, c)
    ensures Broke(b, c, e) ==> Broke(a, c, e) && !Ran(a, c) && !Ran(b, c)
  {
    hide Ran, Broke;
    if Ran(b, c) { RanTrans(a, b, c); }
    if Broke(b, c, e) {
      RanBreaks(a, b, c, e);
      RanOrBroke(a, c, e);
      RanOrBroke(b, c, e);
    }
  }

  /** A schedule does not both run and break, and when it breaks there is an error. */
  lemma RanOrBroke(before: seq<Turn>, after: seq<Turn>, e: PacketError)
    ensures Broke(before, after, e) ==> !Ran(before, after) && !e.NoError?
  {
  }

  /** The number of bytes a call with this limit moves: at least one, at most what there is. */
  function Portion(limit: nat, available: nat): (k: nat)
    requires available > 0
    ensures 1 <= k <= available
  {
    if limit == 0 then 1 else if limit < available then limit else available
  }

  /** A connected socket. `turns` is any finite schedule; once it is used up, calls move all they can. */
  class Socket {
    var input: seq<uint8>
    var output: seq<uint8>
    var turns: seq<Turn>

    method Read(size: nat) returns (result: int, bytes: seq<uint8>, error: SocketError)
      requires size > 0
      modifies this`input, this`turns
      ensures result == |bytes| > 0 || (bytes == [] && result <= 0)
      ensures result <= size && old(input) == bytes + input
      ensures turns == if old(turns) == [] then [] else old(turns)[1..]
      ensures var turn := if old(turns) == [] then Deliver(size) else old(turns)[0];
              if turn.Deliver? then (if old(input) == [] then result == 0 else result > 0)
              else if turn.Close? then result == 0
              else result == -1 && error == turn.error
    {
      var turn := if turns == [] then Deliver(size) else turns[0];
      turns := if turns == [] then [] else turns[1..];
      error := Other;
      match turn
      case Deliver(limit) =>
        if input == [] {
          return 0, [], error;
        }
        var k := Portion(limit, if size < |input| then size else |input|);
        result, bytes := k, input[..k];
        input := input[k..];
      case Close => return 0, [], error;
      case Fail(e) => return -1, [], e;
    }

    method Write(data: seq<uint8>) returns (result: int, error: SocketError)
      requires data != []
      modifies this`output, this`turns
      ensures result <= |data| && output == old(output) + data[..if result > 0 then result else 0]
      ensures turns == if old(turns) == [] then [] else old(turns)[1..]
      ensures var turn := if old(turns) == [] then Deliver(|data|) else old(turns)[0];
              if turn.Deliver? then result > 0
              else if turn.Close? then result == 0
              else result == -1 && error == turn.error
    {
      var turn := if turns == [] then Deliver(|data|) else turns[0];
      turns := if turns == [] then [] else turns[1..];
      error := Other;
      match turn
      case Deliver(limit) =>
        result := Portion(limit, |data|);
        output := output + data[..result];
      case Close => result := 0; assert output == output + data[..0];
      case Fail(e) => result := -1; error := e; assert output == output + data[..0];
    }

    /** Reads exactly `size` bytes, however many calls that takes. */
    method ReadData(size: uint32) returns (error: PacketError, buffer: seq<uint8>)
      modifies this`input, this`turns
      ensures error.NoError? ==> |buffer| == size && old(input) == buffer + input
      ensures !error.NoError? ==> buffer == []
      ensures Ran(old(turns), turns) || (!error.NoError? && Broke(old(turns), turns, error))
      ensures Ran(old(turns), turns) ==>
              if size <= |old(input)| then error.NoError? else error.ClosedConnection? && input == []
      ensures Benign(old(turns)) ==> Ran(old(turns), turns) && Benign(turns)
    {
      hide Ran, Broke, Benign;
      buffer := [];
      NothingRan(turns);
      BenignRuns(turns, turns, Unknown);
      while |buffer| < size
        invariant |buffer| <= size && old(input) == buffer + input
        invariant Ran(old(turns), turns)
        decreases |turns| + size - |buffer|
      {
        RanOne(old(turns), turns);
        var result, bytes, e := Read(size - |buffer|);
        if result <= 0 {
          error := GetPacketError(result, e);
          if !error.NoError? {
            RanOrBroke(old(turns), turns, error);
            BenignRuns(old(turns), turns, error);
            return error, [];
          }
        } else {
          assert (buffer + bytes) + input == buffer + (bytes + input);
          buffer := buffer + bytes;
        }
      }
      error := NoError;
      BenignRuns(old(turns), turns, error);
    }

    /** Scans for the header byte by byte; a mismatch restarts the match at the next byte. */
    method ReadHeader() returns (error: PacketError)
      modifies this`input, this`turns
      ensures error.NoError? ==> AfterHeader(old(input), 0) == Some(input)
      ensures Ran(old(turns), turns) || (!error.NoError? && Broke(old(turns), turns, error))
      ensures Ran(old(turns), turns) ==>
        if AfterHeader(old(input), 0).Some? then error.NoError? else error.ClosedConnection? && input == []
      ensures Benign(old(turns)) ==> Ran(old(turns), turns) && Benign(turns)
    {
      hide Ran, Broke, Benign;
      NothingRan(turns);
      BenignRuns(turns, turns, Unknown);
      var correctHeaderBytes: nat := 0;
      while correctHeaderBytes < |HEADER|
        invariant correctHeaderBytes <= |HEADER|
        invariant AfterHeader(old(input), 0) == AfterHeader(input, correctHeaderBytes)
        invariant Ran(old(turns), turns)
        decreases |turns| + |input|
      {
        ghost var before := input;
        RanOne(old(turns), turns);
        var result, bytes, e := Read(1);
        if result <= 0 {
          assert input == before;
          error := GetPacketError(result, e);
          if !error.NoError? {
            RanOrBroke(old(turns), turns, error);
            BenignRuns(old(turns), turns, error);
            return error;
          }
        } else {
          assert bytes[0] == before[0] && input == before[1..];
          correctHeaderBytes := Matched(correctHeaderBytes, bytes[0]);
        }
      }
      error := NoError;
      BenignRuns(old(turns), turns, error);
    }

    /**
     * Whatever the schedule, a packet is returned only if it comes next in the stream. The call fails before that
     * at the first turn that is not benign, with the error of that turn, and for no other reason.
     */
    method ReadPacket() returns (r: Received)
      modifies this`input, this`turns
      ensures r.Sound(old(input), input)
      ensures r.Failed? ==> !r.error.NoError?
      ensures Ran(old(turns), turns) || (r.Failed? && Broke(old(turns), turns, r.error))
      ensures Ran(old(turns), turns) ==> r.Complete(old(input), input)
      ensures Benign(old(turns)) ==> Ran(old(turns), turns) && Benign(turns) && r.Complete(old(input), input)
    {
      hide AfterHeader, DecodeBody, FromNetwork, Benign, Ran, Broke;
      var error := ReadHeader();
      if !error.NoError? {
        return Failed(error);
      }
      ghost var body, begun := input, turns;
      RanOrBroke(old(turns), turns, error);
      if |body| < 4 { ShortBody(body); }
      var id, length, data;
      error, id := ReadData(2);
      Continues(old(turns), begun, turns, error);
      if !error.NoError? {
        return Failed(error);
      }
      begun := turns;
      error, length := ReadData(2);
      Continues(old(turns), begun, turns, error);
      if !error.NoError? {
        return Failed(error);
      }
      BodyIs(body, id, length, input);
      ghost var rest := input;
      var packetLength := FromNetwork(length);
      if packetLength == 0 {
        return Failed(Unknown);
      }
      begun := turns;
      error, data := ReadData(packetLength);
      Continues(old(turns), begun, turns, error);
      if !error.NoError? {
        return Failed(error);
      }
      assert rest[..packetLength] == data && rest[packetLength..] == input;
      return Received(Packet(FromNetwork(id), data));
    }

    /** Writes `size` bytes of the data, or a proper prefix of them when a call fails. */
    method WriteData(data: seq<uint8>, size: uint32) returns (error: PacketError)
      requires size <= |data|
      modifies this`output, this`turns
      ensures error.NoError? ==> output == old(output) + data[..size]
      ensures PartOf(old(output), output, data[..size])
      ensures if error.NoError? then Ran(old(turns), turns) else Broke(old(turns), turns, error)
      ensures Benign(old(turns)) ==> error.NoError? && Benign(turns)
    {
      hide Ran, Broke, Benign;
      NothingRan(turns);
      var bytesWritten := 0;
      while bytesWritten < size
        invariant bytesWritten <= size && output == old(output) + data[..bytesWritten]
        invariant Ran(old(turns), turns)
        decreases |turns| + size - bytesWritten
      {
        RanOne(old(turns), turns);
        ghost var sent := data[..bytesWritten];
        var rest := data[bytesWritten..size];
        var result, e := Write(rest);
        if result <= 0 {
          assert data[..bytesWritten] == data[..size][..bytesWritten];
          error := GetPacketError(result, e);
          if !error.NoError? {
            BenignRuns(old(turns), turns, error);
            return error;
          }
        } else {
          assert (old(output) + sent) + rest[..result] == old(output) + (sent + rest[..result]);
          assert sent + rest[..result] == data[..bytesWritten + result];
          bytesWritten := bytesWritten + result;
        }
      }
      error := NoError;
      BenignRuns(old(turns), turns, error);
      assert data[..size][..size] == data[..size];
    }

    /** Appends one field behind the part of the frame that is already written. */
    method WriteField(field: seq<uint8>, size: uint32, ghost before: seq<uint8>, ghost done: seq<uint8>,
                      ghost frame: seq<uint8>) returns (error: PacketError)
      requires size <= |field| && output == before + done && done + field[..size] <= frame
      modifies this`output, this`turns
      ensures error.NoError? ==> output == before + (done + field[..size])
      ensures PartOf(before, output, frame)
      ensures if error.NoError? then Ran(old(turns), turns) else Broke(old(turns), turns, error)
      ensures Benign(old(turns)) ==> error.NoError? && Benign(turns)
    {
      hide Ran, Broke, Benign;
      error := WriteData(field, size);
      PartOfLonger(before, done, output, field[..size], frame[|done| + size..]);
      assert (before + done) + field[..size] == before + (done + field[..size]);
      assert done + field[..size] + frame[|done| + size..] == frame;
    }

    /** The whole frame is written, or a prefix of it when a call fails. */
    method WritePacket(p: Packet) returns (error: PacketError)
      requires p.id < 0x1_0000
      modifies this`output, this`turns
      ensures error.NoError? ==> output == old(output) + Frame(p)
      ensures PartOf(old(output), output, Frame(p))
      ensures if error.NoError? then Ran(old(turns), turns) else Broke(old(turns), turns, error)
      ensures Benign(old(turns)) ==> error.NoError? && Benign(turns)
    {
      hide PartOf, Ran, Broke, Benign;
      ghost var before, frame := output, Frame(p);
      var packetHeader, packetId, packetSize := HEADER, Network(p.id), Network(|p.data|);
      assert before + [] == before && [] + packetHeader == packetHeader;
      error := WriteField(packetHeader, 8, before, [], frame);
      if !error.NoError? {
        return error;
      }
      ghost var begun := turns;
      error := WriteField(packetId, 2, before, packetHeader, frame);
      Continues(old(turns), begun, turns, error);
      if !error.NoError? {
        return error;
      }
      begun := turns;
      error := WriteField(packetSize, 2, before, packetHeader + packetId, frame);
      Continues(old(turns), begun, turns, error);
      if !error.NoError? {
        return error;
      }
      begun := turns;
      error := WriteField(p.data, |p.data| % 0x1_0000_0000, before, packetHeader + packetId + packetSize, frame);
      Continues(old(turns), begun, turns, error);
    }

    /** Successive calls up to the first that fails, as a session makes them. */
    method WritePackets(ps: seq<Packet>) returns (written: nat)
      requires forall i :: 0 <= i < |ps| ==> ps[i].id < 0x1_0000
      modifies this`output, this`turns
      ensures PartOf(old(output), output, Frames(ps))
      ensures written == |ps| ==> output == old(output) + Frames(ps)
      ensures Benign(old(turns)) ==> written == |ps| && Benign(turns)
    {
      hide Frames, Frame;
      ghost var before := output;
      written := 0;
      NoFrames();
      assert before + [] == before;
      while written < |ps|
        invariant written <= |ps| && output == before + Frames(ps[..written])
        invariant Benign(old(turns)) ==> Benign(turns)
      {
        ghost var done, frame := Frames(ps[..written]), Frame(ps[written]);
        FramesSplit(ps, written + 1);
        FramesThen(ps[..written], ps[written]);
        assert ps[..written] + [ps[written]] == ps[..written + 1];
        ghost var rest := Frames(ps)[|done + frame|..];
        assert done + frame + rest == Frames(ps);
        var error := WritePacket(ps[written]);
        if !error.NoError? {
          PartOfLonger(before, done, output, frame, rest);
          return;
        }
        assert (before + done) + frame == before + (done + frame);
        written := written + 1;
      }
      assert ps[..|ps|] == ps;
    }

    /** Successive calls, as a session makes them. */
    method ReadPackets(n: nat) returns (packets: seq<Packet>)
      modifies this`input, this`turns
      ensures |packets| <= n && DecodeMany(old(input), |packets|).Some?
              && DecodeMany(old(input), |packets|).value.0 == packets
      ensures |packets| == n ==> DecodeMany(old(input), n) == Some((packets, input))
      ensures Benign(old(turns)) && DecodeMany(old(input), n).Some? ==> |packets| == n
    {
      packets := [];
      while |packets| < n
        invariant |packets| <= n && DecodeMany(old(input), |packets|) == Some((packets, input))
        invariant Benign(old(turns)) ==> Benign(turns)
      {
        var r := ReadPacket();
        if r.Failed? {
          if Benign(old(turns)) { DecodeManyStops(old(input), |packets| + 1, n); }
          return;
        }
        packets := packets + [r.packet];
      }
    }
  }
}
