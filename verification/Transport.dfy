// Lists of packets on their way from one side to the other: the writer's calls, the bytes they put on the
// connection, and the reader's calls (BaseConnection.cpp on the PC, LegacyProtocol.kt on the phone).
module Transport {
  import opened Bits
  import opened Options
  import opened Framing
  import opened LegacyProtocol

  /** Of what was written behind `before`, the reader gets the first packets, and all of them if all was written. */
  lemma Arrives(ps: seq<Packet>, before: seq<uint8>, after: seq<uint8>, packets: seq<Packet>)
    requires AllFramable(ps) && PartOf(before, after, Frames(ps)) && |packets| <= |ps|
    requires DecodeMany(after[|before|..], |packets|).Some?
             && DecodeMany(after[|before|..], |packets|).value.0 == packets
    ensures packets <= ps
  {
    hide Frames, DecodeMany, Framable;
    assert after[|before|..] == Frames(ps)[..|after| - |before|];
    BrokenStreamIsPrefix(ps, after[|before|..], packets);
  }

  lemma AllArrives(ps: seq<Packet>, before: seq<uint8>, after: seq<uint8>)
    requires AllFramable(ps) && after == before + Frames(ps)
    ensures DecodeMany(after[|before|..], |ps|) == Some((ps, []))
  {
    hide Frames, DecodeMany, Framable;
    assert after[|before|..] == Frames(ps);
    WholeStreamIsRead(ps);
  }

  /** From PC to PC: whatever the schedules, a prefix of the list; under benign ones the whole list. */
  method PcToPc(ps: seq<Packet>, sender: Socket, receiver: Socket) returns (packets: seq<Packet>)
    requires AllFramable(ps) && sender != receiver
    modifies sender, receiver
    ensures packets <= ps
    ensures Benign(old(sender.turns)) && Benign(old(receiver.turns)) ==> packets == ps
  {
    hide Frames, DecodeMany, PartOf, Framable;
    ghost var before := sender.output;
    var start := |sender.output|;
    FramableIds(ps);
    var written := sender.WritePackets(ps);
    WrittenBehind(before, sender.output, Frames(ps));
    receiver.input := sender.output[start..];
    if written == |ps| { AllArrives(ps, before, sender.output); }
    packets := receiver.ReadPackets(|ps|);
    Arrives(ps, before, sender.output, packets);
    assert |packets| == |ps| ==> packets == ps;
  }

  /** From PC to phone. */
  method PcToPhone(ps: seq<Packet>, sender: Socket, phone: DataStreams) returns (packets: seq<Packet>)
    requires AllFramable(ps)
    modifies sender, phone
    ensures packets <= ps
    ensures Benign(old(sender.turns)) ==> packets == ps
  {
    hide Frames, DecodeMany, PartOf, Framable;
    ghost var before := sender.output;
    var start := |sender.output|;
    FramableIds(ps);
    var written := sender.WritePackets(ps);
    WrittenBehind(before, sender.output, Frames(ps));
    phone.input := sender.output[start..];
    if written == |ps| { AllArrives(ps, before, sender.output); }
    packets := phone.ReadPackets(|ps|);
    Arrives(ps, before, sender.output, packets);
    assert |packets| == |ps| ==> packets == ps;
  }

  /** From phone to PC: the whole list if the phone's connection takes it and the PC's calls are benign. */
  method PhoneToPc(ps: seq<Packet>, phone: DataStreams, receiver: Socket) returns (packets: seq<Packet>)
    requires AllFramable(ps)
    modifies phone, receiver
    ensures packets <= ps
    ensures old(phone.room) >= |Frames(ps)| && Benign(old(receiver.turns)) ==> packets == ps
  {
    hide Frames, DecodeMany, PartOf, Framable;
    ghost var before := phone.output;
    var start := |phone.output|;
    var written := phone.WritePackets(ps);
    WrittenBehind(before, phone.output, Frames(ps));
    receiver.input := phone.output[start..];
    if written == |ps| { AllArrives(ps, before, phone.output); }
    packets := receiver.ReadPackets(|ps|);
    Arrives(ps, before, phone.output, packets);
    assert |packets| == |ps| ==> packets == ps;
  }

  lemma FramableIds(ps: seq<Packet>)
    requires AllFramable(ps)
    ensures forall i :: 0 <= i < |ps| ==> ps[i].id < 0x1_0000
  {
  }

  lemma WrittenBehind(before: seq<uint8>, after: seq<uint8>, data: seq<uint8>)
    requires PartOf(before, after, data)
    ensures |before| <= |after|
  {
  }
}
