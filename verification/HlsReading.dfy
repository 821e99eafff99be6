/** Segments as a player reads them: cut into packets, each stream put together again, and what stands
    in it compared with the frames of the group the segment was made of. */
module HlsReading {
  import opened Bytes
  import opened TsFormat
  import opened TsPackets
  import opened TsTables
  import opened TsRuns
  import opened HlsFormat
  import opened HlsBytes

  /** Packets of a fixed size. */
  function Cut(data: seq<byte>): seq<seq<byte>>
    decreases |data|
  {
    if |data| < PACKET_LEN then [] else [data[..PACKET_LEN]] + Cut(data[PACKET_LEN..])
  }

  /** What one more packet adds to a stream: at a unit start a new piece, otherwise more of the last. */
  function Gathered(sofar: seq<seq<byte>>, pkt: seq<byte>, pid: nat): seq<seq<byte>> {
    var r := ReadPacket(pkt);
    if r.None? || r.value.pid != pid then sofar
    else if r.value.unit then sofar + [r.value.payload]
    else if sofar == [] then []
    else sofar[..|sofar| - 1] + [sofar[|sofar| - 1] + r.value.payload]
  }

  /** The pieces of a stream, from unit start to unit start. */
  function Gather(pkts: seq<seq<byte>>, pid: nat): seq<seq<byte>> {
    if pkts == [] then [] else Gathered(Gather(pkts[..|pkts| - 1], pid), pkts[|pkts| - 1], pid)
  }

  /** A player's view of a stream of a segment. */
  function ReadStream(data: seq<byte>, pid: nat): seq<Option<PesContent>> {
    var pieces := Gather(Cut(data), pid);
    seq(|pieces|, i requires 0 <= i < |pieces| => ReadPes(pieces[i]))
  }

  // ----- Packets --------------------------------------------------------------------------------

  ghost predicate Whole(pkts: seq<seq<byte>>) {
    forall i | 0 <= i < |pkts| :: |pkts[i]| == PACKET_LEN
  }

  lemma {:induction false} CutConcat(pkts: seq<seq<byte>>)
    requires Whole(pkts)
    ensures Cut(Concat(pkts)) == pkts
  {
    if pkts != [] {
      CutConcat(pkts[1..]);
      Unjoin(pkts[0], Concat(pkts[1..]));
      assert pkts == [pkts[0]] + pkts[1..];
    }
  }

  lemma {:induction false} PacketsWhole(p: Frame, unit: bool, cc: nat, rest: seq<byte>)
    requires cc < 16
    ensures Whole(Packets(p, unit, cc, rest))
    decreases |rest|
  {
    hide Packet;
    if rest != [] {
      PacketsWhole(p, false, NextCc(cc), rest[Carried(p, unit, |rest|)..]);
    }
  }

  lemma EmittedWhole(op: Op, c: Counters)
    requires Ok(c)
    ensures Whole(Emitted(op, c))
  {
    hide Packets, PatPacket, PmtPacket;
    if op.MuxFrame? {
      PacketsWhole(op.p, true, if op.p.isVideo then c.video else c.audio, Pes(op.p));
    }
  }

  lemma {:induction false} RunWhole(ops: seq<Op>, c: Counters)
    requires Ok(c)
    ensures Whole(TsRuns.Run(ops, c))
    decreases |ops|
  {
    hide Emitted, Step;
    if ops != [] {
      EmittedWhole(ops[0], c);
      RunWhole(ops[1..], Step(ops[0], c));
    }
  }

  lemma GatherNext(pkts: seq<seq<byte>>, pkt: seq<byte>, pid: nat)
    ensures Gather(pkts + [pkt], pid) == Gathered(Gather(pkts, pid), pkt, pid)
  {
    assert (pkts + [pkt])[..|pkts|] == pkts;
  }

  // ----- Frames ---------------------------------------------------------------------------------

  lemma {:induction false} OtherStream(a: seq<seq<byte>>, p: Frame, unit: bool, cc: nat, rest: seq<byte>, pid: nat)
    requires cc < 16 && pid != Pid(p)
    ensures Gather(a + Packets(p, unit, cc, rest), pid) == Gather(a, pid)
    decreases |rest|
  {
    hide Packet, ReadPacket, Gather;
    if rest == [] {
      assert a + [] == a;
    } else {
      var pkt, rest' := Packet(p, unit, NextCc(cc), rest), rest[Carried(p, unit, |rest|)..];
      EveryPacketReads(p, unit, NextCc(cc), rest);
      GatherNext(a, pkt, pid);
      OtherStream(a + [pkt], p, false, NextCc(cc), rest', pid);
      Regroup(a, [pkt], Packets(p, false, NextCc(cc), rest'));
    }
  }

  /** The packets after the first add what is left to the last piece. */
  lemma {:induction false} LaterPackets(a: seq<seq<byte>>, p: Frame, cc: nat, rest: seq<byte>, init: seq<seq<byte>>, last: seq<byte>)
    requires cc < 16 && Gather(a, Pid(p)) == init + [last]
    ensures Gather(a + Packets(p, false, cc, rest), Pid(p)) == init + [last + rest]
    decreases |rest|
  {
    hide Packet, ReadPacket, Gather;
    if rest == [] {
      assert a + [] == a && last + [] == last;
    } else {
      var k, cc' := Carried(p, false, |rest|), NextCc(cc);
      var pkt, rest' := Packet(p, false, cc', rest), rest[k..];
      PacketReads(p, false, cc', rest);
      GatherNext(a, pkt, Pid(p));
      Unjoin(init, [last]);
      LaterPackets(a + [pkt], p, cc', rest', init, last + rest[..k]);
      Regroup(a, [pkt], Packets(p, false, cc', rest'));
      Regroup(last, rest[..k], rest');
      Rejoin(rest, k);
    }
  }

  /** A frame that fits adds its PES packet to its stream. */
  lemma FrameGathers(a: seq<seq<byte>>, p: Frame, cc: nat, pid: nat)
    requires cc < 16 && Fits(p, true, |Pes(p)|)
    ensures Gather(a + Packets(p, true, cc, Pes(p)), pid)
         == if pid == Pid(p) then Gather(a, pid) + [Pes(p)] else Gather(a, pid)
  {
    hide Packet, ReadPacket, Gather, Pes;
    if pid != Pid(p) {
      OtherStream(a, p, true, cc, Pes(p), pid);
    } else {
      NotEmpty(p);
      var rest, k, cc' := Pes(p), Carried(p, true, |Pes(p)|), NextCc(cc);
      var pkt := Packet(p, true, cc', rest);
      PacketReads(p, true, cc', rest);
      GatherNext(a, pkt, pid);
      LaterPackets(a + [pkt], p, cc', rest[k..], Gather(a, pid), rest[..k]);
      Regroup(a, [pkt], Packets(p, false, cc', rest[k..]));
      Rejoin(rest, k);
    }
  }

  predicate FitsIfFrame(op: Op) {
    op.MuxFrame? ==> Fits(op.p, true, |Pes(op.p)|)
  }

  /** The PES packet an operation adds to a stream. */
  function Adds(op: Op, pid: nat): seq<seq<byte>> {
    if op.MuxFrame? && Pid(op.p) == pid then [Pes(op.p)] else []
  }

  lemma OpGathers(a: seq<seq<byte>>, op: Op, c: Counters, pid: nat)
    requires Ok(c) && FitsIfFrame(op) && pid in {VIDEO_PID, AUDIO_PID}
    ensures Gather(a + Emitted(op, c), pid) == Gather(a, pid) + Adds(op, pid)
  {
    hide Packets, PatPacket, PmtPacket, Gather, ReadPacket, ReadSection, ReadStreams, Pes;
    match op
    case MuxFrame(p) => FrameGathers(a, p, if p.isVideo then c.video else c.audio, pid);
    case Pat =>
      PatReads(TableCc(c.pat));
      GatherNext(a, PatPacket(TableCc(c.pat)), pid);
    case Pmt(soundFormat, hasVideo) =>
      PmtReads(TableCc(c.pmt), soundFormat, hasVideo);
      GatherNext(a, PmtPacket(TableCc(c.pmt), soundFormat, hasVideo), pid);
  }

  function AllAdds(ops: seq<Op>, pid: nat): seq<seq<byte>> {
    if ops == [] then [] else AllAdds(ops[..|ops| - 1], pid) + Adds(ops[|ops| - 1], pid)
  }

  lemma {:induction false} RunGathers(ops: seq<Op>, c: Counters, pid: nat)
    requires Ok(c) && pid in {VIDEO_PID, AUDIO_PID} && forall i | 0 <= i < |ops| :: FitsIfFrame(ops[i])
    ensures Gather(TsRuns.Run(ops, c), pid) == AllAdds(ops, pid)
  {
    hide Emitted, Gather, TsRuns.Run, FitsIfFrame, Adds, After;
    NothingYet(c, pid);
    if ops != [] {
      var n := |ops| - 1;
      RunGathers(ops[..n], c, pid);
      assert ops == ops[..n] + [ops[n]];
      RunAppended(ops[..n], ops[n], c);
      OpGathers(TsRuns.Run(ops[..n], c), ops[n], After(ops[..n], c), pid);
    }
  }

  lemma NothingYet(c: Counters, pid: nat)
    requires Ok(c)
    ensures Gather(TsRuns.Run([], c), pid) == []
  {
  }

  // ----- Segments -------------------------------------------------------------------------------

  lemma {:induction false} AddsBoth(a: seq<Op>, b: seq<Op>, pid: nat)
    ensures AllAdds(a + b, pid) == AllAdds(a, pid) + AllAdds(b, pid)
  {
    if b == [] {
      assert a + b == a;
    } else {
      var n := |b| - 1;
      AddsBoth(a, b[..n], pid);
      assert (a + b)[..|a| + n] == a + b[..n];
      Regroup(AllAdds(a, pid), AllAdds(b[..n], pid), Adds(b[n], pid));
    }
  }

  /** The frames of a stream: the pictures, or one frame for each unit of audio. */
  function FramesOf(units: seq<Unit>, pid: nat): seq<Frame> {
    if units == [] then []
    else
      FramesOf(units[..|units| - 1], pid)
      + match units[|units| - 1]
        case Tables => []
        case Video(f) => if pid == Pid(f) then [f] else []
        case Audio(pts, frames) => if pid == AUDIO_PID then [AudioFrame(pts, frames)] else []
  }

  function PesOf(frames: seq<Frame>): (s: seq<seq<byte>>)
    ensures |s| == |frames|
  {
    seq(|frames|, i requires 0 <= i < |frames| => Pes(frames[i]))
  }

  lemma UnitAdds(u: Unit, pid: nat)
    requires pid in {VIDEO_PID, AUDIO_PID}
    ensures AllAdds(Ops(u), pid) == PesOf(FramesOf([u], pid))
  {
    hide Pes, ConcatData;
    assert [u][..0] == [];
    if u.Tables? {
      assert Ops(u)[..1] == [Pat] && [Pat][..0] == [];
      assert AllAdds([Pat], pid) == [];
    } else {
      assert Ops(u)[..0] == [];
    }
  }

  lemma {:induction false} UnitsAdd(units: seq<Unit>, pid: nat)
    requires pid in {VIDEO_PID, AUDIO_PID}
    ensures AllAdds(AllOps(units), pid) == PesOf(FramesOf(units, pid))
  {
    hide Pes, Ops, Adds, AudioFrame;
    if units != [] {
      var n := |units| - 1;
      UnitsAdd(units[..n], pid);
      AddsBoth(AllOps(units[..n]), Ops(units[n]), pid);
      UnitAdds(units[n], pid);
      assert [units[n]][..0] == [];
      assert FramesOf(units, pid) == FramesOf(units[..n], pid) + FramesOf([units[n]], pid);
      PesOfBoth(FramesOf(units[..n], pid), FramesOf([units[n]], pid));
    }
  }

  lemma PesOfBoth(a: seq<Frame>, b: seq<Frame>)
    ensures PesOf(a + b) == PesOf(a) + PesOf(b)
  {
    hide Pes;
  }

  /** No picture is a small key frame. */
  ghost predicate NoSmallKeys(frames: seq<Frame>) {
    forall f | f in frames :: f.isVideo && Fits(f, true, |Pes(f)|)
  }

  lemma AudioFits(pts: nat, frames: seq<Frame>)
    ensures FitsIfFrame(MuxFrame(AudioFrame(pts, frames)))
  {
    hide Pes, ConcatData;
  }

  lemma OpsFit(u: Unit)
    requires u.Video? ==> Fits(u.f, true, |Pes(u.f)|)
    ensures forall i | 0 <= i < |Ops(u)| :: FitsIfFrame(Ops(u)[i])
  {
    hide Pes, ConcatData, Fits;
    if u.Audio? {
      AudioFits(u.pts, u.frames);
    }
  }

  lemma {:induction false} AllFit(units: seq<Unit>)
    requires NoSmallKeys(Videos(units))
    ensures forall i | 0 <= i < |AllOps(units)| :: FitsIfFrame(AllOps(units)[i])
  {
    hide Pes, Ops, FitsIfFrame, Fits;
    if units != [] {
      AllFit(units[..|units| - 1]);
      OpsFit(units[|units| - 1]);
    }
  }

  /** One frame for each unit of audio. */
  function AudioFrames(units: seq<Unit>): seq<Frame> {
    if units == [] then []
    else
      var u := units[|units| - 1];
      AudioFrames(units[..|units| - 1]) + if u.Audio? then [AudioFrame(u.pts, u.frames)] else []
  }

  lemma {:induction false} TwoStreams(units: seq<Unit>)
    requires NoSmallKeys(Videos(units))
    ensures FramesOf(units, VIDEO_PID) == Videos(units) && FramesOf(units, AUDIO_PID) == AudioFrames(units)
  {
    hide Pes, Fits, AudioFrame;
    if units != [] {
      TwoStreams(units[..|units| - 1]);
    }
  }

  lemma {:induction false} AudioDataIs(units: seq<Unit>)
    ensures ConcatData(AudioFrames(units)) == ConcatData(Audios(units))
  {
    if units != [] {
      var init, u := units[..|units| - 1], units[|units| - 1];
      AudioDataIs(init);
      if u.Audio? {
        FrameData(AudioFrames(init), AudioFrame(u.pts, u.frames));
        DataBoth(Audios(init), u.frames);
      } else {
        assert AudioFrames(units) == AudioFrames(init) && Audios(units) == Audios(init);
      }
    }
  }

  lemma {:induction false} DataBoth(a: seq<Frame>, b: seq<Frame>)
    ensures ConcatData(a + b) == ConcatData(a) + ConcatData(b)
  {
    if b == [] {
      assert a + b == a && ConcatData(a) + [] == ConcatData(a);
    } else {
      var n := |b| - 1;
      DataBoth(a, b[..n]);
      assert b == b[..n] + [b[n]];
      hide ConcatData;
      Regroup(a, b[..n], [b[n]]);
      FrameData(a + b[..n], b[n]);
      FrameData(b[..n], b[n]);
      Regroup(ConcatData(a), ConcatData(b[..n]), b[n].data);
    }
  }

  /** A frame as a reader of its PES packet sees it. */
  function Content(p: Frame): PesContent {
    PesContent(if p.isVideo then VIDEO_SID else AUDIO_SID,
               if |Pes(p)| - 6 <= 0xffff then |Pes(p)| - 6 else 0,
               Reduced(Pts(p)) % TWO_33, Reduced(Dts(p)) % TWO_33, p.data)
  }

  function Contents(frames: seq<Frame>): (s: seq<Option<PesContent>>)
    ensures |s| == |frames|
  {
    seq(|frames|, i requires 0 <= i < |frames| => Some(Content(frames[i])))
  }

  lemma PesRead(frames: seq<Frame>)
    ensures var pieces := PesOf(frames);
      seq(|pieces|, i requires 0 <= i < |pieces| => ReadPes(pieces[i])) == Contents(frames)
  {
    hide Pes, ReadPes;
    forall i | 0 <= i < |frames| ensures ReadPes(PesOf(frames)[i]) == Some(Content(frames[i])) {
      PesRoundTrip(frames[i]);
    }
  }

  /** Of every segment without small key frames a player gets the pictures and one frame for each unit
      of audio, each with its times and its data. */
  lemma SegmentReads(before: seq<Segment>, units: seq<Unit>)
    requires NoSmallKeys(Videos(units))
    ensures ReadStream(SegmentData(before, units), VIDEO_PID) == Contents(Videos(units))
    ensures ReadStream(SegmentData(before, units), AUDIO_PID) == Contents(AudioFrames(units))
  {
    hide AllOps, After, Written, TsRuns.Run, Gather, Cut, Pes, ReadPes, Contents, FramesOf, AudioFrames, SegmentOps;
    var ops, c := AllOps(units), After(SegmentOps(before), FIRST);
    var data, pkts := SegmentData(before, units), TsRuns.Run(ops, c);
    WrittenIsRun(ops, c);
    RunWhole(ops, c);
    CutConcat(pkts);
    AllFit(units);
    TwoStreams(units);
    RunGathers(ops, c, VIDEO_PID);
    UnitsAdd(units, VIDEO_PID);
    PesRead(Videos(units));
    RunGathers(ops, c, AUDIO_PID);
    UnitsAdd(units, AUDIO_PID);
    PesRead(AudioFrames(units));
  }

  /** The data of a stream, put together. */
  function AllPayload(contents: seq<Option<PesContent>>): seq<byte> {
    if contents == [] then []
    else
      var last := contents[|contents| - 1];
      AllPayload(contents[..|contents| - 1]) + if last.Some? then last.value.payload else []
  }

  lemma {:induction false} PayloadIsData(frames: seq<Frame>)
    ensures AllPayload(Contents(frames)) == ConcatData(frames)
  {
    hide Pes;
    if frames != [] {
      var n := |frames| - 1;
      PayloadIsData(frames[..n]);
      assert Contents(frames)[..n] == Contents(frames[..n]);
    }
  }

  // ----- Clock references -------------------------------------------------------------------------

  /** A clock reference and the stream it came on. */
  datatype Clock = Clock(pid: nat, base: int, extension: int)

  function ClockOf(pkt: seq<byte>): seq<Clock> {
    match ReadPacket(pkt)
    case Some(TsPacket(pid, _, _, Some(Field(_, Some((base, extension)))), _)) => [Clock(pid, base, extension)]
    case _ => []
  }

  /** All clock references of a run of packets, whatever streams they are on. */
  function Clocks(pkts: seq<seq<byte>>): seq<Clock> {
    if pkts == [] then [] else ClockOf(pkts[0]) + Clocks(pkts[1..])
  }

  /** One for each key frame: the time it is decoded, in 33 bits, on the video stream. */
  function KeyClocks(frames: seq<Frame>): seq<Clock> {
    if frames == [] then [] else KeyClocks(frames[..|frames| - 1]) + KeyClock(frames[|frames| - 1])
  }

  function KeyClock(f: Frame): seq<Clock> {
    if f.isVideo && f.keyFrame then [Clock(0x100, f.timeStamp * 90 % 0x2_0000_0000, 0)] else []
  }

  lemma {:induction false} ClocksBoth(a: seq<seq<byte>>, b: seq<seq<byte>>)
    ensures Clocks(a + b) == Clocks(a) + Clocks(b)
  {
    hide ClockOf;
    if a == [] {
      assert a + b == b;
    } else {
      assert (a + b)[1..] == a[1..] + b;
      ClocksBoth(a[1..], b);
      Regroup(ClockOf(a[0]), Clocks(a[1..]), Clocks(b));
    }
  }

  lemma PacketClock(p: Frame, unit: bool, cc: nat, rest: seq<byte>)
    requires cc < 16 && rest != [] && Fits(p, unit, |rest|)
    ensures ClockOf(Packet(p, unit, cc, rest)) == if unit then KeyClock(p) else []
  {
    hide Packet, ReadPacket;
    PacketReads(p, unit, cc, rest);
  }

  lemma {:induction false} PacketsClocks(p: Frame, unit: bool, cc: nat, rest: seq<byte>)
    requires cc < 16 && Fits(p, unit, |rest|)
    ensures Clocks(Packets(p, unit, cc, rest)) == if unit && rest != [] then KeyClock(p) else []
    decreases |rest|
  {
    hide Packet, ClockOf, KeyClock;
    if rest != [] {
      var rest' := rest[Carried(p, unit, |rest|)..];
      PacketClock(p, unit, NextCc(cc), rest);
      PacketsClocks(p, false, NextCc(cc), rest');
      FirstClocks(Packet(p, unit, NextCc(cc), rest), Packets(p, false, NextCc(cc), rest'));
    }
  }

  lemma FirstClocks(pkt: seq<byte>, pkts: seq<seq<byte>>)
    ensures Clocks([pkt] + pkts) == ClockOf(pkt) + Clocks(pkts)
    ensures Clocks(pkts) == [] ==> Clocks([pkt] + pkts) == ClockOf(pkt)
  {
    hide ClockOf;
    assert ([pkt] + pkts)[1..] == pkts;
  }

  lemma OpClocks(op: Op, c: Counters)
    requires Ok(c) && FitsIfFrame(op)
    ensures Clocks(Emitted(op, c)) == if op.MuxFrame? then KeyClock(op.p) else []
  {
    hide Packets, PatPacket, PmtPacket, ReadPacket, ReadSection, ReadStreams, Pes, KeyClock;
    match op
    case MuxFrame(p) =>
      NotEmpty(p);
      PacketsClocks(p, true, if p.isVideo then c.video else c.audio, Pes(p));
    case Pat =>
      PatReads(TableCc(c.pat));
      FirstClocks(PatPacket(TableCc(c.pat)), []);
      assert [PatPacket(TableCc(c.pat))] + [] == [PatPacket(TableCc(c.pat))];
    case Pmt(soundFormat, hasVideo) =>
      PmtReads(TableCc(c.pmt), soundFormat, hasVideo);
      FirstClocks(PmtPacket(TableCc(c.pmt), soundFormat, hasVideo), []);
      assert [PmtPacket(TableCc(c.pmt), soundFormat, hasVideo)] + [] == [PmtPacket(TableCc(c.pmt), soundFormat, hasVideo)];
  }

  /** The clock references of a run: one for each key frame. */
  function ClocksOfOps(ops: seq<Op>): seq<Clock> {
    if ops == [] then []
    else
      var op := ops[|ops| - 1];
      ClocksOfOps(ops[..|ops| - 1]) + if op.MuxFrame? then KeyClock(op.p) else []
  }

  lemma {:induction false} RunClocks(ops: seq<Op>, c: Counters)
    requires Ok(c) && forall i | 0 <= i < |ops| :: FitsIfFrame(ops[i])
    ensures Clocks(TsRuns.Run(ops, c)) == ClocksOfOps(ops)
  {
    hide Emitted, FitsIfFrame, KeyClock, After, ClockOf;
    if ops != [] {
      hide TsRuns.Run, Clocks;
      var n := |ops| - 1;
      RunClocks(ops[..n], c);
      assert ops == ops[..n] + [ops[n]];
      RunAppended(ops[..n], ops[n], c);
      OpClocks(ops[n], After(ops[..n], c));
      ClocksBoth(TsRuns.Run(ops[..n], c), Emitted(ops[n], After(ops[..n], c)));
    }
  }

  lemma {:induction false} ClocksOfBoth(a: seq<Op>, b: seq<Op>)
    ensures ClocksOfOps(a + b) == ClocksOfOps(a) + ClocksOfOps(b)
  {
    hide KeyClock;
    if b == [] {
      assert a + b == a;
    } else {
      var n := |b| - 1;
      ClocksOfBoth(a, b[..n]);
      assert (a + b)[..|a| + n] == a + b[..n];
      Regroup(ClocksOfOps(a), ClocksOfOps(b[..n]), if b[n].MuxFrame? then KeyClock(b[n].p) else []);
    }
  }

  lemma UnitClocks(u: Unit)
    requires u.Video? ==> u.f.isVideo
    ensures ClocksOfOps(Ops(u)) == if u.Video? then KeyClock(u.f) else []
  {
    hide ConcatData;
    if u.Tables? {
      assert Ops(u)[..1] == [Pat] && [Pat][..0] == [];
      assert ClocksOfOps([Pat]) == [];
    } else {
      assert Ops(u)[..0] == [];
    }
  }

  lemma KeyClocksNext(frames: seq<Frame>, f: Frame)
    ensures KeyClocks(frames + [f]) == KeyClocks(frames) + KeyClock(f)
  {
    hide KeyClock;
    assert (frames + [f])[..|frames|] == frames;
  }

  /** A segment has one clock reference for each of its key frames, and no other. */
  lemma {:induction false} UnitsClocks(units: seq<Unit>)
    requires NoSmallKeys(Videos(units))
    ensures ClocksOfOps(AllOps(units)) == KeyClocks(Videos(units))
  {
    hide Pes, Fits, Ops, KeyClock;
    if units != [] {
      var init, u := units[..|units| - 1], units[|units| - 1];
      UnitsClocks(init);
      ClocksOfBoth(AllOps(init), Ops(u));
      UnitClocks(u);
      if u.Video? {
        KeyClocksNext(Videos(init), u.f);
      } else {
        assert Videos(init) + [] == Videos(init) && KeyClocks(Videos(init)) + [] == KeyClocks(Videos(init));
      }
    }
  }

  lemma SegmentClocks(before: seq<Segment>, units: seq<Unit>)
    requires NoSmallKeys(Videos(units))
    ensures Clocks(Cut(SegmentData(before, units))) == KeyClocks(Videos(units))
  {
    hide AllOps, After, Written, TsRuns.Run, Clocks, Cut, Pes, SegmentOps, ClocksOfOps, KeyClocks, FitsIfFrame;
    var ops, c := AllOps(units), After(SegmentOps(before), FIRST);
    WrittenIsRun(ops, c);
    RunWhole(ops, c);
    CutConcat(TsRuns.Run(ops, c));
    AllFit(units);
    RunClocks(ops, c);
    UnitsClocks(units);
  }

  // ----- Program tables ---------------------------------------------------------------------------

  /** The first packet names one program, the second its streams: pictures by H.264, which carry the
      clock, and sound by AAC. */
  ghost predicate BeginsWithTables(pkts: seq<seq<byte>>) {
    && |pkts| >= 2
    && var (first, second) := (ReadPacket(pkts[0]), ReadPacket(pkts[1]));
    && first.Some? && first.value.pid == 0 && first.value.unit && second.Some? && second.value.unit
    && var (programs, streams) := (ReadSection(first.value.payload, 0x00), ReadSection(second.value.payload, 0x02));
    && programs.Some? && |programs.value| >= 8 && streams.Some? && |streams.value| >= 12
    && ReadPrograms(programs.value[8..]) == [Program(1, second.value.pid)]
    && Pid13(streams.value[8], streams.value[9]) == 0x100
    && ReadStreams(streams.value[12..]) == [StreamInfo(0x1b, 0x100), StreamInfo(0x0f, 0x101)]
  }

  lemma {:induction false} OpsBegin(units: seq<Unit>)
    requires units != [] && units[0] == Tables
    ensures |AllOps(units)| >= 2 && AllOps(units)[0] == Pat && AllOps(units)[1] == Pmt(10, true)
  {
    hide Ops;
    var n := |units| - 1;
    if n == 0 {
      assert Ops(Tables) == [Pat, Pmt(10, true)] by { TableOps(); }
      assert AllOps(units[..0]) == [];
    } else {
      OpsBegin(units[..n]);
    }
  }

  lemma TableOps()
    ensures Ops(Tables) == [Pat, Pmt(10, true)]
  {
  }

  lemma RunBegins(ops: seq<Op>, c: Counters)
    requires Ok(c) && |ops| >= 2 && ops[0] == Pat && ops[1] == Pmt(10, true)
    ensures BeginsWithTables(TsRuns.Run(ops, c))
  {
    hide PatPacket, PmtPacket, ReadPacket, ReadSection, ReadStreams, ReadPrograms;
    var c' := Step(Pat, c);
    var pkts := TsRuns.Run(ops, c);
    TwoEmitted(ops, c);
    PatReads(TableCc(c.pat));
    PmtReads(TableCc(c'.pmt), 10, true);
    assert pkts[0] == PatPacket(TableCc(c.pat)) && pkts[1] == PmtPacket(TableCc(c'.pmt), 10, true);
  }

  lemma TwoEmitted(ops: seq<Op>, c: Counters)
    requires Ok(c) && |ops| >= 2 && ops[0] == Pat && ops[1] == Pmt(10, true)
    ensures var pkts, c' := TsRuns.Run(ops, c), Step(Pat, c);
      |pkts| >= 2 && pkts[0] == PatPacket(TableCc(c.pat)) && pkts[1] == PmtPacket(TableCc(c'.pmt), 10, true)
  {
    hide PatPacket, PmtPacket;
    var c' := Step(Pat, c);
    assert TsRuns.Run(ops, c) == [PatPacket(TableCc(c.pat))] + TsRuns.Run(ops[1..], c');
    assert TsRuns.Run(ops[1..], c') == [PmtPacket(TableCc(c'.pmt), 10, true)] + TsRuns.Run(ops[1..][1..], Step(ops[1], c'));
  }

  /** Every segment begins with the tables. */
  lemma SegmentBegins(before: seq<Segment>, units: seq<Unit>)
    requires units != [] && units[0] == Tables
    ensures BeginsWithTables(Cut(SegmentData(before, units)))
  {
    hide AllOps, After, Written, TsRuns.Run, Cut, SegmentOps, BeginsWithTables;
    var ops, c := AllOps(units), After(SegmentOps(before), FIRST);
    WrittenIsRun(ops, c);
    RunWhole(ops, c);
    CutConcat(TsRuns.Run(ops, c));
    OpsBegin(units);
    RunBegins(ops, c);
  }

  // ----- Times ----------------------------------------------------------------------------------

  /** A player reads the times of a frame, modulo 2^33, if and only if they are below 2^33. */
  lemma TimesExactly(p: Frame)
    ensures Content(p).pts == Pts(p) % TWO_33 <==> Pts(p) < TWO_33
    ensures Content(p).dts == Dts(p) % TWO_33 <==> Dts(p) < TWO_33
  {
    hide Pes;
  }

  /** What a player reads is a unit of audio: a few frames, whose data it has, with a time within two
      milliseconds of the first frame's, rounded to a whole one; that holds below 2^33. */
  ghost predicate ReadsUnit(c: Option<PesContent>, frames: seq<Frame>) {
    && c.Some? && 1 <= |frames| <= 6
    && c.value.payload == ConcatData(frames) && c.value.dts == c.value.pts
    && var time := frames[0].timeStamp * 90;
       time + 180 < 0x2_0000_0000 ==> time - 270 < c.value.pts <= time + 180
  }

  lemma UnitReads(pts: nat, frames: seq<Frame>)
    requires 1 <= |frames| <= 6 && OnTime(pts, frames)
    ensures ReadsUnit(Some(Content(AudioFrame(pts, frames))), frames)
  {
    hide Pes, ConcatData;
  }

  /** The time of a unit of audio is read as its whole milliseconds. */
  lemma AudioTime(pts: nat, frames: seq<Frame>)
    requires pts < 0x2_0000_0000
    ensures Content(AudioFrame(pts, frames)).pts == pts - pts % 90
  {
    hide Pes, ConcatData;
  }

  /** The frames of every unit of audio. */
  function AudioUnits(units: seq<Unit>): seq<seq<Frame>> {
    if units == [] then []
    else
      var u := units[|units| - 1];
      AudioUnits(units[..|units| - 1]) + if u.Audio? then [u.frames] else []
  }

  function Joined(parts: seq<seq<Frame>>): seq<Frame> {
    if parts == [] then [] else Joined(parts[..|parts| - 1]) + parts[|parts| - 1]
  }

  ghost predicate AudioShape(units: seq<Unit>) {
    forall i | 0 <= i < |units| && units[i].Audio? ::
      1 <= |units[i].frames| <= 6 && OnTime(units[i].pts, units[i].frames)
  }

  /** A player finds the units of audio one by one. */
  ghost predicate ReadsUnits(stream: seq<Option<PesContent>>, parts: seq<seq<Frame>>) {
    |stream| == |parts| && forall j | 0 <= j < |parts| :: ReadsUnit(stream[j], parts[j])
  }

  lemma {:induction false} UnitsRead(units: seq<Unit>)
    requires AudioShape(units)
    ensures Joined(AudioUnits(units)) == Audios(units)
    ensures ReadsUnits(Contents(AudioFrames(units)), AudioUnits(units))
  {
    hide OnTime, Content, AudioFrame, ReadsUnit;
    if units != [] {
      var init, u := units[..|units| - 1], units[|units| - 1];
      UnitsRead(init);
      if u.Audio? {
        UnitReads(u.pts, u.frames);
        var parts := AudioUnits(init);
        assert (parts + [u.frames])[..|parts|] == parts;
        var before, all := Contents(AudioFrames(init)), Contents(AudioFrames(units));
        assert all == before + [Some(Content(AudioFrame(u.pts, u.frames)))];
      } else {
        assert AudioUnits(init) + [] == AudioUnits(init) && Audios(init) + [] == Audios(init);
      }
    }
  }

  lemma ShapeOfAudio(units: seq<Unit>, key: Frame)
    requires Shape(units, key)
    ensures AudioShape(units) && units != [] && units[0] == Tables
  {
    hide OnTime;
  }

  /** From every published segment a player gets the tables first, exactly the pictures of its group, with
      their times, all audio of its group in order, in units with their times, and one clock reference for each key
      frame, unless a picture is a small key frame. */
  lemma PublishedSegmentReads(xs: seq<Input>, i: nat)
    requires i < |Group(xs).done| && NoSmallKeys(VideosOf(Group(xs).done[i]))
    ensures |Items(RunAll(xs).segments)| == |Group(xs).done|
    ensures var data, g := Items(RunAll(xs).segments)[i].data, Group(xs).done[i];
      && ReadStream(data, VIDEO_PID) == Contents(VideosOf(g))
      && AllPayload(ReadStream(data, AUDIO_PID)) == ConcatData(AudiosOf(g))
      && (exists parts :: Joined(parts) == AudiosOf(g) && ReadsUnits(ReadStream(data, AUDIO_PID), parts))
      && Clocks(Cut(data)) == KeyClocks(VideosOf(g))
      && BeginsWithTables(Cut(data))
  {
    hide RunAll, Group, Contents, ReadStream, SegmentData, Pes, ConcatData, AllPayload, Shape, AudioFrames, AudioShape, ReadsUnits,
         Clocks, Cut, KeyClocks, BeginsWithTables;
    var segments, g := RunAll(xs).segments, Group(xs).done[i];
    SegmentsAreGroups(xs);
    var units := segments[i].units;
    assert Carries(units, [], g) && Audios(units) + [] == Audios(units);
    ItemsAt(segments, i);
    SegmentReads(segments[..i], units);
    SegmentClocks(segments[..i], units);
    PayloadIsData(AudioFrames(units));
    AudioDataIs(units);
    ShapeOfAudio(units, g[0]);
    SegmentBegins(segments[..i], units);
    UnitsRead(units);
  }
}
