/** Runs of the muxer: frames of both streams and program tables in any order. */
module TsRuns {
  import opened Bytes
  import opened TsFormat
  import opened TsPackets
  import opened TsTables

  datatype Op = MuxFrame(p: Frame) | Pat | Pmt(soundFormat: byte, hasVideo: bool)

  /** The four continuity counters as the muxer keeps them. Those of the tables hold the next
      value, those of the streams the last one. */
  datatype Counters = Counters(video: nat, audio: nat, pat: nat, pmt: nat)

  predicate Ok(c: Counters) {
    c.video < 16 && c.audio < 16 && c.pat <= 16 && c.pmt <= 16
  }

  function Emitted(op: Op, c: Counters): seq<seq<byte>>
    requires Ok(c)
  {
    match op
    case MuxFrame(p) => Packets(p, true, if p.isVideo then c.video else c.audio, Pes(p))
    case Pat => [PatPacket(TableCc(c.pat))]
    case Pmt(soundFormat, hasVideo) => [PmtPacket(TableCc(c.pmt), soundFormat, hasVideo)]
  }

  function Step(op: Op, c: Counters): (c': Counters)
    requires Ok(c)
    ensures Ok(c')
  {
    match op
    case MuxFrame(p) =>
      if p.isVideo then c.(video := LastCc(p, true, c.video, Pes(p)))
      else c.(audio := LastCc(p, true, c.audio, Pes(p)))
    case Pat => c.(pat := TableCc(c.pat) + 1)
    case Pmt(_, _) => c.(pmt := TableCc(c.pmt) + 1)
  }

  /** All packets of a run, in the order they are written. */
  function Run(ops: seq<Op>, c: Counters): seq<seq<byte>>
    requires Ok(c)
    decreases |ops|
  {
    if ops == [] then [] else Emitted(ops[0], c) + Run(ops[1..], Step(ops[0], c))
  }

  /** The counter values a reader sees on one stream. */
  function Seen(pkts: seq<seq<byte>>, pid: nat): seq<nat> {
    if pkts == [] then []
    else
      var r := ReadPacket(pkts[0]);
      (if r.Some? && r.value.pid == pid then [r.value.cc] else []) + Seen(pkts[1..], pid)
  }

  /** Each value is one more than the one before, modulo 16. */
  predicate Consecutive(ccs: seq<nat>, last: nat) {
    ccs == [] || (ccs[0] == (last + 1) % 16 && Consecutive(ccs[1..], ccs[0]))
  }

  function Last(c: Counters, pid: nat): nat {
    if pid == VIDEO_PID then c.video
    else if pid == AUDIO_PID then c.audio
    else if pid == PAT_PID then (c.pat + 15) % 16
    else (c.pmt + 15) % 16
  }

  function LastOf(ccs: seq<nat>, last: nat): nat {
    if ccs == [] then last else ccs[|ccs| - 1]
  }

  lemma {:induction false} SeenConcat(a: seq<seq<byte>>, b: seq<seq<byte>>, pid: nat)
    ensures Seen(a + b, pid) == Seen(a, pid) + Seen(b, pid)
  {
    hide ReadPacket;
    if a == [] {
      assert a + b == b;
    } else {
      assert (a + b)[1..] == a[1..] + b;
      SeenConcat(a[1..], b, pid);
    }
  }

  lemma {:induction false} ConsecutiveConcat(a: seq<nat>, b: seq<nat>, last: nat)
    requires Consecutive(a, last) && Consecutive(b, LastOf(a, last))
    ensures Consecutive(a + b, last)
  {
    if a == [] {
      assert a + b == b;
    } else {
      assert (a + b)[1..] == a[1..] + b;
      ConsecutiveConcat(a[1..], b, a[0]);
    }
  }

  lemma {:induction false} FrameCounters(p: Frame, unit: bool, cc: nat, rest: seq<byte>, pid: nat)
    requires cc < 16
    ensures var ccs := Seen(Packets(p, unit, cc, rest), pid);
      if pid == Pid(p) then Consecutive(ccs, cc) && LastOf(ccs, cc) == LastCc(p, unit, cc, rest)
      else ccs == []
    decreases |rest|
  {
    hide Packet, ReadPacket, Seen, Consecutive, LastOf;
    if rest == [] {
      NothingSeen(pid, cc);
    } else {
      var cc', rest' := NextCc(cc), rest[Carried(p, unit, |rest|)..];
      var pkt, more := Packet(p, unit, cc', rest), Packets(p, false, cc', rest');
      EveryPacketReads(p, unit, cc', rest);
      FrameCounters(p, false, cc', rest', pid);
      SeenFirst(pkt, more, pid);
      OneMore(cc', Seen(more, pid), cc);
    }
  }

  lemma NothingSeen(pid: nat, cc: nat)
    ensures Seen([], pid) == [] && Consecutive([], cc) && LastOf([], cc) == cc
  {
  }

  lemma SeenFirst(pkt: seq<byte>, more: seq<seq<byte>>, pid: nat)
    ensures var r := ReadPacket(pkt);
      Seen([pkt] + more, pid) == (if r.Some? && r.value.pid == pid then [r.value.cc] else []) + Seen(more, pid)
  {
    hide ReadPacket;
    assert ([pkt] + more)[1..] == more;
  }

  lemma OneMore(cc: nat, ccs: seq<nat>, last: nat)
    ensures Consecutive([cc] + ccs, last) <==> cc == (last + 1) % 16 && Consecutive(ccs, cc)
    ensures LastOf([cc] + ccs, last) == LastOf(ccs, cc) && [] + ccs == ccs
  {
    assert ([cc] + ccs)[1..] == ccs;
  }

  /** A step keeps one stream's counters going up by one. */
  predicate Advances(op: Op, c: Counters, pid: nat)
    requires Ok(c)
  {
    var ccs := Seen(Emitted(op, c), pid);
    Consecutive(ccs, Last(c, pid)) && LastOf(ccs, Last(c, pid)) == Last(Step(op, c), pid)
  }

  lemma OneStep(op: Op, c: Counters, pid: nat)
    requires Ok(c) && pid in {VIDEO_PID, AUDIO_PID, PAT_PID, PMT_PID}
    ensures Advances(op, c, pid)
  {
    match op
    case MuxFrame(p) => StepFrame(p, c, pid);
    case Pat => StepPat(c, pid);
    case Pmt(soundFormat, hasVideo) => StepPmt(soundFormat, hasVideo, c, pid);
  }

  lemma StepFrame(p: Frame, c: Counters, pid: nat)
    requires Ok(c) && pid in {VIDEO_PID, AUDIO_PID, PAT_PID, PMT_PID}
    ensures Advances(MuxFrame(p), c, pid)
  {
    hide Packets, LastCc, Seen;
    FrameCounters(p, true, if p.isVideo then c.video else c.audio, Pes(p), pid);
  }

  lemma StepPat(c: Counters, pid: nat)
    requires Ok(c) && pid in {VIDEO_PID, AUDIO_PID, PAT_PID, PMT_PID}
    ensures Advances(Pat, c, pid)
  {
    hide ReadPacket, PatPacket, ReadSection, Seen;
    PatReads(TableCc(c.pat));
    OneCounter(TableCc(c.pat), Last(c, PAT_PID));
    OnePacket(PatPacket(TableCc(c.pat)), pid);
  }

  lemma StepPmt(soundFormat: byte, hasVideo: bool, c: Counters, pid: nat)
    requires Ok(c) && pid in {VIDEO_PID, AUDIO_PID, PAT_PID, PMT_PID}
    ensures Advances(Pmt(soundFormat, hasVideo), c, pid)
  {
    hide ReadPacket, PmtPacket, ReadSection, Seen, ReadStreams;
    PmtReads(TableCc(c.pmt), soundFormat, hasVideo);
    OneCounter(TableCc(c.pmt), Last(c, PMT_PID));
    OnePacket(PmtPacket(TableCc(c.pmt), soundFormat, hasVideo), pid);
  }

  lemma OneCounter(cc: nat, last: nat)
    ensures Consecutive([cc], last) <==> cc == (last + 1) % 16
  {
    assert [cc][1..] == [];
  }

  lemma OnePacket(pkt: seq<byte>, pid: nat)
    ensures var r := ReadPacket(pkt);
      Seen([pkt], pid) == if r.Some? && r.value.pid == pid then [r.value.cc] else []
  {
    hide ReadPacket;
    assert [pkt][1..] == [];
  }

  /** Over any run, on each of the four streams the counters a reader sees go up by one modulo 16
      from packet to packet, whatever the other streams do. */
  lemma {:induction false} ContinuityOverRuns(ops: seq<Op>, c: Counters, pid: nat)
    requires Ok(c) && pid in {VIDEO_PID, AUDIO_PID, PAT_PID, PMT_PID}
    ensures Consecutive(Seen(Run(ops, c), pid), Last(c, pid))
    decreases |ops|
  {
    hide Emitted, Step, Last;
    if ops != [] {
      var rest := Run(ops[1..], Step(ops[0], c));
      OneStep(ops[0], c, pid);
      ContinuityOverRuns(ops[1..], Step(ops[0], c), pid);
      SeenConcat(Emitted(ops[0], c), rest, pid);
      ConsecutiveConcat(Seen(Emitted(ops[0], c), pid), Seen(rest, pid), Last(c, pid));
    }
  }
}
