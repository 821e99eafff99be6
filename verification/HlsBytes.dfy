/** The bytes of segments: what the muxer wrote for their units, with continuity counters that go on
    from one segment to the next. */
module HlsBytes {
  import opened Bytes
  import opened TsFormat
  import opened TsPackets
  import opened TsTables
  import opened TsRuns
  import opened HlsFormat
  import Playlist

  function ConcatData(frames: seq<Frame>): seq<byte> {
    if frames == [] then [] else ConcatData(frames[..|frames| - 1]) + frames[|frames| - 1].data
  }

  /** Collected audio frames are muxed as one. */
  function AudioFrame(pts: nat, frames: seq<Frame>): Frame {
    Frame(false, pts / DEFAULT_HZ % 0x1_0000_0000, ConcatData(frames), false, 0)
  }

  function Ops(u: Unit): seq<Op> {
    match u
    case Tables => [Pat, Pmt(SOUND_AAC, true)]
    case Video(f) => [MuxFrame(f)]
    case Audio(pts, frames) => [MuxFrame(AudioFrame(pts, frames))]
  }

  function AllOps(units: seq<Unit>): seq<Op> {
    if units == [] then [] else AllOps(units[..|units| - 1]) + Ops(units[|units| - 1])
  }

  function SegmentOps(segments: seq<Segment>): seq<Op> {
    if segments == [] then [] else SegmentOps(segments[..|segments| - 1]) + AllOps(segments[|segments| - 1].units)
  }

  const FIRST: Counters := Counters(0, 0, 0, 0)

  function After(ops: seq<Op>, c: Counters): (c': Counters)
    requires Ok(c)
    ensures Ok(c')
  {
    if ops == [] then c else Step(ops[|ops| - 1], After(ops[..|ops| - 1], c))
  }

  function Written(ops: seq<Op>, c: Counters): seq<byte>
    requires Ok(c)
  {
    if ops == [] then []
    else
      var before := ops[..|ops| - 1];
      Written(before, c) + Concat(Emitted(ops[|ops| - 1], After(before, c)))
  }

  lemma OpAppended(ops: seq<Op>, op: Op, c: Counters)
    requires Ok(c)
    ensures After(ops + [op], c) == Step(op, After(ops, c))
    ensures Written(ops + [op], c) == Written(ops, c) + Concat(Emitted(op, After(ops, c)))
  {
    assert (ops + [op])[..|ops|] == ops;
  }

  lemma {:induction false} AfterBoth(a: seq<Op>, b: seq<Op>, c: Counters)
    requires Ok(c)
    ensures After(a + b, c) == After(b, After(a, c))
  {
    if b == [] {
      assert a + b == a;
    } else {
      var n := |b| - 1;
      Regroup(a, b[..n], [b[n]]);
      assert b == b[..n] + [b[n]];
      AfterBoth(a, b[..n], c);
      OpAppended(a + b[..n], b[n], c);
      OpAppended(b[..n], b[n], After(a, c));
    }
  }

  /** The data of the segment that follows the others. */
  function SegmentData(before: seq<Segment>, units: seq<Unit>): seq<byte> {
    Written(AllOps(units), After(SegmentOps(before), FIRST))
  }

  function ItemOf(before: seq<Segment>, seg: Segment): Playlist.Item {
    Playlist.Item(seg.name, seg.seqNum, seg.duration, SegmentData(before, seg.units))
  }

  function Items(segments: seq<Segment>): (s: seq<Playlist.Item>)
    ensures |s| == |segments|
  {
    if segments == [] then []
    else
      var n := |segments| - 1;
      Items(segments[..n]) + [ItemOf(segments[..n], segments[n])]
  }

  lemma {:induction false} ItemsAt(segments: seq<Segment>, i: nat)
    requires i < |segments|
    ensures Items(segments)[i] == ItemOf(segments[..i], segments[i])
  {
    hide ItemOf;
    var n := |segments| - 1;
    if i < n {
      ItemsAt(segments[..n], i);
      assert segments[..n][..i] == segments[..i];
    }
  }

  lemma SegmentAppended(segments: seq<Segment>, seg: Segment)
    ensures Items(segments + [seg]) == Items(segments) + [ItemOf(segments, seg)]
    ensures SegmentOps(segments + [seg]) == SegmentOps(segments) + AllOps(seg.units)
  {
    assert (segments + [seg])[..|segments|] == segments;
  }

  lemma UnitOps(units: seq<Unit>, u: Unit)
    ensures AllOps(units + [u]) == AllOps(units) + Ops(u)
  {
    assert (units + [u])[..|units|] == units;
  }

  lemma FrameData(frames: seq<Frame>, f: Frame)
    ensures ConcatData(frames + [f]) == ConcatData(frames) + f.data
  {
    assert (frames + [f])[..|frames|] == frames;
  }

  // ----- Packets --------------------------------------------------------------------------------

  lemma {:induction false} RunAppended(ops: seq<Op>, op: Op, c: Counters)
    requires Ok(c)
    ensures TsRuns.Run(ops + [op], c) == TsRuns.Run(ops, c) + Emitted(op, After(ops, c))
    decreases |ops|
  {
    hide Step, Emitted;
    if ops == [] {
      assert ops + [op] == [op] && [op][1..] == [];
      assert TsRuns.Run([], Step(op, c)) == [];
      assert Emitted(op, c) + [] == [] + Emitted(op, c);
    } else {
      assert (ops + [op])[1..] == ops[1..] + [op];
      RunAppended(ops[1..], op, Step(ops[0], c));
      assert ops == [ops[0]] + ops[1..];
      AfterBoth([ops[0]], ops[1..], c);
      assert After([ops[0]], c) == Step(ops[0], c) by { OpAppended([], ops[0], c); assert [] + [ops[0]] == [ops[0]]; }
      Regroup(Emitted(ops[0], c), TsRuns.Run(ops[1..], Step(ops[0], c)), Emitted(op, After(ops, c)));
    }
  }

  lemma {:induction false} ConcatBoth(a: seq<seq<byte>>, b: seq<seq<byte>>)
    ensures Concat(a + b) == Concat(a) + Concat(b)
  {
    if a == [] {
      assert a + b == b;
    } else {
      assert (a + b)[1..] == a[1..] + b;
      ConcatBoth(a[1..], b);
      Regroup(a[0], Concat(a[1..]), Concat(b));
    }
  }

  /** What is written is the packets of a run of the muxer. */
  lemma {:induction false} WrittenIsRun(ops: seq<Op>, c: Counters)
    requires Ok(c)
    ensures Written(ops, c) == Concat(TsRuns.Run(ops, c))
  {
    hide Emitted;
    if ops != [] {
      var n := |ops| - 1;
      WrittenIsRun(ops[..n], c);
      assert ops == ops[..n] + [ops[n]];
      RunAppended(ops[..n], ops[n], c);
      ConcatBoth(TsRuns.Run(ops[..n], c), Emitted(ops[n], After(ops[..n], c)));
    }
  }

  /** One segment behind the other is one run of the muxer. */
  function AllData(segments: seq<Segment>): seq<byte> {
    if segments == [] then []
    else AllData(segments[..|segments| - 1]) + Items(segments)[|segments| - 1].data
  }

  lemma {:induction false} WrittenBoth(a: seq<Op>, b: seq<Op>, c: Counters)
    requires Ok(c)
    ensures Written(a + b, c) == Written(a, c) + Written(b, After(a, c))
  {
    if b == [] {
      assert a + b == a;
      assert Written(a, c) + [] == Written(a, c);
    } else {
      var n := |b| - 1;
      Regroup(a, b[..n], [b[n]]);
      assert b == b[..n] + [b[n]];
      WrittenBoth(a, b[..n], c);
      AfterBoth(a, b[..n], c);
      OpAppended(a + b[..n], b[n], c);
      OpAppended(b[..n], b[n], After(a, c));
      Regroup(Written(a, c), Written(b[..n], After(a, c)), Concat(Emitted(b[n], After(a + b[..n], c))));
    }
  }

  lemma {:induction false} SegmentsAreOneRun(segments: seq<Segment>)
    ensures AllData(segments) == Concat(TsRuns.Run(SegmentOps(segments), FIRST))
  {
    hide TsRuns.Run, Concat;
    var ops := SegmentOps(segments);
    WrittenIsRun(ops, FIRST);
    if segments != [] {
      var n := |segments| - 1;
      SegmentsAreOneRun(segments[..n]);
      WrittenIsRun(SegmentOps(segments[..n]), FIRST);
      WrittenBoth(SegmentOps(segments[..n]), AllOps(segments[n].units), FIRST);
    }
  }

  /** So on every stream the continuity counters go on across the segments. */
  lemma ContinuityAcrossSegments(segments: seq<Segment>, pid: nat)
    requires pid in {VIDEO_PID, AUDIO_PID, PAT_PID, PMT_PID}
    ensures AllData(segments) == Concat(TsRuns.Run(SegmentOps(segments), FIRST))
    ensures Consecutive(Seen(TsRuns.Run(SegmentOps(segments), FIRST), pid), Last(FIRST, pid))
  {
    SegmentsAreOneRun(segments);
    ContinuityOverRuns(SegmentOps(segments), FIRST, pid);
  }

  /** The segments of any run are numbered from one, last as long as their groups, three seconds at
      least, and have the names that came with the key frames that ended them. */
  lemma ItemsOfRun(xs: seq<Input>)
    ensures var items, g := Items(RunAll(xs).segments), Group(xs);
      && Playlist.Numbered(items) && |items| == |g.done|
      && forall i | 0 <= i < |items| :: g.done[i] != [] && items[i].duration == Span(g.done[i]) >= 3000
           && items[i].name == xs[EndOf(xs, i)].name
  {
    hide RunAll, Group, SegmentData, Carries, Tight, Span, EndOf;
    var segments, items := RunAll(xs).segments, Items(RunAll(xs).segments);
    SegmentsAreGroups(xs);
    GroupsPartition(xs);
    GroupsAreNotEmpty(Group(xs));
    forall i | 0 <= i < |items|
      ensures items[i].seqNum == i + 1 && items[i].duration == segments[i].duration && items[i].name == segments[i].name
    {
      ItemsAt(segments, i);
    }
  }

  lemma GroupsAreNotEmpty(g: Groups)
    requires forall i | 0 <= i < |g.done| :: Tight(g.done[i])
    ensures forall i | 0 <= i < |g.done| :: g.done[i] != []
  {
  }
}
