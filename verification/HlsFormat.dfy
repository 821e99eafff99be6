/** The segmenter on values: what a run of frames turns into, what the frames should be divided
    into, and that the one carries exactly the other. */
module HlsFormat {
  import opened Bytes
  import opened TsFormat
  import opened TsRuns

  const DURATION: int := 3000
  const CACHE_MAX_FRAMES: nat := 6
  const SOUND_AAC: byte := 10
  const SYNC_MS: nat := 2

  /** What a segment is made of: the program tables, a video frame, or the audio frames that were
      collected and muxed as one, under the time of the first of them. */
  datatype Unit = Tables | Video(f: Frame) | Audio(pts: nat, frames: seq<Frame>)

  /** A segment, its length by the time stamps, its number and its file name. */
  datatype Segment = Segment(units: seq<Unit>, duration: int, seqNum: int, name: string)

  /** The time stamps since the last cut. */
  datatype Stat = Stat(hasSetFirstTs: bool, firstTimestamp: int, lastTimestamp: int)

  datatype Align = Align(frameNum: nat, frameBase: nat)

  /** `open` holds what is written since the last cut, nothing before the first one. */
  datatype State = State(
    open: Option<seq<Unit>>, cachePts: nat, cached: seq<Frame>, align: Align, stat: Stat,
    segments: seq<Segment>)

  /** A frame as it comes out of the parser, the distance of two audio frames at the stream's sample
      rate, and the file name that is due if the frame makes a cut. */
  datatype Input = Input(f: Frame, inc: nat, name: string)

  predicate IsKey(f: Frame) {
    f.isVideo && f.keyFrame
  }

  function Init(): State {
    State(None, 0, [], Align(0, 0), Stat(false, 0, 0), [])
  }

  function DurationMs(s: State): int {
    s.stat.lastTimestamp - s.stat.firstTimestamp
  }

  /** Writes the audio that is collected, if there are at least so many frames. */
  function MuxAudio(s: State, limit: nat): State
    requires s.open.Some?
  {
    if |s.cached| < limit then s
    else s.(open := Some(s.open.value + [Audio(s.cachePts, s.cached)]), cached := [])
  }

  /** At a key frame: starts the first segment, or ends one that is long enough. */
  function Cut(s: State, name: string): State {
    if s.open.None? then s.(open := Some([Tables]))
    else if DurationMs(s) >= DURATION then
      var t := MuxAudio(s, 1);
      t.(segments := t.segments + [Segment(t.open.value, DurationMs(s), |t.segments| + 1, name)],
         open := Some([Tables]), stat := t.stat.(hasSetFirstTs := false))
    else s
  }

  function Update(t: Stat, timeStamp: uint32): Stat {
    Stat(true, if t.hasSetFirstTs then t.firstTimestamp else timeStamp, timeStamp)
  }

  function Distance(a: nat, b: nat): nat {
    if a >= b then a - b else b - a
  }

  /** The time of an audio frame: the regular one if the given one is close to it. */
  function Aligned(a: Align, dts: nat, inc: nat): (nat, Align) {
    var est := a.frameBase + Times(a.frameNum, inc);
    if Distance(est, dts) <= SYNC_MS * DEFAULT_HZ then (est, Align(a.frameNum + 1, a.frameBase))
    else (dts, Align(1, dts))
  }

  function Times(n: nat, inc: nat): nat {
    n * inc
  }

  function TsMux(s: State, f: Frame, pts: nat): State
    requires s.open.Some?
  {
    if f.isVideo then s.(open := Some(s.open.value + [Video(f)]))
    else MuxAudio(s.(cachePts := if s.cached == [] then pts else s.cachePts, cached := s.cached + [f]),
                  CACHE_MAX_FRAMES)
  }

  /** One frame that was accepted. */
  function Next(s: State, x: Input): State {
    var t := if IsKey(x.f) then Cut(s, x.name) else s;
    if t.open.None? then t
    else
      var u := t.(stat := Update(t.stat, x.f.timeStamp));
      if x.f.isVideo then TsMux(u, x.f, 0)
      else
        var (pts, a) := Aligned(u.align, x.f.timeStamp * DEFAULT_HZ, x.inc);
        TsMux(u.(align := a), x.f, pts)
  }

  function RunAll(xs: seq<Input>): State {
    if xs == [] then Init() else Next(RunAll(xs[..|xs| - 1]), xs[|xs| - 1])
  }

  // ----- How the frames should be divided -------------------------------------------------------

  /** Complete groups of frames and the group that is still open. */
  datatype Groups = Groups(done: seq<seq<Frame>>, open: seq<Frame>)

  function Span(g: seq<Frame>): int
    requires g != []
  {
    g[|g| - 1].timeStamp - g[0].timeStamp
  }

  /** A group begins with a key frame and ends before the first key frame at which it spans three
      seconds. */
  function GroupNext(g: Groups, f: Frame): Groups {
    if g.open == [] then if IsKey(f) then g.(open := [f]) else g
    else if IsKey(f) && Span(g.open) >= 3000 then Groups(g.done + [g.open], [f])
    else g.(open := g.open + [f])
  }

  function Group(xs: seq<Input>): Groups {
    if xs == [] then Groups([], []) else GroupNext(Group(xs[..|xs| - 1]), xs[|xs| - 1].f)
  }

  function Joined(gs: seq<seq<Frame>>): seq<Frame> {
    if gs == [] then [] else Joined(gs[..|gs| - 1]) + gs[|gs| - 1]
  }

  /** All frames from the first key frame on. */
  function FromFirstKey(xs: seq<Input>): seq<Frame> {
    if xs == [] then []
    else
      var before, f := FromFirstKey(xs[..|xs| - 1]), xs[|xs| - 1].f;
      if before == [] && !IsKey(f) then [] else before + [f]
  }

  /** No key frame inside the group finds it three seconds long. */
  ghost predicate Tight(g: seq<Frame>) {
    && g != [] && IsKey(g[0])
    && forall j | 1 <= j < |g| && IsKey(g[j]) :: Span(g[..j]) < 3000
  }

  /** The groups hold every frame from the first key frame on exactly once and in order; each
      begins with a key frame and spans three seconds when it is complete, and not earlier. */
  lemma {:induction false} GroupsPartition(xs: seq<Input>)
    ensures var g := Group(xs);
      && Joined(g.done) + g.open == FromFirstKey(xs)
      && (forall i | 0 <= i < |g.done| :: Tight(g.done[i]) && Span(g.done[i]) >= 3000)
      && (g.open != [] ==> Tight(g.open))
      && (g.open == [] ==> g.done == [])
  {
    if xs != [] {
      var n := |xs| - 1;
      var g, g', f := Group(xs[..n]), Group(xs), xs[n].f;
      GroupsPartition(xs[..n]);
      if g.open == [] {
      } else if IsKey(f) && Span(g.open) >= DURATION {
        assert g'.done[..|g.done|] == g.done;
      } else {
        TightNext(g.open, f);
        Regroup(Joined(g.done), g.open, [f]);
      }
    }
  }

  lemma TightNext(g: seq<Frame>, f: Frame)
    requires Tight(g) && (IsKey(f) ==> Span(g) < DURATION)
    ensures Tight(g + [f])
  {
    forall j | 1 <= j < |g + [f]| && IsKey((g + [f])[j])
      ensures Span((g + [f])[..j]) < DURATION
    {
      assert (g + [f])[..j] == if j < |g| then g[..j] else g;
    }
  }

  /** The index of the input that ends group i: the key frame with which the next group starts. */
  function EndOf(xs: seq<Input>, i: nat): (k: nat)
    requires i < |Group(xs).done|
    ensures k < |xs|
  {
    var n := |xs| - 1;
    if i < |Group(xs[..n]).done| then EndOf(xs[..n], i) else n
  }

  /** Before that input group i is the open one, with it the next group begins. */
  lemma {:induction false} EndOfIsEnd(xs: seq<Input>, i: nat)
    requires i < |Group(xs).done|
    ensures var k, g := EndOf(xs, i), Group(xs);
      && IsKey(xs[k].f) && g.done[i] == Group(xs[..k]).open && g.done[..i] == Group(xs[..k]).done
      && Group(xs[..k + 1]) == Groups(g.done[..i + 1], [xs[k].f])
  {
    hide Group, IsKey;
    GroupGrows(xs);
    var n := |xs| - 1;
    if i < |Group(xs[..n]).done| {
      EndOfIsEnd(xs[..n], i);
      var k := EndOf(xs[..n], i);
      assert xs[..n][..k] == xs[..k] && xs[..n][..k + 1] == xs[..k + 1];
    } else {
      assert xs[..n + 1] == xs;
    }
  }

  lemma GroupGrows(xs: seq<Input>)
    ensures xs == [] ==> Group(xs).done == []
    ensures xs != [] ==>
              var before, f := Group(xs[..|xs| - 1]), xs[|xs| - 1].f;
              || Group(xs).done == before.done
              || (Group(xs) == Groups(before.done + [before.open], [f]) && IsKey(f))
  {
  }

  // ----- What a segment carries -----------------------------------------------------------------

  function VideosOf(fs: seq<Frame>): seq<Frame> {
    if fs == [] then []
    else VideosOf(fs[..|fs| - 1]) + if fs[|fs| - 1].isVideo then [fs[|fs| - 1]] else []
  }

  function AudiosOf(fs: seq<Frame>): seq<Frame> {
    if fs == [] then []
    else AudiosOf(fs[..|fs| - 1]) + if fs[|fs| - 1].isVideo then [] else [fs[|fs| - 1]]
  }

  function Videos(units: seq<Unit>): seq<Frame> {
    if units == [] then []
    else Videos(units[..|units| - 1]) + if units[|units| - 1].Video? then [units[|units| - 1].f] else []
  }

  function Audios(units: seq<Unit>): seq<Frame> {
    if units == [] then []
    else Audios(units[..|units| - 1]) + if units[|units| - 1].Audio? then units[|units| - 1].frames else []
  }

  /** Collected audio has a time within two milliseconds of its first frame's. */
  predicate OnTime(pts: nat, frames: seq<Frame>) {
    frames != [] && Distance(pts, frames[0].timeStamp * 90) <= 180
  }

  /** The tables stand once, at the front; behind them the key frame; of audio there are at most six
      frames in one unit, and its time is right. */
  ghost predicate Shape(units: seq<Unit>, key: Frame) {
    && |units| >= 2 && units[0] == Tables && units[1] == Video(key)
    && forall i | 1 <= i < |units| ::
         || units[i].Video?
         || (units[i].Audio? && 1 <= |units[i].frames| <= 6 && OnTime(units[i].pts, units[i].frames))
  }

  /** The units and the collected audio hold exactly the frames of the group. */
  ghost predicate Carries(units: seq<Unit>, cached: seq<Frame>, g: seq<Frame>) {
    && g != [] && Shape(units, g[0])
    && Videos(units) == VideosOf(g) && Audios(units) + cached == AudiosOf(g)
  }

  /** Segments, open buffer and collected audio hold the groups. */
  ghost predicate Divided(s: State, g: Groups) {
    && |s.segments| == |g.done|
    && (forall i | 0 <= i < |g.done| ::
          && Carries(s.segments[i].units, [], g.done[i])
          && s.segments[i].duration == Span(g.done[i]) && s.segments[i].seqNum == i + 1)
    && |s.cached| < CACHE_MAX_FRAMES && (s.cached != [] ==> OnTime(s.cachePts, s.cached))
    && if g.open == [] then s.open.None? && s.cached == [] && !s.stat.hasSetFirstTs
       else
         && s.open.Some? && Carries(s.open.value, s.cached, g.open)
         && s.stat == Stat(true, g.open[0].timeStamp, g.open[|g.open| - 1].timeStamp)
  }

  lemma UnitAppended(units: seq<Unit>, u: Unit)
    ensures Videos(units + [u]) == Videos(units) + if u.Video? then [u.f] else []
    ensures Audios(units + [u]) == Audios(units) + if u.Audio? then u.frames else []
  {
    assert (units + [u])[..|units|] == units;
  }

  lemma FrameAppended(g: seq<Frame>, f: Frame)
    ensures VideosOf(g + [f]) == VideosOf(g) + if f.isVideo then [f] else []
    ensures AudiosOf(g + [f]) == AudiosOf(g) + if f.isVideo then [] else [f]
  {
    assert (g + [f])[..|g|] == g;
  }

  /** Writing out the collected audio changes nothing about what is held. */
  lemma MuxAudioCarries(s: State, limit: nat, g: seq<Frame>)
    requires s.open.Some? && Carries(s.open.value, s.cached, g) && 1 <= limit && |s.cached| <= CACHE_MAX_FRAMES
    requires s.cached != [] ==> OnTime(s.cachePts, s.cached)
    ensures var t := MuxAudio(s, limit);
      && t.open.Some? && Carries(t.open.value, t.cached, g) && t.stat == s.stat && t.segments == s.segments
      && (|t.cached| < limit || t.cached == []) && (t.cached != [] ==> OnTime(t.cachePts, t.cached))
  {
    var units := s.open.value;
    if |s.cached| >= limit {
      var u := Audio(s.cachePts, s.cached);
      UnitAppended(units, u);
      assert (units + [u])[1] == units[1];
      Regroup(Audios(units), s.cached, []);
      assert Audios(units) + [] == Audios(units);
      assert s.cached + [] == s.cached;
    }
  }

  lemma TsMuxCarries(s: State, f: Frame, pts: nat, g: seq<Frame>)
    requires s.open.Some? && Carries(s.open.value, s.cached, g) && |s.cached| < CACHE_MAX_FRAMES
    requires s.cached != [] ==> OnTime(s.cachePts, s.cached)
    requires !f.isVideo ==> OnTime(pts, [f])
    ensures var t := TsMux(s, f, pts);
      && t.open.Some? && Carries(t.open.value, t.cached, g + [f]) && t.stat == s.stat && t.segments == s.segments
      && |t.cached| < CACHE_MAX_FRAMES && (t.cached != [] ==> OnTime(t.cachePts, t.cached))
  {
    hide Videos, Audios, VideosOf, AudiosOf, MuxAudio;
    var units := s.open.value;
    FrameAppended(g, f);
    if f.isVideo {
      UnitAppended(units, Video(f));
      assert (units + [Video(f)])[1] == units[1];
    } else {
      hide OnTime;
      OnTimeNext(s.cachePts, s.cached, f);
      assert [] + [f] == [f];
      var t := s.(cachePts := if s.cached == [] then pts else s.cachePts, cached := s.cached + [f]);
      Regroup(Audios(units), s.cached, [f]);
      MuxAudioCarries(t, CACHE_MAX_FRAMES, g + [f]);
    }
  }

  lemma OnTimeNext(pts: nat, frames: seq<Frame>, f: Frame)
    ensures OnTime(pts, frames) ==> OnTime(pts, frames + [f])
  {
  }

  lemma NothingYet()
    ensures Videos([]) == [] && Audios([]) == [] && VideosOf([]) == [] && AudiosOf([]) == []
  {
  }

  /** The first frame of a segment. */
  lemma FirstFrameCarries(f: Frame)
    requires f.isVideo
    ensures Carries([Tables] + [Video(f)], [], [f])
  {
    hide Videos, Audios, VideosOf, AudiosOf;
    NothingYet();
    assert [Tables] == [] + [Tables];
    assert [f] == [] + [f];
    UnitAppended([Tables], Video(f));
    UnitAppended([], Tables);
    FrameAppended([], f);
  }

  lemma CutDivides(s: State, g: Groups, x: Input)
    requires Divided(s, g) && g.open != [] && IsKey(x.f) && Span(g.open) >= DURATION
    ensures Divided(Next(s, x), GroupNext(g, x.f))
  {
    hide Carries;
    var t := MuxAudio(s, 1);
    MuxAudioCarries(s, 1, g.open);
    FirstFrameCarries(x.f);
    var s', g' := Next(s, x), GroupNext(g, x.f);
    assert s'.segments == s.segments + [Segment(t.open.value, DurationMs(s), |s.segments| + 1, x.name)];
    assert s'.open == Some([Tables] + [Video(x.f)]) && s'.cached == [];
  }

  lemma StartDivides(s: State, g: Groups, x: Input)
    requires Divided(s, g) && g.open == [] && IsKey(x.f)
    ensures Divided(Next(s, x), GroupNext(g, x.f))
  {
    hide Carries;
    FirstFrameCarries(x.f);
  }

  lemma FrameDivides(s: State, g: Groups, x: Input)
    requires Divided(s, g) && g.open != [] && !(IsKey(x.f) && Span(g.open) >= DURATION)
    ensures Divided(Next(s, x), GroupNext(g, x.f))
  {
    hide Carries;
    var u := s.(stat := Update(s.stat, x.f.timeStamp));
    if x.f.isVideo {
      TsMuxCarries(u, x.f, 0, g.open);
    } else {
      var (pts, a) := Aligned(u.align, x.f.timeStamp * DEFAULT_HZ, x.inc);
      TsMuxCarries(u.(align := a), x.f, pts, g.open);
    }
  }

  /** Each segment has the name that came with the key frame that ended it. */
  ghost predicate Named(segments: seq<Segment>, xs: seq<Input>) {
    && |segments| == |Group(xs).done|
    && forall i | 0 <= i < |segments| :: segments[i].name == xs[EndOf(xs, i)].name
  }

  lemma {:induction false} RunNames(xs: seq<Input>)
    ensures Named(RunAll(xs).segments, xs)
  {
    hide Divided, Span, IsKey;
    if xs != [] {
      var n := |xs| - 1;
      var s, s' := RunAll(xs[..n]).segments, RunAll(xs).segments;
      RunNames(xs[..n]);
      SameNumber(xs);
      SegmentsGrow(RunAll(xs[..n]), xs[n]);
      hide RunAll, Group;
      forall i | 0 <= i < |s'| ensures s'[i].name == xs[EndOf(xs, i)].name {
        if i < |s| {
          assert s'[i] == s[i] && xs[..n][EndOf(xs[..n], i)] == xs[EndOf(xs, i)];
        }
      }
    }
  }

  lemma SameNumber(xs: seq<Input>)
    ensures |RunAll(xs).segments| == |Group(xs).done|
  {
    hide RunAll, Group;
    RunDivides(xs);
  }

  lemma SegmentsGrow(s: State, x: Input)
    ensures var s' := Next(s, x).segments;
      s' == s.segments || (|s'| == |s.segments| + 1 && s'[..|s.segments|] == s.segments && s'[|s.segments|].name == x.name)
  {
  }

  lemma {:induction false} RunDivides(xs: seq<Input>)
    ensures Divided(RunAll(xs), Group(xs))
  {
    if xs != [] {
      var n := |xs| - 1;
      var s, g, x := RunAll(xs[..n]), Group(xs[..n]), xs[n];
      RunDivides(xs[..n]);
      hide Divided;
      if g.open == [] {
        if IsKey(x.f) {
          StartDivides(s, g, x);
        } else {
          NothingOpen(s, g);
        }
      } else if IsKey(x.f) && Span(g.open) >= DURATION {
        CutDivides(s, g, x);
      } else {
        FrameDivides(s, g, x);
      }
    }
  }

  /** Over any run of accepted frames, each segment carries exactly one group, the open buffer and
      the collected audio carry the open one; durations are those of the groups, the numbers count from
      one, and the names are those due at the key frames that end the groups. */
  lemma SegmentsAreGroups(xs: seq<Input>)
    ensures Divided(RunAll(xs), Group(xs)) && Named(RunAll(xs).segments, xs)
  {
    RunDivides(xs);
    RunNames(xs);
  }

  lemma NothingOpen(s: State, g: Groups)
    requires Divided(s, g) && g.open == []
    ensures s.open.None?
  {
  }
}
