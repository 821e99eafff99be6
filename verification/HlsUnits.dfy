/** Where the segmenter puts every frame: the order of pictures and sound in a segment, how sound is
    collected, and the times it is given. */
module HlsUnits {
  import opened Bytes
  import opened TsFormat
  import opened HlsFormat

  // ----- Times of sound -----------------------------------------------------------------------------

  /** The times of audio frames, each given with its own time and its distance to the next. */
  function Beats(a: Align, ds: seq<nat>, inc: nat): seq<nat>
    decreases |ds|
  {
    if ds == [] then [] else [Aligned(a, ds[0], inc).0] + Beats(Aligned(a, ds[0], inc).1, ds[1..], inc)
  }

  /** As long as the frames' own times stay within two milliseconds of a regular beat, they are given
      exactly the beat: nothing drifts. */
  lemma {:induction false} KeepsTheBeat(a: Align, ds: seq<nat>, inc: nat)
    requires forall j | 0 <= j < |ds| :: -180 <= a.frameBase + (a.frameNum + j) * inc - ds[j] <= 180
    ensures |Beats(a, ds, inc)| == |ds|
    ensures forall j | 0 <= j < |ds| :: Beats(a, ds, inc)[j] == a.frameBase + (a.frameNum + j) * inc
    decreases |ds|
  {
    if ds != [] {
      var a' := a.(frameNum := a.frameNum + 1);
      OnTheBeat(a, ds[0], inc);
      forall j | 0 <= j < |ds[1..]| ensures -180 <= a'.frameBase + (a'.frameNum + j) * inc - ds[1..][j] <= 180 {
        assert a'.frameNum + j == a.frameNum + (j + 1) && ds[1..][j] == ds[j + 1];
      }
      KeepsTheBeat(a', ds[1..], inc);
      forall j | 0 <= j < |ds| ensures Beats(a, ds, inc)[j] == a.frameBase + (a.frameNum + j) * inc {
        if j > 0 {
          assert a'.frameNum + (j - 1) == a.frameNum + j;
        }
      }
    }
  }

  lemma OnTheBeat(a: Align, d: nat, inc: nat)
    requires -180 <= a.frameBase + (a.frameNum + 0) * inc - d <= 180
    ensures Aligned(a, d, inc) == (a.frameBase + (a.frameNum + 0) * inc, a.(frameNum := a.frameNum + 1))
  {
  }

  /** A frame further off keeps its own time, and the beat starts anew from it. */
  lemma OffTheBeat(a: Align, d: nat, inc: nat)
    requires !(-180 <= a.frameBase + a.frameNum * inc - d <= 180)
    ensures Aligned(a, d, inc) == (d, Align(1, d))
  {
  }

  // ----- The order of a segment -----------------------------------------------------------------------

  /** A frame and the time it is given. */
  datatype Stamped = Stamped(f: Frame, time: nat)

  datatype StampedGroups = StampedGroups(done: seq<seq<Stamped>>, open: seq<Stamped>)

  /** The state of the beat after a run: it counts the audio frames from the first key frame on. */
  function Beat(xs: seq<Input>): Align {
    if xs == [] then Align(0, 0)
    else
      var before, x := xs[..|xs| - 1], xs[|xs| - 1];
      if x.f.isVideo || FromFirstKey(before) == [] then Beat(before)
      else Aligned(Beat(before), x.f.timeStamp * 90, x.inc).1
  }

  function TimeOf(before: seq<Input>, x: Input): nat {
    if x.f.isVideo then 0 else Aligned(Beat(before), x.f.timeStamp * 90, x.inc).0
  }

  /** The groups of frames, each frame with its time. */
  function StampedGroup(xs: seq<Input>): StampedGroups {
    if xs == [] then StampedGroups([], [])
    else
      var before, x := xs[..|xs| - 1], xs[|xs| - 1];
      var g, s := StampedGroup(before), Stamped(x.f, TimeOf(before, x));
      if |Group(xs).done| > |Group(before).done| then StampedGroups(g.done + [g.open], [s])
      else if Group(xs).open == [] then g
      else g.(open := g.open + [s])
  }

  function Plain(g: seq<Stamped>): (fs: seq<Frame>)
    ensures |fs| == |g|
  {
    seq(|g|, i requires 0 <= i < |g| => g[i].f)
  }

  function Sounds(g: seq<Stamped>): seq<Stamped> {
    if g == [] then []
    else Sounds(g[..|g| - 1]) + if g[|g| - 1].f.isVideo then [] else [g[|g| - 1]]
  }

  /** Some sound as one unit, under the time of its first frame. */
  function Together(sounds: seq<Stamped>): Unit
    requires sounds != []
  {
    Audio(sounds[0].time, Plain(sounds))
  }

  /** Sound that waits: what is left over from units of six. */
  function Waiting(g: seq<Stamped>): (w: seq<Stamped>)
    ensures |w| == |Sounds(g)| % 6
  {
    Sounds(g)[|Sounds(g)| - |Sounds(g)| % 6..]
  }

  /** Every picture where it came, and every six frames of sound where the sixth came. */
  function Arranged(g: seq<Stamped>): seq<Unit> {
    if g == [] then []
    else
      var before, s := g[..|g| - 1], g[|g| - 1];
      Arranged(before)
      + if s.f.isVideo then [Video(s.f)]
        else if |Waiting(before)| == 5 then [Together(Waiting(before) + [s])] else []
  }

  /** A whole segment: the tables, its group, and at the end the sound that still waits. */
  function Complete(g: seq<Stamped>): seq<Unit> {
    [Tables] + Arranged(g) + if Waiting(g) == [] then [] else [Together(Waiting(g))]
  }

  ghost predicate InOrder(s: State, g: StampedGroups) {
    && |s.segments| == |g.done|
    && (forall i | 0 <= i < |g.done| :: s.segments[i].units == Complete(g.done[i]))
    && if g.open == [] then s.open.None? && s.cached == []
       else
         && s.open == Some([Tables] + Arranged(g.open)) && s.cached == Plain(Waiting(g.open))
         && (s.cached != [] ==> s.cachePts == Waiting(g.open)[0].time)
  }

  /** The groups with times are the groups. */
  lemma {:induction false} StampedAreGroups(xs: seq<Input>)
    ensures var s, g := StampedGroup(xs), Group(xs);
      && |s.done| == |g.done| && Plain(s.open) == g.open
      && forall i | 0 <= i < |g.done| :: Plain(s.done[i]) == g.done[i]
  {
    hide TimeOf;
    if xs != [] {
      var n := |xs| - 1;
      StampedAreGroups(xs[..n]);
      GroupStep(xs);
      hide Group;
    }
  }

  /** One more frame goes nowhere, behind the open group, or into a new one. */
  lemma GroupStep(xs: seq<Input>)
    requires xs != []
    ensures var g, g', f := Group(xs[..|xs| - 1]), Group(xs), xs[|xs| - 1].f;
      || g' == Groups(g.done + [g.open], [f])
      || (g' == g && g.open == [])
      || g' == Groups(g.done, g.open + [f])
  {
  }

  lemma WaitingNext(g: seq<Stamped>, s: Stamped)
    ensures Waiting(g + [s]) == if s.f.isVideo then Waiting(g)
                                else if |Waiting(g)| == 5 then [] else Waiting(g) + [s]
    ensures Arranged(g + [s]) == Arranged(g) + if s.f.isVideo then [Video(s.f)]
                                               else if |Waiting(g)| == 5 then [Together(Waiting(g) + [s])] else []
  {
    hide Together, Sounds, Arranged;
    SoundsNext(g, s);
    if !s.f.isVideo {
      SixAreFull(Sounds(g), s);
    } else {
      assert Sounds(g) + [] == Sounds(g);
    }
  }

  lemma SoundsNext(g: seq<Stamped>, s: Stamped)
    ensures Sounds(g + [s]) == Sounds(g) + if s.f.isVideo then [] else [s]
    ensures Arranged(g + [s]) == Arranged(g) + if s.f.isVideo then [Video(s.f)]
                                               else if |Waiting(g)| == 5 then [Together(Waiting(g) + [s])] else []
  {
    hide Together, Waiting;
    assert (g + [s])[..|g|] == g;
  }

  lemma SixAreFull(sounds: seq<Stamped>, s: Stamped)
    ensures var all, k := sounds + [s], |sounds| - |sounds| % 6;
      all[|all| - |all| % 6..] == if |sounds| % 6 == 5 then [] else sounds[k..] + [s]
  {
    var all, r := sounds + [s], |sounds| % 6;
    NextOfSix(|sounds|);
    if r < 5 {
      assert |all| - |all| % 6 == |sounds| - r;
      LastPart(sounds, s, |sounds| - r);
    }
  }

  lemma NextOfSix(n: nat)
    ensures (n + 1) % 6 == (if n % 6 == 5 then 0 else n % 6 + 1) && n % 6 <= n
  {
  }

  lemma LastPart(sounds: seq<Stamped>, s: Stamped, k: nat)
    requires k <= |sounds|
    ensures (sounds + [s])[k..] == sounds[k..] + [s]
  {
  }

  lemma NoneWaiting()
    ensures Waiting([]) == [] && Arranged([]) == [] && Plain([]) == []
  {
  }

  lemma PlainNext(g: seq<Stamped>, s: Stamped)
    ensures Plain(g + [s]) == Plain(g) + [s.f]
  {
  }

  /** A frame joins the open group. */
  lemma JoinsOpen(s: State, g: seq<Stamped>, x: Stamped)
    requires s.open == Some([Tables] + Arranged(g)) && s.cached == Plain(Waiting(g))
    requires s.cached != [] ==> s.cachePts == Waiting(g)[0].time
    ensures var t := TsMux(s, x.f, x.time);
      && t.open == Some([Tables] + Arranged(g + [x])) && t.cached == Plain(Waiting(g + [x]))
      && (t.cached != [] ==> t.cachePts == Waiting(g + [x])[0].time)
      && t.segments == s.segments
  {
    hide Arranged, Waiting;
    WaitingNext(g, x);
    if !x.f.isVideo {
      PlainNext(Waiting(g), x);
      assert Waiting(g + [x]) == [] ==> Plain(Waiting(g + [x])) == [];
    }
    if x.f.isVideo || |Waiting(g)| == 5 {
      Regroup([Tables], Arranged(g), if x.f.isVideo then [Video(x.f)] else [Together(Waiting(g) + [x])]);
    } else {
      assert Arranged(g) + [] == Arranged(g);
    }
  }

  lemma BeatOfRun(xs: seq<Input>)
    ensures RunAll(xs).align == Beat(xs)
    ensures RunAll(xs).open.None? <==> FromFirstKey(xs) == []
  {
    if xs != [] {
      var n := |xs| - 1;
      BeatOfRun(xs[..n]);
      hide RunAll, Aligned;
      BeatStep(RunAll(xs[..n]), xs[n]);
      assert RunAll(xs) == Next(RunAll(xs[..n]), xs[n]) by { LastStep(xs); }
    }
  }

  lemma LastStep(xs: seq<Input>)
    requires xs != []
    ensures RunAll(xs) == Next(RunAll(xs[..|xs| - 1]), xs[|xs| - 1])
  {
  }

  lemma BeatStep(s: State, x: Input)
    ensures var t := Next(s, x);
      && t.align == (if x.f.isVideo || s.open.None? then s.align else Aligned(s.align, x.f.timeStamp * 90, x.inc).1)
      && (t.open.None? <==> s.open.None? && !IsKey(x.f))
  {
    hide Aligned;
  }

  /** A key frame that ends a group: its segment is complete, and the next one begins with the tables. */
  lemma CutsInOrder(s: State, g: StampedGroups, x: Input)
    requires InOrder(s, g) && g.open != [] && IsKey(x.f) && DurationMs(s) >= 3000
    ensures InOrder(Next(s, x), StampedGroups(g.done + [g.open], [Stamped(x.f, 0)]))
  {
    hide Arranged, Waiting, Plain;
    NoneWaiting();
    WaitingNext([], Stamped(x.f, 0));
    assert [] + [Stamped(x.f, 0)] == [Stamped(x.f, 0)];
    assert Plain(Waiting(g.open)) == [] <==> Waiting(g.open) == [];
    var t := MuxAudio(s, 1);
    assert t.open == Some(Complete(g.open)) by {
      assert [Tables] + Arranged(g.open) + [] == [Tables] + Arranged(g.open);
    }
    var s' := Next(s, x);
    assert s'.segments == s.segments + [Segment(t.open.value, DurationMs(s), |s.segments| + 1, x.name)];
    assert s'.open == Some([Tables] + [Video(x.f)]) && s'.cached == [];
    assert [] + [Video(x.f)] == [Video(x.f)];
  }

  /** The first key frame. */
  lemma BeginsInOrder(s: State, g: StampedGroups, x: Input)
    requires InOrder(s, g) && g.open == []
    ensures InOrder(Next(s, x), if IsKey(x.f) then g.(open := [Stamped(x.f, 0)]) else g)
  {
    hide Arranged, Waiting, Plain;
    NoneWaiting();
    if IsKey(x.f) {
      WaitingNext([], Stamped(x.f, 0));
      assert [] + [Stamped(x.f, 0)] == [Stamped(x.f, 0)] && [] + [Video(x.f)] == [Video(x.f)];
    }
  }

  /** Any other frame. */
  lemma GoesOnInOrder(s: State, g: StampedGroups, x: Input)
    requires InOrder(s, g) && g.open != [] && !(IsKey(x.f) && DurationMs(s) >= 3000)
    ensures var time := if x.f.isVideo then 0 else Aligned(s.align, x.f.timeStamp * 90, x.inc).0;
      InOrder(Next(s, x), g.(open := g.open + [Stamped(x.f, time)]))
  {
    hide Arranged, Waiting, Plain, Aligned, TsMux;
    var u := s.(stat := Update(s.stat, x.f.timeStamp));
    var (time, a) := if x.f.isVideo then (0, s.align) else Aligned(s.align, x.f.timeStamp * 90, x.inc);
    JoinsOpen(u.(align := a), g.open, Stamped(x.f, time));
    assert u.(align := s.align) == u;
  }

  /** Over any run, every segment is the tables, then its group with every picture where it came and
      every six frames of sound as one unit where the sixth came, under the time of the first, then the
      sound that is left over; the open buffer and the collected audio are that of the open group. */
  lemma {:induction false} UnitsExactly(xs: seq<Input>)
    ensures InOrder(RunAll(xs), StampedGroup(xs))
  {
    hide InOrder, RunAll, Group, StampedGroup, Aligned, IsKey, Next, Span, FromFirstKey, Beat, DurationMs;
    if xs == [] {
      NothingInOrder();
    } else {
      var n := |xs| - 1;
      var s, x := RunAll(xs[..n]), xs[n];
      UnitsExactly(xs[..n]);
      BeatOfRun(xs[..n]);
      OpenFromFirstKey(xs[..n]);
      DurationIsSpan(xs[..n]);
      LastStep(xs);
      NextStamped(xs);
      var g := Group(xs[..n]);
      if g.open == [] {
        assert [] + [Stamped(x.f, 0)] == [Stamped(x.f, 0)];
        BeginsInOrder(s, StampedGroup(xs[..n]), x);
      } else if IsKey(x.f) && Span(g.open) >= 3000 {
        CutsInOrder(s, StampedGroup(xs[..n]), x);
      } else {
        GoesOnInOrder(s, StampedGroup(xs[..n]), x);
      }
    }
  }

  lemma NothingInOrder()
    ensures InOrder(RunAll([]), StampedGroup([]))
  {
  }

  /** Where one more frame goes, and its time. */
  lemma NextStamped(xs: seq<Input>)
    requires xs != []
    ensures var before, x := xs[..|xs| - 1], xs[|xs| - 1];
      var g, time := StampedGroup(before), if x.f.isVideo then 0 else Aligned(Beat(before), x.f.timeStamp * 90, x.inc).0;
      StampedGroup(xs) == if Group(before).open == [] then if IsKey(x.f) then g.(open := g.open + [Stamped(x.f, 0)]) else g
                          else if IsKey(x.f) && Span(Group(before).open) >= 3000
                          then StampedGroups(g.done + [g.open], [Stamped(x.f, 0)])
                          else g.(open := g.open + [Stamped(x.f, time)])
  {
    NextGroup(xs);
    hide Group, Aligned, Span, Beat;
  }

  lemma OpenFromFirstKey(xs: seq<Input>)
    ensures StampedGroup(xs).open == [] <==> Group(xs).open == []
    ensures FromFirstKey(xs) == [] <==> Group(xs).open == []
  {
    hide Group, FromFirstKey, StampedGroup;
    StampedAreGroups(xs);
    GroupsPartition(xs);
    JoinedNothing();
  }

  lemma JoinedNothing()
    ensures Joined([]) == []
  {
  }

  lemma DurationIsSpan(xs: seq<Input>)
    ensures Group(xs).open != [] ==> DurationMs(RunAll(xs)) == Span(Group(xs).open)
  {
    hide RunAll, Group, Carries;
    SegmentsAreGroups(xs);
  }

  lemma NextGroup(xs: seq<Input>)
    requires xs != []
    ensures var g, x := Group(xs[..|xs| - 1]), xs[|xs| - 1];
      Group(xs) == if g.open == [] then if IsKey(x.f) then g.(open := [x.f]) else g
                   else if IsKey(x.f) && Span(g.open) >= 3000 then Groups(g.done + [g.open], [x.f])
                   else g.(open := g.open + [x.f])
  {
  }
}
