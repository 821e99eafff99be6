/** The segmenter as it runs: a muxer that writes into the open segment's buffer, a cache of audio
    frames, the time stamps since the last cut, and the window of finished segments. */
module Hls {
  import opened Bytes
  import opened Buffers
  import opened TsFormat
  import opened TsPackets
  import opened TsTables
  import opened TsRuns
  import opened TsMuxers
  import opened HlsFormat
  import opened HlsBytes
  import Playlist

  class Status {
    var hasSetFirstTs: bool
    var firstTimestamp: int
    var lastTimestamp: int

    constructor ()
      ensures Value() == Stat(false, 0, 0)
    {
      hasSetFirstTs, firstTimestamp, lastTimestamp := false, 0, 0;
    }

    function Value(): Stat
      reads this
    {
      Stat(hasSetFirstTs, firstTimestamp, lastTimestamp)
    }

    method UpdateTs(timestamp: uint32)
      modifies this
      ensures Value() == Update(old(Value()), timestamp)
    {
      if !hasSetFirstTs {
        hasSetFirstTs := true;
        firstTimestamp := timestamp;
      }
      lastTimestamp := timestamp;
    }

    method ResetAndNew()
      modifies this
      ensures Value() == old(Value()).(hasSetFirstTs := false)
    {
      hasSetFirstTs := false;
    }
  }

  class Aligner {
    var frameNum: nat
    var frameBase: nat

    constructor ()
      ensures Value() == Align(0, 0)
    {
      frameNum, frameBase := 0, 0;
    }

    function Value(): Align
      reads this
    {
      Align(frameNum, frameBase)
    }

    method AlignDts(dts: nat, inc: nat) returns (aligned: nat)
      modifies this
      ensures (aligned, Value()) == Aligned(old(Value()), dts, inc)
    {
      hide Times;
      var estPts := frameBase + Times(frameNum, inc);
      var dPts := if estPts >= dts then estPts - dts else dts - estPts;
      if dPts <= SYNC_MS * DEFAULT_HZ {
        frameNum := frameNum + 1;
        return estPts;
      }
      frameNum := 1;
      frameBase := dts;
      aligned := dts;
    }
  }

  class AudioCache {
    var num: byte
    var offset: nat
    var pts: nat
    const buf: Buffer

    constructor ()
      ensures num == 0 && pts == 0 && fresh(buf)
    {
      num, offset, pts := 0, 0, 0;
      buf := new Buffer([]);
    }

    /** The collected frames are in the buffer, and it says how many there are. Of an emptied cache
        only the number is right. */
    ghost predicate Holds(frames: seq<Frame>)
      reads this, buf
    {
      num as int == |frames| && (frames != [] ==> buf.data == ConcatData(frames) && offset == |buf.data|)
    }

    method Cache(f: Frame, pts: nat, ghost frames: seq<Frame>)
      requires Holds(frames) && |frames| < CACHE_MAX_FRAMES
      modifies this, buf
      ensures Holds(frames + [f])
      ensures this.pts == if frames == [] then pts else old(this.pts)
    {
      if num == 0 {
        offset := 0;
        this.pts := pts;
        buf.Reset();
        assert ConcatData(frames) == [];
      }
      buf.Write(f.data);
      offset := offset + |f.data|;
      num := num + 1;
      FrameData(frames, f);
    }

    method GetFrame(ghost frames: seq<Frame>) returns (len: nat, time: nat, data: seq<byte>)
      requires Holds(frames) && frames != []
      modifies this`num
      ensures Holds([]) && time == pts && data == ConcatData(frames) && len == |data|
    {
      num := 0;
      len, time, data := offset, pts, buf.data;
    }
  }

  function CountersOf(m: Muxer): Counters
    reads m
  {
    Counters(m.videoCc, m.audioCc, m.patCc, m.pmtCc)
  }

  /** The buffer holds what the units are written as, and the counters stand behind them. */
  ghost predicate Wrote(units: seq<Unit>, c: Counters, data: seq<byte>, now: Counters) {
    Ok(c) && data == Written(AllOps(units), c) && now == After(AllOps(units), c)
  }

  lemma WroteOne(units: seq<Unit>, c: Counters, data: seq<byte>, now: Counters, u: Unit, op: Op)
    requires Wrote(units, c, data, now) && Ops(u) == [op]
    ensures Wrote(units + [u], c, data + Concat(Emitted(op, now)), Step(op, now))
  {
    hide Emitted, Step, Concat;
    UnitOps(units, u);
    OpAppended(AllOps(units), op, c);
  }

  lemma WroteTables(c: Counters)
    requires Ok(c)
    ensures var pmt := Pmt(SOUND_AAC, true);
      Wrote([Tables], c, Concat(Emitted(Pat, c)) + Concat(Emitted(pmt, Step(Pat, c))), Step(pmt, Step(Pat, c)))
  {
    hide Emitted, Step, Concat;
    var pmt := Pmt(SOUND_AAC, true);
    assert [Tables] == [] + [Tables];
    UnitOps([], Tables);
    assert [] + [Pat, pmt] == [] + [Pat] + [pmt];
    assert AllOps([Tables]) == [] + [Pat] + [pmt];
    OpAppended([], Pat, c);
    OpAppended([] + [Pat], pmt, c);
    assert [] + Concat(Emitted(Pat, c)) == Concat(Emitted(Pat, c));
  }

  lemma NothingBefore(segments: seq<Segment>)
    requires segments == []
    ensures After(SegmentOps(segments), FIRST) == FIRST
  {
  }

  lemma VideoHasItsOwnTime(s: State, f: Frame, pts: nat)
    requires s.open.Some?
    ensures f.isVideo ==> TsMux(s, f, pts) == TsMux(s, f, 0)
  {
  }

  lemma RunNext(items: seq<Playlist.Item>, item: Playlist.Item)
    ensures Playlist.Run(items + [item]) == Playlist.Set(Playlist.Run(items), item.name, item)
  {
    assert (items + [item])[..|items|] == items;
  }

  lemma TableBytes(c: Counters)
    requires Ok(c)
    ensures Concat(Emitted(Pat, c)) == PatPacket(TableCc(c.pat))
    ensures Concat(Emitted(Pmt(SOUND_AAC, true), c)) == PmtPacket(TableCc(c.pmt), SOUND_AAC, true)
  {
    hide PatPacket, PmtPacket;
    OneConcat(PatPacket(TableCc(c.pat)));
    OneConcat(PmtPacket(TableCc(c.pmt), SOUND_AAC, true));
  }

  lemma OneConcat(p: seq<byte>)
    ensures Concat([p]) == p
  {
    assert [p][1..] == [] && p + [] == p;
  }

  class Source {
    var seqNum: int
    var btswriter: Buffer?
    const muxer: Muxer
    var pts: nat
    var dts: nat
    const stat: Status
    const align: Aligner
    const cache: AudioCache
    const tsCache: Playlist.TSCacheItem
    ghost var state: State

    /** The objects that are written to are different ones. */
    ghost predicate Separate()
      reads this, muxer, cache
    {
      muxer.Valid() && btswriter != cache.buf
    }

    /** What the open segment's buffer and the muxer's counters stand for. */
    ghost predicate Muxed()
      reads this, muxer, btswriter
    {
      && (btswriter == null <==> state.open.None?)
      && if btswriter == null then
           CountersOf(muxer) == FIRST && state.segments == []
         else
           Wrote(state.open.value, After(SegmentOps(state.segments), FIRST), btswriter.data, CountersOf(muxer))
    }

    ghost predicate Collected()
      reads this, cache, cache.buf
    {
      cache.Holds(state.cached) && cache.pts == state.cachePts && |state.cached| < CACHE_MAX_FRAMES
    }

    ghost predicate Published()
      reads this, tsCache
    {
      seqNum == |state.segments| && tsCache.State() == Playlist.Run(Items(state.segments))
    }

    ghost predicate Valid()
      reads this, muxer, cache, cache.buf, btswriter, stat, align, tsCache
    {
      && Separate() && Muxed() && Collected() && Published()
      && stat.Value() == state.stat && align.Value() == state.align
    }

    constructor ()
      ensures Valid() && state == Init()
    {
      seqNum, btswriter, pts, dts := 0, null, 0, 0;
      muxer := new Muxer();
      stat := new Status();
      align := new Aligner();
      cache := new AudioCache();
      tsCache := new Playlist.TSCacheItem();
      state := Init();
    }

    /** Muxes a frame into the open segment. */
    method MuxFrameOf(p: Frame, ghost u: Unit)
      requires Separate() && Muxed() && btswriter != null && Ops(u) == [MuxFrame(p)]
      modifies this`state, muxer`videoCc, muxer`audioCc, muxer.tsPacket, btswriter
      ensures Separate() && Muxed()
      ensures state == old(state).(open := Some(old(state).open.value + [u]))
    {
      hide Packets, LastCc, Pes;
      ghost var now, data := CountersOf(muxer), btswriter.data;
      muxer.Mux(p, btswriter);
      WroteOne(state.open.value, After(SegmentOps(state.segments), FIRST), data, now, u, MuxFrame(p));
      state := state.(open := Some(state.open.value + [u]));
    }

    /** Muxes the collected audio as one frame, if there are at least so many. */
    method MuxAudioOf(limit: byte)
      requires Separate() && Muxed() && btswriter != null && limit > 0
      requires cache.Holds(state.cached) && cache.pts == state.cachePts
      modifies this`state, muxer`videoCc, muxer`audioCc, muxer.tsPacket, btswriter, cache`num
      ensures Separate() && Muxed() && state == MuxAudio(old(state), limit)
      ensures cache.Holds(state.cached) && cache.pts == state.cachePts
    {
      if cache.num < limit {
        return;
      }
      ghost var frames := state.cached;
      var _, time, buf := cache.GetFrame(frames);
      var p := Frame(false, time / DEFAULT_HZ % 0x1_0000_0000, buf, false, 0);
      hide Wrote, ConcatData, SegmentOps, After;
      MuxFrameOf(p, Audio(time, frames));
      state := state.(cached := []);
    }

    /** Writes the tables at the front of a new segment. */
    method WriteTables()
      requires muxer.Valid() && btswriter != null && btswriter.data == [] && btswriter != cache.buf
      requires state.open == Some([Tables]) && CountersOf(muxer) == After(SegmentOps(state.segments), FIRST)
      modifies muxer`patCc, muxer`pmtCc, muxer.pat, muxer.pmt, btswriter
      ensures Separate() && Muxed()
    {
      hide PatPacket, PmtPacket, After, SegmentOps;
      ghost var c := CountersOf(muxer);
      var pat := muxer.PAT();
      btswriter.Write(pat[..]);
      var pmt := muxer.PMT(SOUND_AAC, true);
      btswriter.Write(pmt[..]);
      WroteTables(c);
      TableBytes(c);
    }

    /** Hands a copy of the open segment to the window. */
    method Publish(filename: string)
      requires Separate() && Muxed() && btswriter != null && seqNum == |state.segments| + 1
      requires stat.Value() == state.stat && tsCache.State() == Playlist.Run(Items(state.segments))
      modifies this`state, tsCache
      ensures Published() && CountersOf(muxer) == After(SegmentOps(state.segments), FIRST)
      ensures var seg := Segment(old(state).open.value, DurationMs(old(state)), seqNum, filename);
        state == old(state).(segments := old(state).segments + [seg], open := Some([Tables]))
    {
      hide SegmentOps, After, AllOps, Written, Playlist.Set;
      ghost var segments := state.segments;
      ghost var seg := Segment(state.open.value, DurationMs(state), seqNum, filename);
      var item := Playlist.Item(filename, seqNum, stat.lastTimestamp - stat.firstTimestamp, btswriter.data);
      tsCache.SetItem(filename, item);
      SegmentAppended(segments, seg);
      AfterBoth(SegmentOps(segments), AllOps(seg.units), FIRST);
      assert item == ItemOf(segments, seg);
      RunNext(Items(segments), item);
      state := state.(segments := segments + [seg], open := Some([Tables]));
    }

    /** At a key frame: starts the first segment, or publishes one that is long enough and starts the
        next. The item keeps a copy of the buffer. */
    method CutAt(filename: string)
      requires Valid()
      modifies this`state, this`seqNum, this`btswriter, muxer, muxer.pat, muxer.pmt, muxer.tsPacket,
               btswriter, cache`num, stat, tsCache
      ensures Valid() && state == Cut(old(state), filename)
      ensures btswriter == old(btswriter) || fresh(btswriter)
    {
      hide Wrote, ConcatData, SegmentOps, After, Playlist.Run, Items;
      if btswriter == null {
        btswriter := new Buffer([]);
        NothingBefore(state.segments);
        state := state.(open := Some([Tables]));
        WriteTables();
      } else if stat.lastTimestamp - stat.firstTimestamp >= DURATION {
        EndSegment(filename);
      }
    }

    /** Publishes the open segment with the audio collected for it, and starts the next one. */
    method EndSegment(filename: string)
      requires Valid() && btswriter != null && DurationMs(state) >= DURATION
      modifies this`state, this`seqNum, muxer, muxer.pat, muxer.pmt, muxer.tsPacket, btswriter, cache`num, stat, tsCache
      ensures Valid() && state == Cut(old(state), filename)
    {
      hide Wrote, ConcatData, SegmentOps, After, Playlist.Run, Items;
      MuxAudioOf(1);
      seqNum := seqNum + 1;
      Publish(filename);
      btswriter.Reset();
      stat.ResetAndNew();
      state := state.(stat := stat.Value());
      WriteTables();
    }

    method CalcPtsDts(isVideo: bool, timeStamp: uint32, compositionTime: uint32, inc: nat)
      requires align.Value() == state.align
      modifies this`state, this`pts, this`dts, align
      ensures align.Value() == state.align
      ensures var (time, a) := Aligned(old(state).align, timeStamp * DEFAULT_HZ, inc);
        if isVideo then state == old(state) && pts == dts + compositionTime * DEFAULT_HZ
        else state == old(state).(align := a) && pts == dts == time
    {
      dts := timeStamp * DEFAULT_HZ;
      if isVideo {
        pts := dts + compositionTime * DEFAULT_HZ;
      } else {
        dts := align.AlignDts(dts, inc);
        pts := dts;
        state := state.(align := align.Value());
      }
    }

    method TsMuxOf(p: Frame)
      requires Valid() && btswriter != null
      modifies this`state, muxer`videoCc, muxer`audioCc, muxer.tsPacket, btswriter, cache, cache.buf
      ensures Valid() && state == TsMux(old(state), p, pts)
    {
      hide Wrote, ConcatData, SegmentOps, After;
      if p.isVideo {
        MuxFrameOf(p, Video(p));
      } else {
        cache.Cache(p, pts, state.cached);
        state := state.(cachePts := cache.pts, cached := state.cached + [p]);
        MuxAudioOf(CACHE_MAX_FRAMES);
      }
    }

    /** One frame that was accepted: what the sender's loop does with it. A frame before the first key
        frame is dropped. */
    method SendFrame(x: Input)
      requires Valid()
      modifies this, muxer, muxer.pat, muxer.pmt, muxer.tsPacket, btswriter, cache, cache.buf, stat, align, tsCache
      ensures Valid() && state == Next(old(state), x)
      ensures btswriter == old(btswriter) || fresh(btswriter)
    {
      hide Wrote, ConcatData, SegmentOps, After, Cut, TsMux, Aligned, Playlist.Run, Items;
      if x.f.isVideo && x.f.keyFrame {
        CutAt(x.name);
      }
      if btswriter != null {
        stat.UpdateTs(x.f.timeStamp);
        state := state.(stat := stat.Value());
        CalcPtsDts(x.f.isVideo, x.f.timeStamp, x.f.compositionTime % 0x1_0000_0000, x.inc);
        ghost var before := state;
        TsMuxOf(x.f);
        VideoHasItsOwnTime(before, x.f, pts);
      }
    }
  }
}
