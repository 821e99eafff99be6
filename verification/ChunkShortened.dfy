/** Whole connections whose sender shortens its headers: what the reader returns for every interleaving of
    such chunks, and with which chunk it gets out of step. */
module ChunkShortened {
  import opened Bytes
  import opened Wire
  import opened ChunkFormat
  import opened ChunkDemux
  import opened ChunkCompressed
  import opened ConnRoundTrip

  /** A chunk of a message, with the form of the message's header and its time difference. */
  datatype Sending = Sending(p: Piece, f: uint32, delta: uint32)

  /** What a sender remembers of the last message of a stream: its fields, the time difference written or
      implied, and whether the last header that was written at all was a full one. */
  datatype Prev = Prev(csid: uint32, timestamp: uint32, length: nat, typeID: uint32, streamID: uint32,
                       delta: uint32, full: bool)

  /** The chunk size in force, the messages under way and the last message of each key. */
  datatype Shortener = Shortener(size: uint32, open: map<uint32, Sending>, last: map<uint32, Prev>)

  function KeyOf(s: Sending): uint32 {
    Key(s.p.m.csid)
  }

  /** The rules of section 5.3.1.2 of the RTMP specification for the four forms. */
  predicate MayShorten(last: map<uint32, Prev>, s: Sending) {
    var k, m := KeyOf(s), s.p.m;
    && s.f <= 3
    && (s.f != 0 ==>
          && k in last && last[k].csid == m.csid
          && m.timestamp == Add32(last[k].timestamp, s.delta) && m.streamID == last[k].streamID
          && (s.f >= 2 ==> m.typeID == last[k].typeID && |m.data| == last[k].length)
          && (s.f == 3 ==> s.delta == last[k].delta))
  }

  predicate CanShorten(net: Shortener, s: Sending) {
    && net.size > 0 && WireOk(s.p.m) && s.p.off < |s.p.m.data|
    && if s.p.off == 0 then KeyOf(s) !in net.open && MayShorten(net.last, s)
       else KeyOf(s) in net.open && net.open[KeyOf(s)] == s && KeyOf(s) in net.last
  }

  /** The last message once this one has started. */
  function PrevAfter(last: map<uint32, Prev>, s: Sending): Prev {
    var k, m := KeyOf(s), s.p.m;
    Prev(m.csid, m.timestamp, |m.data|, m.typeID, m.streamID, if s.f == 0 then m.timestamp else s.delta,
         s.f == 0 || (s.f == 3 && k in last && last[k].full))
  }

  function LastAfter(net: Shortener, s: Sending): map<uint32, Prev> {
    if s.p.off == 0 then net.last[KeyOf(s) := PrevAfter(net.last, s)] else net.last
  }

  /** The sender after a chunk, before a completed message takes effect. */
  function SentShort(net: Shortener, s: Sending): Shortener
    requires CanShorten(net, s)
  {
    var k := KeyOf(s);
    net.(last := LastAfter(net, s),
         open := if IsLast(s.p, net.size) then net.open - {k}
                 else net.open[k := s.(p := Piece(s.p.m, s.p.off + net.size))])
  }

  function AfterShort(net: Shortener, s: Sending): Shortener
    requires CanShorten(net, s)
  {
    var net' := SentShort(net, s);
    if IsLast(s.p, net.size) then net'.(size := SizeAfter(s.p.m, net.size)) else net'
  }

  /** A run of chunks, each stream finishing a message before it starts the next, each header as short as
      the sender likes within the rules. */
  predicate ShortSchedule(net: Shortener, ss: seq<Sending>)
    decreases |ss|
  {
    ss == [] || (CanShorten(net, ss[0]) && ShortSchedule(AfterShort(net, ss[0]), ss[1..]))
  }

  function ChunkForm(s: Sending): uint32 {
    if s.p.off == 0 then s.f else 3
  }

  /** What stands between the basic header and the payload: the header's fields, or the extended field of
      the message's header once more. */
  function Between(net: Shortener, s: Sending): seq<byte>
    requires CanShorten(net, s)
  {
    if s.p.off == 0 then FormFields(s.p.m, s.f, s.delta) else ExtendedTimestamp(net.last[KeyOf(s)].delta)
  }

  function ShortBytes(net: Shortener, s: Sending): seq<byte>
    requires CanShorten(net, s)
  {
    BasicHeader(ChunkForm(s), s.p.m.csid) + (Between(net, s) + Part(s.p.m, s.p.off, net.size))
  }

  function RunBytes(net: Shortener, ss: seq<Sending>): seq<byte>
    requires ShortSchedule(net, ss)
    decreases |ss|
  {
    if ss == [] then [] else ShortBytes(net, ss[0]) + RunBytes(AfterShort(net, ss[0]), ss[1..])
  }

  function DeliveredShort(net: Shortener, s: Sending): seq<Delivery>
    requires CanShorten(net, s)
  {
    if IsLast(s.p, net.size) then [Delivery(s.p.m, SizeAfter(s.p.m, net.size))] else []
  }

  function CompletedShort(net: Shortener, ss: seq<Sending>): seq<Delivery>
    requires ShortSchedule(net, ss)
    decreases |ss|
  {
    if ss == [] then [] else DeliveredShort(net, ss[0]) + CompletedShort(AfterShort(net, ss[0]), ss[1..])
  }

  // ----- Which chunks the reader follows ----------------------------------------------------------

  /** A first chunk is followed unless it has no header behind a full one with a time other than zero, a
      later one unless it repeats an extended field that is not the message's time. */
  predicate ChunkFollowed(net: Shortener, s: Sending)
    requires CanShorten(net, s)
  {
    var k := KeyOf(s);
    if s.p.off == 0 then !(s.f == 3 && net.last[k].full && net.last[k].timestamp != 0)
    else net.last[k].delta >= EXTENDED ==> net.last[k].delta == s.p.m.timestamp
  }

  predicate AllFollowed(net: Shortener, ss: seq<Sending>)
    requires ShortSchedule(net, ss)
    decreases |ss|
  {
    ss == [] || (ChunkFollowed(net, ss[0]) && AllFollowed(AfterShort(net, ss[0]), ss[1..]))
  }

  // ----- Reader and sender in step ----------------------------------------------------------------

  /** The reader's state of a stream says the same of its last header as the sender remembers. */
  predicate Matches(cs: Chunk<seq<byte>>, prev: Prev) {
    && cs.timestamp == prev.timestamp && cs.length == prev.length && cs.typeID == prev.typeID
    && cs.streamID == prev.streamID && (cs.format == 0 <==> prev.full) && Implied(cs) == prev.delta
    && cs.exted == (prev.delta >= EXTENDED)
  }

  ghost predicate ShortLockstep(net: Shortener, conn: ConnState) {
    && ConnInv(conn) && conn.remoteChunkSize == net.size && conn.chunkSize > 0 && conn.src.err == None
    && (forall k :: k in net.last ==> k in conn.chunks && Matches(conn.chunks[k], net.last[k]))
    && (forall k :: k in net.open ==>
          && k in net.last && KeyOf(net.open[k]) == k && WireOk(net.open[k].p.m)
          && 0 < net.open[k].p.off < |net.open[k].p.m.data|
          && HoldsPart(conn.chunks[k], net.open[k].p.m, net.open[k].p.off))
    && (forall k :: k in conn.chunks && k !in net.open ==> conn.chunks[k].remain == 0)
  }

  // ----- One chunk --------------------------------------------------------------------------------

  /** The reading of a chunk's body by the state its basic header selects. */
  function BodyRead(conn: ConnState, form: uint32, csid: uint32, body: seq<byte>): ChunkResult
    requires ConnInv(conn)
  {
    ReadBody(Selected(conn, Key(csid), form).(csid := csid), Source(body, None), conn.remoteChunkSize)
  }

  /** A round of the read loop over a chunk is the reading of its body, stored under its key. */
  lemma StepIsBody(conn: ConnState, form: uint32, csid: uint32, bytes: seq<byte>, body: seq<byte>)
    requires ConnInv(conn) && form <= 3 && 2 <= csid <= 65599
    requires conn.src == Source(bytes, None) && bytes == BasicHeader(form, csid) + body
    requires Key(csid) in conn.chunks && conn.chunks[Key(csid)].remain != 0 ==> form == 3
    ensures ReadStep(conn) == Stored(conn, Key(csid), BodyRead(conn, form, csid, body))
  {
    hide ReadChunk, ReadBody, IdBytes, BasicHeader, ReadCsid, ReadStep, Stored;
    var h, k := form * 64 + Key(csid), Key(csid);
    BasicHeaderSplits(form, csid);
    Regroup([h], IdBytes(csid), body);
    StepUnfolds(conn, h, IdBytes(csid) + body);
    KeyAndForm(form, csid);
    var cs := Selected(conn, k, form);
    IdRead(csid, body);
    ChunkIsBody(cs, Source(IdBytes(csid) + body, None), conn.remoteChunkSize);
  }

  lemma KeyAndForm(form: uint32, csid: uint32)
    requires form <= 3
    ensures var h := form * 64 + Key(csid); h < 256 && h % 64 == Key(csid) && h / 64 == form
  {
  }

  /** What is true of the state a chunk continues. */
  lemma Continues(net: Shortener, s: Sending, conn: ConnState)
    requires CanShorten(net, s) && ShortLockstep(net, conn)
    ensures var cs := Selected(conn, KeyOf(s), ChunkForm(s));
      && (KeyOf(s) in conn.chunks && conn.chunks[KeyOf(s)].remain != 0 ==> ChunkForm(s) == 3)
      && (KeyOf(s) in net.last ==> Matches(cs, net.last[KeyOf(s)]))
      && (s.p.off == 0 ==> cs.remain == 0 && Conforms(cs, s.p.m, s.f, s.delta))
      && (s.p.off > 0 ==> HoldsPart(cs, s.p.m, s.p.off) && cs.remain != 0)
    ensures KeyOf(s) !in net.last ==> s.f == 0
  {
  }

  /** The last part of a message. */
  function End(s: Sending, size: nat): nat {
    Min(s.p.off + size, |s.p.m.data|)
  }

  /** A round of the reader over one chunk, as the sender meant it: the chunk is consumed and the state
      holds the message up to there. */
  ghost predicate RoundInStep(net: Shortener, s: Sending, conn: ConnState, rest: seq<byte>)
    requires ConnInv(conn)
  {
    var r := ReadStep(conn);
    r.Stepped? && r.conn.src == Source(rest, None) && HoldsPart(r.cs, s.p.m, End(s, net.size))
  }

  /** The state after a followed chunk. */
  ghost predicate StoredWell(net: Shortener, s: Sending, cs: Chunk<seq<byte>>)
    requires CanShorten(net, s)
  {
    && HoldsPart(cs, s.p.m, End(s, net.size)) && cs.csid == s.p.m.csid
    && Matches(cs, LastAfter(net, s)[KeyOf(s)])
  }

  /** The body of a first chunk. */
  lemma FirstBody(net: Shortener, s: Sending, cs: Chunk<seq<byte>>, rest: seq<byte>)
    requires CanShorten(net, s) && s.p.off == 0 && ChunkInv(cs) && cs.tmpFormat == s.f && cs.csid == s.p.m.csid
    requires Conforms(cs, s.p.m, s.f, s.delta) && (KeyOf(s) in net.last ==> Matches(cs, net.last[KeyOf(s)]))
    ensures var b := ReadBody(cs, Source(Between(net, s) + (Part(s.p.m, 0, net.size) + rest), None), net.size);
      if ChunkFollowed(net, s) then b.ChunkOk? && b.src == Source(rest, None) && StoredWell(net, s, b.cs)
      else b.ChunkOk? ==> b.cs.timestamp != s.p.m.timestamp
  {
    hide ReadMessageHeader, ReadPayload, FormFields, WireOk;
    var m, k := s.p.m, KeyOf(s);
    WireBounds(m);
    var src := Source(Part(m, 0, net.size) + rest, None);
    FirstHeaderExactly(cs, m, s.f, s.delta, src.input);
    assert cs.(tmpFormat := s.f) == cs;
    var h := ReadMessageHeader(cs, Source(FormFields(m, s.f, s.delta) + src.input, None)).cs;
    PayloadTakes(h, src, net.size);
    if ChunkFollowed(net, s) {
      assert h.(timestamp := m.timestamp) == h;
      PartRead(h, m, 0, net.size, rest);
      RemembersAfter(net, s, cs, ReadPayload(h, src, net.size).cs);
    }
  }

  /** Reader and sender draw the same from a header that was followed. */
  lemma RemembersAfter(net: Shortener, s: Sending, cs: Chunk<seq<byte>>, h: Chunk<seq<byte>>)
    requires CanShorten(net, s) && s.p.off == 0 && ChunkFollowed(net, s)
    requires Conforms(cs, s.p.m, s.f, s.delta) && (KeyOf(s) in net.last ==> Matches(cs, net.last[KeyOf(s)]))
    requires LastHeader(h, cs, s.p.m, s.f, s.delta) && HoldsPart(h, s.p.m, End(s, net.size))
    ensures Matches(h, LastAfter(net, s)[KeyOf(s)])
  {
    hide WireOk;
  }

  /** The body of a later chunk. */
  lemma LaterBody(net: Shortener, s: Sending, cs: Chunk<seq<byte>>, rest: seq<byte>)
    requires CanShorten(net, s) && s.p.off > 0 && ChunkInv(cs) && cs.tmpFormat == 3 && cs.csid == s.p.m.csid
    requires HoldsPart(cs, s.p.m, s.p.off) && cs.remain != 0 && Matches(cs, net.last[KeyOf(s)])
    ensures var b := ReadBody(cs, Source(Between(net, s) + (Part(s.p.m, s.p.off, net.size) + rest), None), net.size);
      if ChunkFollowed(net, s) then b.ChunkOk? && b.src == Source(rest, None) && StoredWell(net, s, b.cs)
      else b.ChunkOk? ==> b.src != Source(rest, None)
  {
    hide ReadMessageHeader, ReadPayload, WireOk;
    var m, part := s.p.m, Part(s.p.m, s.p.off, net.size);
    var src := Source(Between(net, s) + (part + rest), None);
    assert Between(net, s) == Repeated(cs) && cs.(tmpFormat := 3) == cs;
    if ChunkFollowed(net, s) {
      RepeatedExactly(cs, part + rest);
      PartRead(cs, m, s.p.off, net.size, rest);
    } else {
      NotSkipped(cs, part + rest);
      PayloadTakes(cs, src, net.size);
    }
  }

  lemma NotSkipped(h: Chunk<seq<byte>>, rest: seq<byte>)
    requires ChunkInv(h) && h.remain != 0 && h.tmpFormat == 3 && h.exted && Implied(h) != h.timestamp
    ensures var s := Source(Repeated(h) + rest, None);
      ReadMessageHeader(h, s) == ChunkOk(h, s) && |s.input| == 4 + |rest|
  {
    Pow256Values();
    FromBEInvertsBE(Implied(h), 4);
    Unjoin(BE(Implied(h), 4), rest);
  }

  /** A chunk is read in step if and only if it is followed, and then both sides remember the same. */
  lemma StepExactly(net: Shortener, s: Sending, conn: ConnState, rest: seq<byte>)
    requires CanShorten(net, s) && ShortLockstep(net, conn)
    requires conn.src.input == ShortBytes(net, s) + rest
    ensures RoundInStep(net, s, conn, rest) <==> ChunkFollowed(net, s)
    ensures ChunkFollowed(net, s) ==>
              var r := ReadStep(conn);
              && StoredWell(net, s, r.cs)
              && r == Stepped(r.cs, conn.(chunks := conn.chunks[KeyOf(s) := r.cs], src := Source(rest, None)))
  {
    hide ReadStep, ReadBody, WireOk, Matches, FormFields, BasicHeader, Conforms, ChunkFollowed, StoredWell;
    var m, part := s.p.m, Part(s.p.m, s.p.off, net.size);
    var body := Between(net, s) + (part + rest);
    Regroup(BasicHeader(ChunkForm(s), m.csid), Between(net, s) + part, rest);
    Regroup(Between(net, s), part, rest);
    Continues(net, s, conn);
    WireIds(m);
    StepIsBody(conn, ChunkForm(s), m.csid, conn.src.input, body);
    var cs := Selected(conn, KeyOf(s), ChunkForm(s));
    AnyId(cs, m.csid, s, net);
    if s.p.off == 0 {
      FirstBody(net, s, cs.(csid := m.csid), rest);
    } else {
      LaterBody(net, s, cs.(csid := m.csid), rest);
    }
    WellHolds(net, s);
  }

  lemma WireIds(m: Message)
    requires WireOk(m)
    ensures 2 <= m.csid <= 65599
  {
  }

  lemma WellHolds(net: Shortener, s: Sending)
    requires CanShorten(net, s)
    ensures forall cs :: StoredWell(net, s, cs) ==> HoldsPart(cs, s.p.m, End(s, net.size))
  {
  }

  /** The id of a state says nothing about its last header or its message. */
  lemma AnyId(cs: Chunk<seq<byte>>, id: uint32, s: Sending, net: Shortener)
    requires ChunkInv(cs)
    ensures ChunkInv(cs.(csid := id))
    ensures Conforms(cs, s.p.m, s.f, s.delta) ==> Conforms(cs.(csid := id), s.p.m, s.f, s.delta)
    ensures HoldsPart(cs, s.p.m, s.p.off) ==> HoldsPart(cs.(csid := id), s.p.m, s.p.off)
    ensures forall prev :: Matches(cs, prev) ==> Matches(cs.(csid := id), prev)
  {
    hide WireOk;
  }

  // ----- Whole runs -------------------------------------------------------------------------------

  lemma StoringKeepsShort(net: Shortener, s: Sending, conn: ConnState, cs: Chunk<seq<byte>>, rest: seq<byte>)
    requires CanShorten(net, s) && ShortLockstep(net, conn) && StoredWell(net, s, cs)
    ensures ShortLockstep(SentShort(net, s), conn.(chunks := conn.chunks[KeyOf(s) := cs], src := Source(rest, None)))
  {
    hide Matches, WireOk, PrevAfter, HoldsPart, StoredWell, ChunkInv;
    StoredFacts(net, s, cs);
    var k, net' := KeyOf(s), SentShort(net, s);
    var chunks := conn.chunks[k := cs];
    forall l | l in net'.last ensures l in chunks && Matches(chunks[l], net'.last[l]) {
      assert l != k ==> l in net.last && net'.last[l] == net.last[l];
    }
    forall l | l in net'.open
      ensures l in net'.last && KeyOf(net'.open[l]) == l && WireOk(net'.open[l].p.m)
      ensures 0 < net'.open[l].p.off < |net'.open[l].p.m.data|
      ensures HoldsPart(chunks[l], net'.open[l].p.m, net'.open[l].p.off)
    {
      assert l != k ==> l in net.open && net'.open[l] == net.open[l];
    }
  }

  lemma StoredFacts(net: Shortener, s: Sending, cs: Chunk<seq<byte>>)
    requires CanShorten(net, s) && StoredWell(net, s, cs)
    ensures ChunkInv(cs) && HoldsPart(cs, s.p.m, End(s, net.size)) && Matches(cs, LastAfter(net, s)[KeyOf(s)])
    ensures IsLast(s.p, net.size) ==> cs.remain == 0
  {
    hide WireOk, Matches;
  }

  /** A completed message takes effect on the reader as it does on the sender. */
  lemma CompletionKeepsShort(net: Shortener, s: Sending, conn: ConnState, msg: Chunk<seq<byte>>)
    requires CanShorten(net, s) && IsLast(s.p, net.size) && ShortLockstep(SentShort(net, s), conn)
    requires AsMessage(msg) == s.p.m
    ensures HandleControl(conn, msg).Some?
    ensures Acknowledge(HandleControl(conn, msg).value, msg.length).Some?
    ensures var conn' := Acknowledge(HandleControl(conn, msg).value, msg.length).value;
            conn'.src == conn.src && ShortLockstep(AfterShort(net, s), conn')
  {
    hide Matches, HoldsPart, PrevAfter, LastAfter;
  }

  /** The connection after a round: a completed message takes effect. */
  function AfterRound(r: StepResult): Option<ConnState>
    requires r.Stepped?
  {
    if !r.cs.got then Some(r.conn)
    else
      match HandleControl(r.conn, r.cs)
      case None => None
      case Some(conn) => Acknowledge(conn, r.cs.length)
  }

  /** Round by round, each chunk is read as the sender meant it. */
  ghost predicate RunInStep(net: Shortener, ss: seq<Sending>, conn: ConnState)
    requires ShortSchedule(net, ss) && ConnInv(conn)
    decreases |ss|
  {
    ss == [] ||
    (var net' := AfterShort(net, ss[0]);
     && RoundInStep(net, ss[0], conn, RunBytes(net', ss[1..]))
     && var next := AfterRound(ReadStep(conn));
     next.Some? && ConnInv(next.value) && RunInStep(net', ss[1..], next.value))
  }

  /** A followed chunk makes one round, after which both sides are in step. */
  lemma FollowedRound(net: Shortener, s: Sending, conn: ConnState, rest: seq<byte>) returns (conn': ConnState)
    requires CanShorten(net, s) && ShortLockstep(net, conn) && ChunkFollowed(net, s)
    requires conn.src.input == ShortBytes(net, s) + rest
    ensures RoundInStep(net, s, conn, rest) && AfterRound(ReadStep(conn)) == Some(conn')
    ensures ShortLockstep(AfterShort(net, s), conn') && conn'.src == Source(rest, None)
    ensures ReadAll(conn) == (DeliveredShort(net, s) + ReadAll(conn').0, ReadAll(conn').1)
  {
    hide ReadStep, ShortLockstep, Matches, ChunkFollowed, WireOk, ReadMessage, ReadAll, StoredWell;
    StepInvariant(net, conn);
    StepExactly(net, s, conn, rest);
    var r := ReadStep(conn);
    StoringKeepsShort(net, s, conn, r.cs, rest);
    WellCompletes(net, s, r.cs);
    if IsLast(s.p, net.size) {
      CompletionKeepsShort(net, s, r.conn, r.cs);
      conn' := AfterRound(r).value;
      FinishedRound(conn, conn');
      ReadAllAfterMessage(conn);
      SizeInStep(net, s, conn');
    } else {
      conn' := r.conn;
      UnfinishedStep(conn);
      NothingBefore(ReadAll(conn').0);
    }
  }

  lemma StepInvariant(net: Shortener, conn: ConnState)
    requires ShortLockstep(net, conn)
    ensures ConnInv(conn)
  {
  }

  lemma SizeInStep(net: Shortener, s: Sending, conn: ConnState)
    requires CanShorten(net, s) && ShortLockstep(AfterShort(net, s), conn) && IsLast(s.p, net.size)
    ensures ConnInv(conn) && conn.remoteChunkSize == SizeAfter(s.p.m, net.size)
  {
  }

  lemma WellCompletes(net: Shortener, s: Sending, cs: Chunk<seq<byte>>)
    requires CanShorten(net, s) && StoredWell(net, s, cs)
    ensures cs.got == IsLast(s.p, net.size) && (cs.got ==> AsMessage(cs) == s.p.m)
  {
    hide WireOk;
    assert s.p.m.data[..|s.p.m.data|] == s.p.m.data;
  }

  /** A round that completes a message is the whole read. */
  lemma FinishedRound(conn: ConnState, conn': ConnState)
    requires ConnInv(conn) && ReadStep(conn).Stepped? && ReadStep(conn).cs.got
    requires AfterRound(ReadStep(conn)) == Some(conn')
    ensures ReadMessage(conn) == ReadOk(ReadStep(conn).cs, conn')
  {
    hide ReadStep, HandleControl, Acknowledge;
  }

  lemma NoInput(net: Shortener, conn: ConnState)
    requires ShortLockstep(net, conn) && conn.src.input == []
    ensures ReadAll(conn).0 == [] && ReadAll(conn).1.Failed?
  {
    EndOfInput(conn);
  }

  /** Of any interleaving of messages with headers as short as the rules allow, the reader stays in step
      chunk by chunk if and only if it follows every chunk; the first that it does not follow is where it
      gets out of step. While it stays in step it returns exactly the completed messages, in the order of
      their last chunks. */
  lemma {:induction false} RunExactly(net: Shortener, ss: seq<Sending>, conn: ConnState)
    requires ShortSchedule(net, ss) && ShortLockstep(net, conn) && conn.src.input == RunBytes(net, ss)
    ensures RunInStep(net, ss, conn) <==> AllFollowed(net, ss)
    ensures AllFollowed(net, ss) ==> ReadAll(conn).0 == CompletedShort(net, ss) && ReadAll(conn).1.Failed?
    decreases |ss|
  {
    hide ReadAll, ReadStep, ShortBytes, CanShorten, ShortLockstep, ChunkFollowed, RoundInStep, AfterRound, AfterShort,
         DeliveredShort;
    StepInvariant(net, conn);
    if ss == [] {
      NoInput(net, conn);
    } else {
      var net' := AfterShort(net, ss[0]);
      var rest := RunBytes(net', ss[1..]);
      if ChunkFollowed(net, ss[0]) {
        var conn' := FollowedRound(net, ss[0], conn, rest);
        RunExactly(net', ss[1..], conn');
        StepInvariant(net', conn');
      } else {
        StepExactly(net, ss[0], conn, rest);
      }
    }
  }

  // ----- Whole messages ---------------------------------------------------------------------------

  /** A message is followed unless it has no header behind a full one with a time other than zero, or takes
      several chunks and has an extended time difference to a time other than zero. */
  predicate MessageFollowed(net: Shortener, s: Sending)
    requires CanShorten(net, s) && s.p.off == 0
  {
    var k := KeyOf(s);
    && !(s.f == 3 && net.last[k].full && net.last[k].timestamp != 0)
    && (|s.p.m.data| > net.size && s.f != 0 && s.delta >= EXTENDED ==> net.last[k].timestamp == 0)
  }

  /** Every message that starts is followed. */
  predicate MessagesFollowed(net: Shortener, ss: seq<Sending>)
    requires ShortSchedule(net, ss)
    decreases |ss|
  {
    ss == [] ||
    ((ss[0].p.off == 0 ==> MessageFollowed(net, ss[0])) && MessagesFollowed(AfterShort(net, ss[0]), ss[1..]))
  }

  /** The messages under way are followed to their end. */
  ghost predicate OpenFollowed(net: Shortener) {
    forall k :: k in net.open ==>
      && k in net.last && KeyOf(net.open[k]) == k
      && (net.last[k].delta >= EXTENDED ==> net.last[k].delta == net.open[k].p.m.timestamp)
  }

  lemma MessageIsChunks(net: Shortener, s: Sending)
    requires CanShorten(net, s) && OpenFollowed(net) && (s.p.off == 0 ==> MessageFollowed(net, s))
    ensures ChunkFollowed(net, s) && OpenFollowed(AfterShort(net, s))
  {
    hide WireOk;
  }

  /** In every interleaving whose messages are all followed the reader returns exactly the completed ones. */
  lemma {:induction false} FollowedMessagesArrive(net: Shortener, ss: seq<Sending>, conn: ConnState)
    requires ShortSchedule(net, ss) && ShortLockstep(net, conn) && conn.src.input == RunBytes(net, ss)
    requires MessagesFollowed(net, ss) && OpenFollowed(net)
    ensures ReadAll(conn).0 == CompletedShort(net, ss) && ReadAll(conn).1.Failed?
  {
    FollowedMessages(net, ss);
    RunExactly(net, ss, conn);
  }

  lemma {:induction false} FollowedMessages(net: Shortener, ss: seq<Sending>)
    requires ShortSchedule(net, ss) && MessagesFollowed(net, ss) && OpenFollowed(net)
    ensures AllFollowed(net, ss)
    decreases |ss|
  {
    hide CanShorten, ChunkFollowed, MessageFollowed, OpenFollowed, AfterShort;
    if ss != [] {
      MessageIsChunks(net, ss[0]);
      FollowedMessages(AfterShort(net, ss[0]), ss[1..]);
    }
  }

  /** From the start of a connection, whose first chunk size is 128. */
  lemma FreshShortened(ss: seq<Sending>)
    requires var net := Shortener(128, map[], map[]);
      ShortSchedule(net, ss) && MessagesFollowed(net, ss)
    ensures var net := Shortener(128, map[], map[]);
      ReadAll(NewConn(RunBytes(net, ss))).0 == CompletedShort(net, ss)
  {
    hide ReadAll, ShortSchedule, MessagesFollowed, RunBytes, CompletedShort;
    var net := Shortener(128, map[], map[]);
    FollowedMessagesArrive(net, ss, NewConn(RunBytes(net, ss)));
  }
}
