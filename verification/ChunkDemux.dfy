/** What a peer gets back from the chunks it is sent: for every schedule of chunks, in any
    interleaving over the chunk streams and with the chunk size changing on the way, repeated
    reads return exactly the messages whose last chunk was sent, in that order. */
module ChunkDemux {
  import opened Bytes
  import opened Wire
  import opened ChunkFormat

  // ----- Schedules of chunks -----------------------------------------------------------------

  /** The six-bit field of the basic header: the key under which the reader keeps a stream. */
  function Key(csid: uint32): uint32 {
    if csid < 64 then csid else if csid < 320 then 0 else 1
  }

  /** A message the format can carry and the reader can hold. */
  predicate WireOk(m: Message) {
    && 2 <= m.csid <= 65599
    && m.typeID < 256
    && 0 < |m.data| <= 512000
    && (m.typeID == 1 || m.typeID == 5 ==> |m.data| >= 4)
  }

  /** The chunk of a message that starts at data offset `off`. */
  datatype Piece = Piece(m: Message, off: nat)

  /** The sender's side of a connection: the chunk size in force and the messages under way. */
  datatype Sender = Sender(size: uint32, open: map<uint32, Piece>)

  predicate CanSend(net: Sender, p: Piece) {
    && net.size > 0
    && WireOk(p.m)
    && p.off < |p.m.data|
    && (if p.off == 0 then Key(p.m.csid) !in net.open
        else Key(p.m.csid) in net.open && net.open[Key(p.m.csid)] == p)
  }

  predicate IsLast(p: Piece, size: nat) {
    p.off + size >= |p.m.data|
  }

  /** The number at the front of a control message's data. */
  function Number(data: seq<byte>): uint32
    requires |data| >= 4
  {
    Pow256Values();
    FromBE(data[..4])
  }

  /** The chunk size in force once m is complete. */
  function SizeAfter(m: Message, size: uint32): uint32
    requires WireOk(m)
  {
    if m.typeID == 1 then Number(m.data) else size
  }

  function After(net: Sender, p: Piece): Sender
    requires CanSend(net, p)
  {
    var k := Key(p.m.csid);
    if IsLast(p, net.size) then Sender(SizeAfter(p.m, net.size), net.open - {k})
    else net.(open := net.open[k := Piece(p.m, p.off + net.size)])
  }

  /** A run of chunks in which each stream finishes a message before it starts the next. */
  predicate Schedule(net: Sender, ps: seq<Piece>)
    decreases |ps|
  {
    ps == [] || (CanSend(net, ps[0]) && Schedule(After(net, ps[0]), ps[1..]))
  }

  function WireBytes(net: Sender, ps: seq<Piece>): seq<byte>
    requires Schedule(net, ps)
    decreases |ps|
  {
    if ps == [] then []
    else ChunkBytes(ps[0].m, ps[0].off, net.size) + WireBytes(After(net, ps[0]), ps[1..])
  }

  /** A message together with the chunk size in force after it. */
  datatype Delivery = Delivery(m: Message, size: uint32)

  function Delivered(net: Sender, p: Piece): seq<Delivery>
    requires CanSend(net, p)
  {
    if IsLast(p, net.size) then [Delivery(p.m, SizeAfter(p.m, net.size))] else []
  }

  /** The messages a schedule completes, in the order of their last chunks. */
  function Completed(net: Sender, ps: seq<Piece>): seq<Delivery>
    requires Schedule(net, ps)
    decreases |ps|
  {
    if ps == [] then [] else Delivered(net, ps[0]) + Completed(After(net, ps[0]), ps[1..])
  }

  // ----- Reading everything there is ------------------------------------------------------------

  datatype End = Failed(error: Error) | Panicked

  function AsMessage(cs: Chunk<seq<byte>>): Message {
    Message(cs.csid, cs.timestamp, cs.typeID, cs.streamID, cs.data)
  }

  /** Repeated reads up to the first that does not return a message. */
  function ReadAll(conn: ConnState): (seq<Delivery>, End)
    requires ConnInv(conn)
    decreases |conn.src.input|
  {
    match ReadMessage(conn)
    case ReadOk(msg, conn') =>
      var (ds, end) := ReadAll(conn');
      ([Delivery(AsMessage(msg), conn'.remoteChunkSize)] + ds, end)
    case ReadFailed(e, _) => ([], Failed(e))
    case ReadPanics => ([], Panicked)
  }

  // ----- Sender and reader in step ----------------------------------------------------------------

  /** The reader's state of a stream holds exactly the part of the message already sent. */
  predicate Carries(cs: Chunk<seq<byte>>, p: Piece) {
    && p.off <= |p.m.data| < 0x1_0000_0000
    && cs.format == 0
    && cs.timestamp == p.m.timestamp
    && cs.length == |p.m.data|
    && cs.typeID == p.m.typeID
    && cs.streamID == p.m.streamID
    && cs.exted == (p.m.timestamp >= EXTENDED)
    && cs.index == p.off
    && cs.remain == |p.m.data| - p.off
    && cs.data == p.m.data[..p.off]
  }

  predicate UnderWay(k: uint32, p: Piece) {
    Key(p.m.csid) == k && WireOk(p.m) && 0 < p.off < |p.m.data|
  }

  ghost predicate Lockstep(net: Sender, conn: ConnState) {
    && ConnInv(conn)
    && conn.remoteChunkSize == net.size
    && conn.chunkSize > 0
    && conn.src.err == None
    && (forall k :: k in net.open ==>
          k in conn.chunks && UnderWay(k, net.open[k]) && Carries(conn.chunks[k], net.open[k]))
    && (forall k :: k in conn.chunks && k !in net.open ==> conn.chunks[k].remain == 0)
  }

  // ----- One chunk -----------------------------------------------------------------------------

  function IdBytes(csid: uint32): seq<byte>
    requires csid <= 65599
  {
    if csid < 64 then [] else if csid < 320 then LE(csid - 64, 1) else LE(csid - 64, 2)
  }

  lemma BasicHeaderSplits(format: uint32, csid: uint32)
    requires format <= 3 && csid <= 65599
    ensures BasicHeader(format, csid) == [format * 64 + Key(csid)] + IdBytes(csid)
  {
    var h := format * 64 + Key(csid);
    assert BE(h, 1) == BE(h / 256, 0) + [h % 256] == [h];
  }

  lemma IdRead(csid: uint32, rest: seq<byte>)
    requires 2 <= csid <= 65599
    ensures ReadCsid(Key(csid), Source(IdBytes(csid) + rest, None)) == (csid, Source(rest, None))
  {
    Pow256Values();
    if csid < 64 {
      assert IdBytes(csid) + rest == rest;
    } else {
      TakeLEOfLE(csid - 64, if csid < 320 then 1 else 2, rest);
    }
  }

  lemma FirstByteRead(h: byte, rest: seq<byte>)
    ensures TakeBE(Source([h] + rest, None), 1) == (h, Source(rest, None))
  {
    Pow256Values();
    assert BE(h, 1) == BE(h / 256, 0) + [h % 256] == [h];
    TakeBEOfBE(h, 1, rest);
  }

  lemma ExtendedRead(timestamp: uint32, rest: seq<byte>)
    ensures ReadExtended(Clamp(timestamp), Source(ExtendedTimestamp(timestamp) + rest, None))
         == (timestamp, timestamp >= EXTENDED, Source(rest, None))
  {
    Pow256Values();
    if timestamp >= EXTENDED {
      TakeBEOfBE(timestamp, 4, rest);
    } else {
      assert ExtendedTimestamp(timestamp) + rest == rest;
    }
  }

  /** The fields after the basic header of a first chunk. */
  function FirstFields(m: Message): seq<byte> {
    BE(Clamp(m.timestamp), 3) + (BE(|m.data|, 3) + (BE(m.typeID, 1)
    + (LE(m.streamID, 4) + ExtendedTimestamp(m.timestamp))))
  }

  lemma Header0Read(cs: Chunk<seq<byte>>, m: Message, rest: seq<byte>)
    requires WireOk(m)
    ensures ReadHeader0(cs, Source(FirstFields(m) + rest, None))
         == ChunkOk(cs.(format := 0, timestamp := m.timestamp, length := |m.data|,
                        typeID := m.typeID, streamID := m.streamID,
                        exted := m.timestamp >= EXTENDED, got := false, index := 0,
                        remain := |m.data|, data := []), Source(rest, None))
  {
    Pow256Values();
    var r4 := ExtendedTimestamp(m.timestamp) + rest;
    var r3 := LE(m.streamID, 4) + r4;
    var r2 := BE(m.typeID, 1) + r3;
    var r1 := BE(|m.data|, 3) + r2;
    assert FirstFields(m) + rest == BE(Clamp(m.timestamp), 3) + r1;
    TakeBEOfBE(Clamp(m.timestamp), 3, r1);
    TakeBEOfBE(|m.data|, 3, r2);
    TakeBEOfBE(m.typeID, 1, r3);
    TakeLEOfLE(m.streamID, 4, r4);
    ExtendedRead(m.timestamp, rest);
  }

  /** Payload of a chunk that carries p of a message, followed by anything. */
  lemma PayloadRead(cs: Chunk<seq<byte>>, p: Piece, size: uint32, rest: seq<byte>)
    requires WireOk(p.m) && p.off < |p.m.data| && size > 0
    requires ChunkInv(cs) && Carries(cs, p) && !cs.got
    ensures var end := Min(p.off + size, |p.m.data|);
            var r := ReadPayload(cs, Source(p.m.data[p.off..end] + rest, None), size);
            && r.ChunkOk? && r.src == Source(rest, None)
            && Carries(r.cs, Piece(p.m, end)) && r.cs.got == IsLast(p, size) && r.cs.csid == cs.csid
  {
    var end := Min(p.off + size, |p.m.data|);
    var run := p.m.data[p.off..end];
    var src := Source(run + rest, None);
    assert src.input[..|run|] == run && src.input[|run|..] == rest;
    assert p.m.data[..p.off] + run == p.m.data[..end];
  }

  /** What follows the basic header of a chunk, up to the payload. */
  function Fields(p: Piece): seq<byte> {
    if p.off == 0 then FirstFields(p.m) else ExtendedTimestamp(p.m.timestamp)
  }

  /** The bytes of a chunk after the first byte. */
  function Tail(p: Piece, size: nat): seq<byte>
    requires p.off <= |p.m.data| && p.m.csid <= 65599
  {
    IdBytes(p.m.csid)
    + (Fields(p) + p.m.data[p.off..Min(p.off + size, |p.m.data|)])
  }

  function HeaderByte(p: Piece): byte
    requires p.m.csid <= 65599
  {
    (if p.off == 0 then 0 else 192) + Key(p.m.csid)
  }

  lemma ChunkBytesSplit(p: Piece, size: nat)
    requires p.off <= |p.m.data| && p.m.csid <= 65599
    ensures ChunkBytes(p.m, p.off, size) == [HeaderByte(p)] + Tail(p, size)
  {
    BasicHeaderSplits(if p.off == 0 then 0 else 3, p.m.csid);
    FirstHeaderFields(p.m);
    JoinChunk(p, size, [HeaderByte(p)]);
  }

  lemma JoinChunk(p: Piece, size: nat, h: seq<byte>)
    requires p.off <= |p.m.data| && p.m.csid <= 65599
    requires FirstHeader(p.m) == BasicHeader(0, p.m.csid) + FirstFields(p.m)
    requires BasicHeader(if p.off == 0 then 0 else 3, p.m.csid) == h + IdBytes(p.m.csid)
    ensures ChunkBytes(p.m, p.off, size) == h + Tail(p, size)
  {
    hide IdBytes, BasicHeader, FirstFields, FirstHeader, ExtendedTimestamp, BE;
    var id, pay := IdBytes(p.m.csid), p.m.data[p.off..Min(p.off + size, |p.m.data|)];
    Regroup(h + id, Fields(p), pay);
    Regroup(h, id, Fields(p) + pay);
  }

  lemma FirstHeaderFields(m: Message)
    ensures FirstHeader(m) == BasicHeader(0, m.csid) + FirstFields(m)
  {
    hide BasicHeader, ExtendedTimestamp;
    var a, b := BasicHeader(0, m.csid), BE(Clamp(m.timestamp), 3);
    var c, d := BE(|m.data|, 3), BE(m.typeID, 1);
    var e, f := LE(m.streamID, 4), ExtendedTimestamp(m.timestamp);
    Regroup(a + b + c + d, e, f);
    Regroup(a + b + c, d, e + f);
    Regroup(a + b, c, d + (e + f));
    Regroup(a, b, c + (d + (e + f)));
  }

  /** The extended timestamp before more of a message is recognised and skipped. */
  lemma Header3Read(cs: Chunk<seq<byte>>, p: Piece, rest: seq<byte>)
    requires ChunkInv(cs) && Carries(cs, p) && p.off < |p.m.data|
    ensures ReadHeader3(cs, Source(ExtendedTimestamp(p.m.timestamp) + rest, None))
         == ChunkOk(cs, Source(rest, None))
  {
    var src := Source(ExtendedTimestamp(p.m.timestamp) + rest, None);
    if cs.exted {
      Pow256Values();
      FromBEInvertsBE(p.m.timestamp, 4);
      assert src.input[..4] == BE(p.m.timestamp, 4) && src.input[4..] == rest;
    } else {
      assert src.input == rest;
    }
  }

  /** The header of a chunk is read, whichever kind it is. */
  lemma HeaderRead(cs: Chunk<seq<byte>>, p: Piece, rest: seq<byte>) returns (h: Chunk<seq<byte>>)
    requires WireOk(p.m) && p.off < |p.m.data|
    requires ChunkInv(cs)
    requires if p.off == 0 then cs.remain == 0 && cs.tmpFormat == 0
             else Carries(cs, p) && cs.tmpFormat == 3
    ensures ReadMessageHeader(cs, Source(Fields(p) + rest, None)) == ChunkOk(h, Source(rest, None))
    ensures ChunkInv(h) && Carries(h, p) && !h.got && h.csid == cs.csid
  {
    if p.off == 0 {
      Header0Read(cs, p.m, rest);
    } else {
      Header3Read(cs, p, rest);
    }
    h := ReadMessageHeader(cs, Source(Fields(p) + rest, None)).cs;
  }

  lemma ChunkRead(cs: Chunk<seq<byte>>, p: Piece, size: uint32, rest: seq<byte>)
    requires WireOk(p.m) && p.off < |p.m.data| && size > 0
    requires ChunkInv(cs) && cs.csid == Key(p.m.csid)
    requires if p.off == 0 then cs.remain == 0 && cs.tmpFormat == 0
             else Carries(cs, p) && cs.tmpFormat == 3
    ensures var r := ReadChunk(cs, Source(Tail(p, size) + rest, None), size);
            && r.ChunkOk? && r.src == Source(rest, None)
            && Carries(r.cs, Piece(p.m, Min(p.off + size, |p.m.data|)))
            && r.cs.got == IsLast(p, size) && r.cs.csid == p.m.csid
  {
    var id, pay := IdBytes(p.m.csid), p.m.data[p.off..Min(p.off + size, |p.m.data|)];
    var after := pay + rest;
    Regroup(id, Fields(p) + pay, rest);
    Regroup(Fields(p), pay, rest);
    hide Tail, IdBytes, ReadMessageHeader, ReadCsid, ReadPayload;
    var src := Source(Tail(p, size) + rest, None);
    assert src.input == id + (Fields(p) + after);
    IdRead(p.m.csid, Fields(p) + after);
    var h := HeaderRead(cs.(csid := p.m.csid), p, after);
    PayloadRead(h, p, size, rest);
  }

  /** A round of the loop on a stream without errors: one byte selects the state, the rest is
      that state's chunk. */
  lemma StepUnfolds(conn: ConnState, h: byte, tail: seq<byte>)
    requires ConnInv(conn) && conn.src == Source([h] + tail, None)
    ensures ReadStep(conn) == ReadStepAfter(conn, h, Source(tail, None))
  {
    FirstByteRead(h, tail);
  }

  /** The sender after a chunk, before a completed message takes effect. */
  function Sent(net: Sender, p: Piece): Sender
    requires CanSend(net, p)
  {
    After(net, p).(size := net.size)
  }

  lemma StoringKeepsStep(net: Sender, p: Piece, conn: ConnState, cs: Chunk<seq<byte>>, rest: seq<byte>)
    requires CanSend(net, p) && Lockstep(net, conn)
    requires ChunkInv(cs) && Carries(cs, Piece(p.m, Min(p.off + net.size, |p.m.data|)))
    ensures Lockstep(Sent(net, p),
              conn.(chunks := conn.chunks[Key(p.m.csid) := cs], src := Source(rest, None)))
  {
  }

  lemma SelectedForPiece(net: Sender, p: Piece, conn: ConnState)
    requires CanSend(net, p) && Lockstep(net, conn)
    ensures var k := Key(p.m.csid);
            var cs := Selected(conn, k, HeaderByte(p) / 64);
            && HeaderByte(p) % 64 == k
            && cs.csid == k
            && (if p.off == 0 then cs.remain == 0 && cs.tmpFormat == 0
                else Carries(cs, p) && cs.tmpFormat == 3)
  {
  }

  lemma CompleteMessage(cs: Chunk<seq<byte>>, m: Message)
    requires Carries(cs, Piece(m, |m.data|)) && cs.csid == m.csid
    ensures AsMessage(cs) == m
  {
    assert m.data[..|m.data|] == m.data;
  }

  /** One scheduled chunk makes one round of the read loop, and both sides stay in step. */
  lemma StepReads(net: Sender, p: Piece, conn: ConnState, rest: seq<byte>)
    requires CanSend(net, p) && Lockstep(net, conn)
    requires conn.src.input == ChunkBytes(p.m, p.off, net.size) + rest
    ensures var r := ReadStep(conn);
            && r.Stepped? && r.conn.src == Source(rest, None)
            && r.cs.got == IsLast(p, net.size)
            && (r.cs.got ==> AsMessage(r.cs) == p.m && r.cs.length == |p.m.data|)
            && r.conn.chunkSize == conn.chunkSize
            && Lockstep(Sent(net, p), r.conn)
  {
    hide ReadChunk, ChunkBytes, Tail;
    var k, tail := Key(p.m.csid), Tail(p, net.size) + rest;
    ChunkBytesSplit(p, net.size);
    Regroup([HeaderByte(p)], Tail(p, net.size), rest);
    SelectedForPiece(net, p, conn);
    StepUnfolds(conn, HeaderByte(p), tail);
    var cs := Selected(conn, k, HeaderByte(p) / 64);
    ChunkRead(cs, p, net.size, rest);
    var c := ReadChunk(cs, Source(tail, None), net.size).cs;
    StoringKeepsStep(net, p, conn, c, rest);
    if c.got {
      CompleteMessage(c, p.m);
    }
  }

  // ----- Whole runs ------------------------------------------------------------------------------

  /** A completed message takes effect on the reader as it does on the sender. */
  lemma CompletionKeepsStep(net: Sender, p: Piece, conn: ConnState, msg: Chunk<seq<byte>>)
    requires CanSend(net, p) && IsLast(p, net.size) && Lockstep(Sent(net, p), conn)
    requires AsMessage(msg) == p.m
    ensures HandleControl(conn, msg).Some?
    ensures Acknowledge(HandleControl(conn, msg).value, msg.length).Some?
    ensures var conn' := Acknowledge(HandleControl(conn, msg).value, msg.length).value;
            conn'.src == conn.src && Lockstep(After(net, p), conn')
  {
  }

  /** Without any input left a read fails; it does not panic and returns no message. */
  lemma EndOfInput(conn: ConnState)
    requires ConnInv(conn) && conn.src == Source([], None)
    ensures ReadAll(conn).0 == [] && ReadAll(conn).1.Failed?
  {
    hide ReadChunk, Selected;
    EndedChunk(Selected(conn, 0, 0), Source([], Some(EOF)), conn.remoteChunkSize);
    assert TakeBE(conn.src, 1) == (0, Source([], Some(EOF)));
    assert ReadStep(conn).StepFailed?;
  }

  /** Once an error sticks, a chunk whose first byte read as zero fails. */
  lemma EndedChunk(cs: Chunk<seq<byte>>, s: Source, size: uint32)
    requires ChunkInv(cs) && cs.tmpFormat == 0 && cs.csid == 0 && s.err.Some?
    ensures ReadChunk(cs, s, size).ChunkFailed?
  {
    hide ReadHeader0, ReadHeader1, ReadHeader2, ReadHeader3;
    if cs.remain == 0 {
      assert ReadCsid(0, s) == (64, s);
      EndedHeader0(cs.(csid := 64), s);
    }
  }

  lemma EndedHeader0(cs: Chunk<seq<byte>>, s: Source)
    requires s.err.Some?
    ensures ReadHeader0(cs, s).ChunkOk? && ReadHeader0(cs, s).src == s
  {
    assert TakeBE(s, 3) == (0, s) && TakeBE(s, 1) == (0, s) && TakeLE(s, 4) == (0, s);
  }

  /** A round that completes nothing leaves the read to the rounds after it. */
  lemma UnfinishedStep(conn: ConnState)
    requires ConnInv(conn) && ReadStep(conn).Stepped? && !ReadStep(conn).cs.got
    ensures ReadMessage(conn) == ReadMessage(ReadStep(conn).conn)
    ensures ReadAll(conn) == ReadAll(ReadStep(conn).conn)
  {
  }

  lemma FinishedStep(net: Sender, p: Piece, conn: ConnState, rest: seq<byte>) returns (conn': ConnState)
    requires CanSend(net, p) && Lockstep(net, conn) && IsLast(p, net.size)
    requires conn.src.input == ChunkBytes(p.m, p.off, net.size) + rest
    ensures Lockstep(After(net, p), conn') && conn'.src == Source(rest, None)
    ensures ReadMessage(conn).ReadOk? && ReadMessage(conn).conn == conn'
    ensures AsMessage(ReadMessage(conn).msg) == p.m
  {
    StepReads(net, p, conn, rest);
    var r := ReadStep(conn);
    CompletionKeepsStep(net, p, r.conn, r.cs);
    conn' := Acknowledge(HandleControl(r.conn, r.cs).value, r.cs.length).value;
  }

  /** A scheduled chunk at the front of the input contributes what it delivers; the rest is
      read by a reader in step with the sender after it. */
  lemma OneChunk(net: Sender, p: Piece, conn: ConnState, rest: seq<byte>) returns (conn': ConnState)
    requires CanSend(net, p) && Lockstep(net, conn)
    requires conn.src.input == ChunkBytes(p.m, p.off, net.size) + rest
    ensures Lockstep(After(net, p), conn') && conn'.src == Source(rest, None)
    ensures ReadAll(conn) == (Delivered(net, p) + ReadAll(conn').0, ReadAll(conn').1)
  {
    hide ReadMessage, ReadStep;
    if IsLast(p, net.size) {
      conn' := FinishedStep(net, p, conn, rest);
      ReadAllAfterMessage(conn);
    } else {
      conn' := UnfinishedChunk(net, p, conn, rest);
      assert [] + ReadAll(conn').0 == ReadAll(conn').0;
    }
  }

  lemma UnfinishedChunk(net: Sender, p: Piece, conn: ConnState, rest: seq<byte>) returns (conn': ConnState)
    requires CanSend(net, p) && Lockstep(net, conn) && !IsLast(p, net.size)
    requires conn.src.input == ChunkBytes(p.m, p.off, net.size) + rest
    ensures Lockstep(After(net, p), conn') && conn'.src == Source(rest, None)
    ensures ReadAll(conn) == ReadAll(conn')
  {
    StepReads(net, p, conn, rest);
    conn' := ReadStep(conn).conn;
    UnfinishedStep(conn);
  }

  lemma ReadAllAfterMessage(conn: ConnState)
    requires ConnInv(conn) && ReadMessage(conn).ReadOk?
    ensures var ReadOk(msg, conn') := ReadMessage(conn);
            ReadAll(conn) == ([Delivery(AsMessage(msg), conn'.remoteChunkSize)] + ReadAll(conn').0,
                              ReadAll(conn').1)
  {
  }

  /** The sender after a whole schedule. */
  function Final(net: Sender, ps: seq<Piece>): Sender
    requires Schedule(net, ps)
    decreases |ps|
  {
    if ps == [] then net else Final(After(net, ps[0]), ps[1..])
  }

  /** A schedule followed by anything: its messages are delivered and the rest is read by a
      reader in step with the sender's final state. */
  lemma {:induction false} ScheduleThenMore(net: Sender, ps: seq<Piece>, conn: ConnState, more: seq<byte>)
      returns (conn': ConnState)
    requires Schedule(net, ps) && Lockstep(net, conn)
    requires conn.src.input == WireBytes(net, ps) + more
    ensures Lockstep(Final(net, ps), conn') && conn'.src == Source(more, None)
    ensures ReadAll(conn) == (Completed(net, ps) + ReadAll(conn').0, ReadAll(conn').1)
    decreases |ps|
  {
    hide ReadMessage;
    if ps == [] {
      conn' := conn;
      NothingBefore(more);
      NothingBefore(ReadAll(conn').0);
    } else {
      var net' := After(net, ps[0]);
      var first, second := ChunkBytes(ps[0].m, ps[0].off, net.size), WireBytes(net', ps[1..]);
      Regroup(first, second, more);
      var conn1 := OneChunk(net, ps[0], conn, second + more);
      conn' := ScheduleThenMore(net', ps[1..], conn1, more);
      Regroup(Delivered(net, ps[0]), Completed(net', ps[1..]), ReadAll(conn').0);
    }
  }

  lemma NothingBefore<T>(a: seq<T>)
    ensures [] + a == a
  {
  }

  /** The reader returns every message of every schedule once, intact, in the order of the last
      chunks, with the sender's chunk size after each; then it fails. */
  lemma DemultiplexesEverySchedule(net: Sender, ps: seq<Piece>, conn: ConnState)
    requires Schedule(net, ps) && Lockstep(net, conn)
    requires conn.src.input == WireBytes(net, ps)
    ensures ReadAll(conn).0 == Completed(net, ps)
    ensures ReadAll(conn).1.Failed?
  {
    assert conn.src.input == WireBytes(net, ps) + [];
    var conn' := ScheduleThenMore(net, ps, conn, []);
    EndOfInput(conn');
    assert Completed(net, ps) + [] == Completed(net, ps);
  }
}
