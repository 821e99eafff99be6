/** Messages written to a connection and read back by its peer. */
module ConnRoundTrip {
  import opened Bytes
  import opened Wire
  import opened ChunkFormat
  import opened ChunkDemux

  /** A new connection. */
  function NewConn(input: seq<byte>): ConnState {
    ConnState(128, 128, 2500000, 2500000, 0, 0, map[], Source(input, None), [])
  }

  /** The message as a peer must find it: audio on chunk stream 4, video and metadata on 6, any other
      message on its own, with all else as it was. */
  function OnItsStream(m: Message): Message {
    m.(csid := if m.typeID == 8 then 4 else if m.typeID in {9, 15, 18} then 6 else m.csid)
  }

  lemma RoutedIsOnItsStream(m: Message)
    ensures Routed(m) == OnItsStream(m)
  {
  }

  /** What the writer may be given so that a peer can read it back. A Set Chunk Size message has
      the four bytes the protocol prescribes and takes effect before it is written, so the new
      size must let it fit into one chunk. */
  predicate InScope(m: Message) {
    && WireOk(OnItsStream(m))
    && (m.typeID == 1 ==> |m.data| == 4 && Number(m.data) >= 4)
  }

  predicate AllInScope(msgs: seq<Message>) {
    forall i :: 0 <= i < |msgs| ==> InScope(msgs[i])
  }

  // ----- One message ---------------------------------------------------------------------------

  /** The chunks of a message from data offset `off` on. */
  function Pieces(m: Message, off: nat, size: nat): seq<Piece>
    requires size > 0
    decreases |m.data| - off
  {
    if off >= |m.data| then [] else [Piece(m, off)] + Pieces(m, off + size, size)
  }

  /** The chunks the writer makes of one message are a schedule that completes just it. */
  lemma {:induction false} PiecesAreASchedule(net: Sender, m: Message, off: nat)
    requires net.size > 0 && WireOk(m) && off < |m.data| && CanSend(net, Piece(m, off))
    ensures var ps := Pieces(m, off, net.size);
            && Schedule(net, ps)
            && WireBytes(net, ps) == ChunksFrom(m, off, net.size)
            && Completed(net, ps) == [Delivery(m, SizeAfter(m, net.size))]
            && Final(net, ps) == Sender(SizeAfter(m, net.size), net.open - {Key(m.csid)})
    decreases |m.data| - off
  {
    hide ChunkBytes, WireOk;
    var p, ps := Piece(m, off), Pieces(m, off, net.size);
    var rest := Pieces(m, off + net.size, net.size);
    assert ps[0] == p && ps[1..] == rest;
    if IsLast(p, net.size) {
      assert rest == [];
      assert Schedule(After(net, p), rest);
    } else {
      PiecesAreASchedule(After(net, p), m, off + net.size);
      var k := Key(m.csid);
      assert net.open[k := Piece(m, off + net.size)] - {k} == net.open - {k};
    }
  }

  /** A message whose size change does not alter how it is cut is written at the old size. */
  lemma WriteInScope(conn: ConnState, m: Message)
    requires InScope(m) && conn.chunkSize >= 4
    ensures var size := SizeAfter(OnItsStream(m), conn.chunkSize);
            && size >= 4
            && WriteMessage(conn, m) == WriteOk(conn.(chunkSize := size,
                 output := conn.output + ChunksFrom(OnItsStream(m), 0, conn.chunkSize)))
  {
    RoutedIsOnItsStream(m);
    if m.typeID == 1 {
      OneChunkMessage(OnItsStream(m), conn.chunkSize, Number(m.data));
    }
  }

  lemma OneChunkMessage(m: Message, size: nat, size': nat)
    requires 0 < |m.data| <= size && |m.data| <= size'
    ensures ChunksFrom(m, 0, size) == ChunksFrom(m, 0, size')
  {
    assert ChunksFrom(m, size, size) == [] == ChunksFrom(m, size', size');
    assert ChunkBytes(m, 0, size) == ChunkBytes(m, 0, size');
  }

  // ----- Any number of messages ---------------------------------------------------------------

  /** The writer's state after writing msgs, if every write succeeds. */
  function WriteAll(conn: ConnState, msgs: seq<Message>): Option<ConnState>
    decreases |msgs|
  {
    if msgs == [] then Some(conn)
    else
      match WriteMessage(conn, msgs[0])
      case WriteOk(conn') => WriteAll(conn', msgs[1..])
      case WriteFailed(_, _) => None
      case WritePanics => None
  }

  /** What the peer should read: each message on its chunk stream, and the chunk size the writer has
      after it. */
  function Expected(msgs: seq<Message>, size: uint32): seq<Delivery>
    requires AllInScope(msgs)
    decreases |msgs|
  {
    if msgs == [] then []
    else
      var size' := SizeAfter(OnItsStream(msgs[0]), size);
      [Delivery(OnItsStream(msgs[0]), size')] + Expected(msgs[1..], size')
  }

  /** Whatever messages in scope are written, with size changes among them, the peer reads
      exactly those, in order, and both agree on the chunk size after each one. */
  lemma {:induction false} RoundTrip(writer: ConnState, msgs: seq<Message>, reader: ConnState)
    requires AllInScope(msgs)
    requires writer.chunkSize >= 4 && Lockstep(Sender(writer.chunkSize, map[]), reader)
    requires WriteAll(writer, msgs).Some? ==>
               WriteAll(writer, msgs).value.output == writer.output + reader.src.input
    ensures WriteAll(writer, msgs).Some?
    ensures ReadAll(reader).0 == Expected(msgs, writer.chunkSize)
    ensures ReadAll(reader).1.Failed?
    decreases |msgs|
  {
    if msgs == [] {
      assert reader.src.input == [] by { assert |reader.src.input| == 0; }
      EndOfInput(reader);
    } else {
      var m, net := OnItsStream(msgs[0]), Sender(writer.chunkSize, map[]);
      WriteInScope(writer, msgs[0]);
      var writer' := WriteMessage(writer, msgs[0]).conn;
      var bytes := ChunksFrom(m, 0, writer.chunkSize);
      WritesAppend(writer', msgs[1..]);
      var more := WriteAll(writer', msgs[1..]).value.output[|writer'.output|..];
      SplitOutput(writer.output, bytes, more, reader.src.input);
      PiecesAreASchedule(net, m, 0);
      var ps := Pieces(m, 0, writer.chunkSize);
      var reader' := ScheduleThenMore(net, ps, reader, more);
      assert net.open - {Key(m.csid)} == map[];
      RoundTrip(writer', msgs[1..], reader');
    }
  }

  lemma SplitOutput(before: seq<byte>, first: seq<byte>, more: seq<byte>, input: seq<byte>)
    requires (before + first) + more == before + input
    ensures input == first + more
  {
    assert input == (before + input)[|before|..];
    assert first + more == ((before + first) + more)[|before|..];
  }

  /** Writing only ever appends, and messages in scope are all written. */
  lemma {:induction false} WritesAppend(writer: ConnState, msgs: seq<Message>)
    requires AllInScope(msgs)
    requires writer.chunkSize >= 4
    ensures WriteAll(writer, msgs).Some? && writer.output <= WriteAll(writer, msgs).value.output
    decreases |msgs|
  {
    if msgs != [] {
      WriteInScope(writer, msgs[0]);
      WritesAppend(WriteMessage(writer, msgs[0]).conn, msgs[1..]);
    }
  }

  /** Two new connections talking to each other. */
  lemma FreshRoundTrip(msgs: seq<Message>)
    requires AllInScope(msgs)
    ensures WriteAll(NewConn([]), msgs).Some?
    ensures var stream := WriteAll(NewConn([]), msgs).value.output;
            ReadAll(NewConn(stream)).0 == Expected(msgs, 128) && ReadAll(NewConn(stream)).1.Failed?
  {
    hide ReadAll, WriteAll, Expected;
    WritesAppend(NewConn([]), msgs);
    var stream := WriteAll(NewConn([]), msgs).value.output;
    assert [] + stream == stream;
    RoundTrip(NewConn([]), msgs, NewConn(stream));
  }

  // ----- Exactly which messages arrive ----------------------------------------------------------

  /** The message is written, it alone comes out at the other end, on its chunk stream, and both sides
      agree on the chunk size afterwards. */
  ghost predicate Arrives(writer: ConnState, reader: ConnState, m: Message)
    requires ConnInv(reader)
  {
    match WriteMessage(writer, m)
    case WriteOk(w) =>
      writer.output <= w.output &&
      ReadAll(reader.(src := Source(w.output[|writer.output|..], None))).0
        == [Delivery(OnItsStream(m), w.chunkSize)]
    case WriteFailed(_, _) => false
    case WritePanics => false
  }

  /** A message arrives if and only if it is in scope: its final chunk stream id is 2 to 65599,
      its type fits a byte, it is neither empty nor larger than the pool, and a control message
      holds its number, which for a new chunk size is at least 4. */
  lemma ArrivesExactlyInScope(writer: ConnState, reader: ConnState, m: Message)
    requires writer.chunkSize >= 4 && Lockstep(Sender(writer.chunkSize, map[]), reader)
    requires m.typeID == 1 ==> |m.data| <= 4
    ensures Arrives(writer, reader, m) <==> InScope(m)
  {
    if InScope(m) {
      InScopeArrives(writer, reader, m);
    } else if Arrives(writer, reader, m) {
      OnlyInScopeArrives(writer, reader, m);
    }
  }

  lemma InScopeArrives(writer: ConnState, reader: ConnState, m: Message)
    requires writer.chunkSize >= 4 && Lockstep(Sender(writer.chunkSize, map[]), reader)
    requires InScope(m)
    ensures Arrives(writer, reader, m)
  {
    hide ReadAll;
    WriteInScope(writer, m);
    var w := WriteMessage(writer, m).conn;
    var bytes := ChunksFrom(OnItsStream(m), 0, writer.chunkSize);
    assert w.output[|writer.output|..] == bytes;
    var net := Sender(writer.chunkSize, map[]);
    PiecesAreASchedule(net, OnItsStream(m), 0);
    DemultiplexesEverySchedule(net, Pieces(OnItsStream(m), 0, writer.chunkSize),
                               reader.(src := Source(bytes, None)));
  }

  /** What any first message read must satisfy. */
  lemma FirstMessageBounds(reader: ConnState)
    requires ConnInv(reader) && ReadAll(reader).0 != []
    ensures var m := ReadAll(reader).0[0].m;
            && 2 <= m.csid <= 65599 && m.typeID < 256 && |m.data| <= 512000
            && (m.typeID == 5 ==> |m.data| >= 4)
  {
    hide ReadLoop;
    assert ReadMessage(reader).ReadOk?;
  }

  lemma OnlyInScopeArrives(writer: ConnState, reader: ConnState, m: Message)
    requires writer.chunkSize >= 4 && Lockstep(Sender(writer.chunkSize, map[]), reader)
    requires m.typeID == 1 ==> |m.data| <= 4
    requires Arrives(writer, reader, m)
    ensures InScope(m)
  {
    hide ReadAll;
    var w := WriteMessage(writer, m).conn;
    var bytes := w.output[|writer.output|..];
    var reader' := reader.(src := Source(bytes, None));
    FirstMessageBounds(reader');
    if m.data == [] {
      assert bytes == [];
      EndOfInput(reader');
    } else if m.typeID == 1 && Number(m.data) < 4 {
      assert bytes == ChunksFrom(m, 0, Number(m.data));
      TooSmallChunks(writer.chunkSize, m, reader');
    }
  }

  /** A new chunk size of 1, 2 or 3 cuts its own message, which the peer still reads whole: a
      header byte lands where a byte of the number should be. */
  lemma TooSmallChunks(size: uint32, m: Message, reader: ConnState)
    requires WireOk(m) && m.typeID == 1 && |m.data| == 4 && 0 < Number(m.data) < 4 <= size
    requires Lockstep(Sender(size, map[]), reader)
    requires reader.src.input == ChunksFrom(m, 0, Number(m.data))
    ensures ReadAll(reader).0 != [] && ReadAll(reader).0[0].m != m
  {
    hide ReadAll, FirstHeader, ChunksFrom, WireOk, HeaderByte, ChunkBytes, Number;
    var s := Number(m.data);
    var header, bytes := FirstHeader(m), reader.src.input;
    CutAfterFew(m, s);
    var seen := header + m.data[..s];
    var fake := m.(data := bytes[|header|..|header| + 4]);
    assert fake.data[s] == bytes[|seen|] >= 192;
    assert fake.data[0] == m.data[0];
    SmallNumber(m.data);
    assert m.data[s] < 192;
    StillFits(m, fake);
    SameHeader(m, fake);
    var rest := bytes[|header| + 4..];
    assert bytes == (header + fake.data) + rest;
    OneChunkIs(fake, size);
    var conn' := OneChunk(Sender(size, map[]), Piece(fake, 0), reader, rest);
  }

  /** The first chunk holds s bytes of the number; then comes the header of the next. */
  lemma CutAfterFew(m: Message, s: nat)
    requires WireOk(m) && 0 < s < |m.data|
    ensures var bytes, seen := ChunksFrom(m, 0, s), FirstHeader(m) + m.data[..s];
      && |bytes| >= |FirstHeader(m)| + |m.data| && |bytes| > |seen| && bytes[..|seen|] == seen
      && bytes[|seen|] == HeaderByte(Piece(m, s)) >= 192
  {
    hide FirstHeader, Tail;
    ChunkBytesSplit(Piece(m, s), s);
    LongEnough(m, s, s);
  }

  lemma StillFits(m: Message, m': Message)
    requires WireOk(m) && m' == m.(data := m'.data) && |m'.data| == |m.data|
    ensures WireOk(m')
  {
  }

  lemma OneChunkIs(m: Message, size: nat)
    requires 0 < |m.data| <= size
    ensures ChunkBytes(m, 0, size) == FirstHeader(m) + m.data
  {
    hide FirstHeader;
    assert m.data[0..|m.data|] == m.data;
  }

  lemma SmallNumber(data: seq<byte>)
    requires |data| == 4 && Number(data) < 4
    ensures data[0] == data[1] == data[2] == 0 && data[3] == Number(data)
  {
    assert data[..4] == data;
    var d3, d2, d1 := data[..3], data[..2], data[..1];
    assert d3[..2] == d2 && d2[..1] == d1;
    assert FromBE(data) == 256 * FromBE(d3) + data[3];
    assert FromBE(d3) == 256 * FromBE(d2) + data[2];
    assert FromBE(d2) == 256 * FromBE(d1) + data[1];
    assert FromBE(d1) == data[0];
  }

  lemma SameHeader(m: Message, m': Message)
    requires m' == m.(data := m'.data) && |m'.data| == |m.data|
    ensures FirstHeader(m) == FirstHeader(m')
  {
  }

  lemma {:induction false} LongEnough(m: Message, off: nat, size: nat)
    requires size > 0
    ensures |ChunksFrom(m, off, size)| >= |m.data| - off
    decreases |m.data| - off
  {
    if off < |m.data| {
      LongEnough(m, off + size, size);
    }
  }
}
