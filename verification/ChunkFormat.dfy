/** The chunk format of RTMP (sections 5.3.1 and 5.4 of Adobe's RTMP 1.0 specification) as this
    server reads and writes it: what one chunk, one message and one connection step do, as
    functions. The classes of the next files are proved against these functions. */
module ChunkFormat {
  import opened Bytes
  import opened Wire

  const MAX_POOL_SIZE: nat := 500 * 1024
  const EXTENDED: uint32 := 0xffffff

  const TAG_AUDIO: uint32 := 8
  const TAG_VIDEO: uint32 := 9
  const TAG_SCRIPT_AMF0: uint32 := 18
  const TAG_SCRIPT_AMF3: uint32 := 15

  const ID_SET_CHUNK_SIZE: uint32 := 1
  const ID_ACK: uint32 := 3
  const ID_WINDOW_ACK_SIZE: uint32 := 5

  /** The state of one chunk stream. `data` is a slice of the pool in a connection and the bytes
      received so far in the functions below. */
  datatype Chunk<+D> = Chunk(
    format: uint32, csid: uint32, timestamp: uint32, length: uint32, typeID: uint32,
    streamID: uint32, timeDelta: uint32, exted: bool, index: uint32, remain: uint32,
    got: bool, tmpFormat: uint32, data: D)

  function EmptyChunk<D>(nil: D): Chunk<D> {
    Chunk(0, 0, 0, 0, 0, 0, 0, false, 0, 0, false, 0, nil)
  }

  datatype Error = Io(io: IoError) | InvalidRemain | InvalidFormat | LengthTooLarge

  // ----- Reading one chunk ---------------------------------------------------------------

  datatype ChunkResult =
    | ChunkOk(cs: Chunk<seq<byte>>, src: Source)
    | ChunkFailed(error: Error, src: Source)
    | ChunkPanics

  /** Starting a message: the pool cannot serve more than its size and the runtime panics. */
  function NewMessage(cs: Chunk<seq<byte>>, src: Source): (r: ChunkResult)
  {
    if cs.length > MAX_POOL_SIZE then ChunkPanics
    else ChunkOk(cs.(got := false, index := 0, remain := cs.length, data := []), src)
  }

  function Add32(a: uint32, b: uint32): uint32 {
    (a + b) % 0x1_0000_0000
  }

  /** The second and third byte of the basic header, when the first announces them. */
  function ReadCsid(raw: uint32, src: Source): (r: (uint32, Source))
    ensures raw < 64 ==> 2 <= r.0 <= 65599
    ensures |r.1.input| <= |src.input|
  {
    if raw == 0 then var (id, s) := TakeLE(src, 1); Pow256Values(); (id + 64, s)
    else if raw == 1 then var (id, s) := TakeLE(src, 2); Pow256Values(); (id + 64, s)
    else (raw, src)
  }

  /** A timestamp field that may be replaced by the four bytes of an extended timestamp. */
  function ReadExtended(ts: uint32, src: Source): (r: (uint32, bool, Source))
    ensures |r.2.input| <= |src.input|
  {
    if ts == EXTENDED then var (e, s) := TakeBE(src, 4); (e, true, s) else (ts, false, src)
  }

  /** What every stored chunk state satisfies. */
  predicate ChunkInv(cs: Chunk<seq<byte>>) {
    var Chunk(format, _, _, length, typeID, _, _, _, index, remain, got, _, data) := cs;
    && index + remain == length <= MAX_POOL_SIZE
    && |data| == index
    && format <= 2
    && typeID < 256
    && (remain > 0 ==> !got)
  }

  // What each header format sets before the message starts.

  /** A full header: timestamp, length, type and stream id. */
  function Fields0(cs: Chunk<seq<byte>>, src: Source): (Chunk<seq<byte>>, Source) {
    var (ts, s1) := TakeBE(src, 3);
    var (length, s2) := TakeBE(s1, 3);
    var (typeID, s3) := TakeBE(s2, 1);
    var (streamID, s4) := TakeLE(s3, 4);
    var (timestamp, exted, s5) := ReadExtended(ts, s4);
    (cs.(format := 0, timestamp := timestamp, length := length, typeID := typeID,
         streamID := streamID, exted := exted), s5)
  }

  /** The stream id of the message before, a time difference, and a new length and type. */
  function Fields1(cs: Chunk<seq<byte>>, src: Source): (Chunk<seq<byte>>, Source) {
    var (ts, s1) := TakeBE(src, 3);
    var (length, s2) := TakeBE(s1, 3);
    var (typeID, s3) := TakeBE(s2, 1);
    var (delta, exted, s4) := ReadExtended(ts, s3);
    (cs.(format := 1, length := length, typeID := typeID, exted := exted, timeDelta := delta,
         timestamp := Add32(cs.timestamp, delta)), s4)
  }

  /** Only a time difference. */
  function Fields2(cs: Chunk<seq<byte>>, src: Source): (Chunk<seq<byte>>, Source) {
    var (ts, s1) := TakeBE(src, 3);
    var (delta, exted, s2) := ReadExtended(ts, s1);
    (cs.(format := 2, exted := exted, timeDelta := delta,
         timestamp := Add32(cs.timestamp, delta)), s2)
  }

  /** Nothing: a message like the one before, at the time the last header implies. */
  function Fields3(cs: Chunk<seq<byte>>, src: Source): (Chunk<seq<byte>>, Source) {
    if cs.format == 0 && cs.exted then
      var (timestamp, s1) := TakeBE(src, 4);
      (cs.(timestamp := timestamp), s1)
    else if cs.format == 1 || cs.format == 2 then
      var (delta, s1) := if cs.exted then TakeBE(src, 4) else (cs.timeDelta, src);
      (cs.(timestamp := Add32(cs.timestamp, delta)), s1)
    else (cs, src)
  }

  function ReadHeader0(cs: Chunk<seq<byte>>, src: Source): (r: ChunkResult)
    ensures !r.ChunkFailed?
    ensures r.ChunkOk? ==> |r.src.input| <= |src.input| && (src.err.Some? ==> r.src.err.Some?)
    ensures r.ChunkOk? ==> ChunkInv(r.cs) && r.cs.csid == cs.csid
  {
    var (c, s) := Fields0(cs, src);
    NewMessage(c, s)
  }

  function ReadHeader1(cs: Chunk<seq<byte>>, src: Source): (r: ChunkResult)
    ensures !r.ChunkFailed?
    ensures r.ChunkOk? ==> |r.src.input| <= |src.input| && (src.err.Some? ==> r.src.err.Some?)
    ensures r.ChunkOk? ==> ChunkInv(r.cs) && r.cs.csid == cs.csid
  {
    var (c, s) := Fields1(cs, src);
    NewMessage(c, s)
  }

  function ReadHeader2(cs: Chunk<seq<byte>>, src: Source): (r: ChunkResult)
    requires ChunkInv(cs)
    ensures !r.ChunkFailed?
    ensures r.ChunkOk? ==> |r.src.input| <= |src.input| && (src.err.Some? ==> r.src.err.Some?)
    ensures r.ChunkOk? ==> ChunkInv(r.cs) && r.cs.csid == cs.csid
  {
    var (c, s) := Fields2(cs, src);
    NewMessage(c, s)
  }

  /** No header: either a new message, or more of the message under way, where the extended
      timestamp may be repeated. */
  function ReadHeader3(cs: Chunk<seq<byte>>, src: Source): (r: ChunkResult)
    requires ChunkInv(cs)
    ensures r.ChunkFailed? ==> |r.src.input| <= |src.input|
    ensures r.ChunkOk? ==> |r.src.input| <= |src.input| && (src.err.Some? ==> r.src.err.Some?)
    ensures r.ChunkOk? ==> ChunkInv(r.cs) && r.cs.csid == cs.csid
  {
    if cs.remain == 0 then
      var (c, s) := Fields3(cs, src);
      NewMessage(c, s)
    else if cs.exted then
      if |src.input| < 4 then ChunkFailed(Io(EOF), src)
      else if FromBE(src.input[..4]) == cs.timestamp then
        ChunkOk(cs, src.(input := src.input[4..]))
      else ChunkOk(cs, src)
    else ChunkOk(cs, src)
  }

  function ReadMessageHeader(cs: Chunk<seq<byte>>, src: Source): (r: ChunkResult)
    requires ChunkInv(cs)
    ensures r.ChunkOk? ==> r.cs.csid == cs.csid
    ensures r.ChunkFailed? ==> |r.src.input| <= |src.input|
    ensures r.ChunkOk? ==> |r.src.input| <= |src.input| && (src.err.Some? ==> r.src.err.Some?)
    ensures r.ChunkOk? ==> ChunkInv(r.cs)
  {
    if cs.tmpFormat == 0 then ReadHeader0(cs, src)
    else if cs.tmpFormat == 1 then ReadHeader1(cs, src)
    else if cs.tmpFormat == 2 then ReadHeader2(cs, src)
    else if cs.tmpFormat == 3 then ReadHeader3(cs, src)
    else ChunkFailed(InvalidFormat, src)
  }

  /** A chunk carries what is left of its message, up to the chunk size. */
  function ReadPayload(cs: Chunk<seq<byte>>, src: Source, chunkSize: uint32): (r: ChunkResult)
    requires ChunkInv(cs)
    ensures !r.ChunkPanics? && |r.src.input| <= |src.input|
    ensures r.ChunkOk? ==> ChunkInv(r.cs) && src.err.None? && r.src.err.None?
    ensures r.ChunkOk? ==> r.cs.csid == cs.csid
  {
    var size := Min(cs.remain, chunkSize);
    var (run, s) := TakeRun(src, size);
    if run.None? then ChunkFailed(Io(s.err.value), s)
    else ChunkOk(cs.(index := cs.index + size, remain := cs.remain - size,
                     got := cs.remain == size || cs.got, data := cs.data + run.value), s)
  }

  function ReadChunk(cs: Chunk<seq<byte>>, src: Source, chunkSize: uint32): (r: ChunkResult)
    requires ChunkInv(cs)
    ensures r.ChunkOk? ==> ChunkInv(r.cs) && r.src.err.None?
    ensures r.ChunkOk? ==> |r.src.input| <= |src.input|
    ensures r.ChunkOk? ==> src.err.None?
    ensures r.ChunkOk? && cs.csid < 64 ==> 2 <= r.cs.csid <= 65599
    ensures r.ChunkFailed? ==> |r.src.input| <= |src.input|
  {
    if cs.remain != 0 && cs.tmpFormat != 3 then ChunkFailed(InvalidRemain, src)
    else
      var (id, s1) := ReadCsid(cs.csid, src);
      var h := ReadMessageHeader(cs.(csid := id), s1);
      if h.ChunkOk? then ReadPayload(h.cs, h.src, chunkSize) else h
  }

  // ----- One connection --------------------------------------------------------------------

  datatype ConnState = ConnState(
    chunkSize: uint32, remoteChunkSize: uint32, windowAckSize: uint32,
    remoteWindowAckSize: uint32, received: uint32, ackReceived: uint32,
    chunks: map<uint32, Chunk<seq<byte>>>, src: Source, output: seq<byte>)

  ghost predicate ConnInv(conn: ConnState) {
    forall k :: k in conn.chunks ==> ChunkInv(conn.chunks[k])
  }

  datatype StepResult =
    | Stepped(cs: Chunk<seq<byte>>, conn: ConnState)
    | StepFailed(error: Error, conn: ConnState)
    | StepPanics

  /** The chunk state a basic header with this raw id continues. */
  function Selected(conn: ConnState, raw: uint32, format: uint32): (cs: Chunk<seq<byte>>)
    requires ConnInv(conn)
    ensures ChunkInv(cs) && cs.csid == raw && cs.tmpFormat == format
  {
    var cs := if raw in conn.chunks then conn.chunks[raw] else EmptyChunk([]);
    cs.(tmpFormat := format, csid := raw)
  }

  /** A chunk state goes back into the map only when its chunk was read without an error. */
  function Stored(conn: ConnState, raw: uint32, c: ChunkResult): (r: StepResult) {
    match c
    case ChunkOk(cs, s) => Stepped(cs, conn.(chunks := conn.chunks[raw := cs], src := s))
    case ChunkFailed(e, s) =>
      var chunks := if raw in conn.chunks then conn.chunks else conn.chunks[raw := EmptyChunk([])];
      StepFailed(e, conn.(chunks := chunks, src := s))
    case ChunkPanics => StepPanics
  }

  /** The chunk after a first byte h. */
  function ReadStepAfter(conn: ConnState, h: uint32, src: Source): (r: StepResult)
    requires ConnInv(conn) && h < 256
    ensures r.Stepped? ==> ConnInv(r.conn) && ChunkInv(r.cs) && 2 <= r.cs.csid <= 65599
    ensures r.Stepped? ==> src.err.None? && |r.conn.src.input| <= |src.input|
    ensures r.StepFailed? ==> ConnInv(r.conn)
  {
    Stored(conn, h % 64, ReadChunk(Selected(conn, h % 64, h / 64), src, conn.remoteChunkSize))
  }

  /** One round of the read loop: one chunk, whatever stream it belongs to. */
  function ReadStep(conn: ConnState): (r: StepResult)
    requires ConnInv(conn)
    ensures r.Stepped? ==> ConnInv(r.conn) && ChunkInv(r.cs) && 2 <= r.cs.csid <= 65599
    ensures r.Stepped? ==> |r.conn.src.input| < |conn.src.input|
    ensures r.StepFailed? ==> ConnInv(r.conn)
  {
    var (h, s) := TakeBE(conn.src, 1);
    Pow256Values();
    ReadStepAfter(conn, h, s)
  }

  datatype ReadResult =
    | ReadOk(msg: Chunk<seq<byte>>, conn: ConnState)
    | ReadFailed(error: Error, conn: ConnState)
    | ReadPanics

  /** Rounds of the loop until a message is complete. */
  function ReadLoop(conn: ConnState): (r: ReadResult)
    requires ConnInv(conn)
    ensures r.ReadOk? ==> ConnInv(r.conn) && ChunkInv(r.msg) && r.msg.got && r.msg.remain == 0
    ensures r.ReadOk? ==> 2 <= r.msg.csid <= 65599
    ensures r.ReadOk? ==> |r.conn.src.input| < |conn.src.input|
    ensures r.ReadFailed? ==> ConnInv(r.conn)
    decreases |conn.src.input|
  {
    match ReadStep(conn)
    case Stepped(cs, conn') => if cs.got then ReadOk(cs, conn') else ReadLoop(conn')
    case StepFailed(e, conn') => ReadFailed(e, conn')
    case StepPanics => ReadPanics
  }

  /** What a Set Chunk Size or Window Acknowledgement Size message changes. None is a panic:
      the payload is too short to hold the number. */
  function HandleControl(conn: ConnState, msg: Chunk<seq<byte>>): Option<ConnState> {
    if msg.typeID == ID_SET_CHUNK_SIZE then
      if |msg.data| < 4 then None
      else Some(conn.(remoteChunkSize := Word(msg.data)))
    else if msg.typeID == ID_WINDOW_ACK_SIZE then
      if |msg.data| < 4 then None
      else Some(conn.(remoteWindowAckSize := Word(msg.data)))
    else Some(conn)
  }

  function Word(data: seq<byte>): uint32
    requires |data| >= 4
  {
    Pow256Small(4);
    FromBE(data[..4])
  }

  /** Counts what was received and acknowledges when the peer's window is full. None is a panic:
      the acknowledgement cannot be cut into chunks of size zero. */
  function Acknowledge(conn: ConnState, size: uint32): Option<ConnState> {
    var received := Add32(conn.received, size);
    var ackReceived := Add32(conn.ackReceived, size);
    var conn' := conn.(received := if received >= 0xf0000000 then 0 else received,
                       ackReceived := ackReceived);
    if ackReceived < conn.remoteWindowAckSize then Some(conn')
    else if conn.chunkSize == 0 then None
    else Some(conn'.(ackReceived := 0,
                     output := conn.output + ChunksFrom(AckMessage(ackReceived), 0, conn.chunkSize)))
  }

  function ReadMessage(conn: ConnState): (r: ReadResult)
    requires ConnInv(conn)
    ensures r.ReadOk? ==> ConnInv(r.conn) && ChunkInv(r.msg) && r.msg.got && r.msg.remain == 0
    ensures r.ReadOk? ==> 2 <= r.msg.csid <= 65599
    ensures r.ReadOk? ==> |r.conn.src.input| < |conn.src.input|
    ensures r.ReadFailed? ==> ConnInv(r.conn)
  {
    match ReadLoop(conn)
    case ReadFailed(e, conn') => ReadFailed(e, conn')
    case ReadPanics => ReadPanics
    case ReadOk(msg, conn1) =>
      match HandleControl(conn1, msg)
      case None => ReadPanics
      case Some(conn2) =>
        match Acknowledge(conn2, msg.length)
        case None => ReadPanics
        case Some(conn3) => ReadOk(msg, conn3)
  }

  // ----- Writing ---------------------------------------------------------------------------

  /** A message as handed to the writer. */
  datatype Message = Message(csid: uint32, timestamp: uint32, typeID: uint32, streamID: uint32,
                             data: seq<byte>)

  function AckMessage(value: uint32): (m: Message)
    ensures |m.data| == 4
  {
    Message(2, 0, ID_ACK, 0, BE(value, 4))
  }

  /** Audio always travels on chunk stream 4, video and metadata on 6. */
  function FinalCsid(csid: uint32, typeID: uint32): uint32 {
    if typeID == TAG_AUDIO then 4
    else if typeID == TAG_VIDEO || typeID == TAG_SCRIPT_AMF0 || typeID == TAG_SCRIPT_AMF3 then 6
    else csid
  }

  function Routed(m: Message): Message {
    m.(csid := FinalCsid(m.csid, m.typeID))
  }

  /** Chunk stream ids from 65600 on fit no form; nothing is written for them. */
  function BasicHeader(format: uint32, csid: uint32): seq<byte>
    requires format <= 3
  {
    if csid < 64 then BE(format * 64 + csid, 1)
    else if csid - 64 < 256 then BE(format * 64, 1) + LE(csid - 64, 1)
    else if csid - 64 < 65536 then BE(format * 64 + 1, 1) + LE(csid - 64, 2)
    else []
  }

  function Clamp(timestamp: uint32): uint32 {
    if timestamp > EXTENDED then EXTENDED else timestamp
  }

  function ExtendedTimestamp(timestamp: uint32): seq<byte> {
    if timestamp >= EXTENDED then BE(timestamp, 4) else []
  }

  /** The header of the first chunk of a message (format 0) or of a later one (format 3). */
  function FirstHeader(m: Message): seq<byte> {
    BasicHeader(0, m.csid) + BE(Clamp(m.timestamp), 3) + BE(|m.data|, 3) + BE(m.typeID, 1)
    + LE(m.streamID, 4) + ExtendedTimestamp(m.timestamp)
  }

  function NextHeader(m: Message): seq<byte> {
    BasicHeader(3, m.csid) + ExtendedTimestamp(m.timestamp)
  }

  /** The header for any format. The writer only makes formats 0 and 3. */
  function Header(m: Message, format: uint32): seq<byte>
    requires format <= 3
  {
    if format == 0 then FirstHeader(m)
    else if format == 1 then
      BasicHeader(1, m.csid) + BE(Clamp(m.timestamp), 3) + BE(|m.data|, 3) + BE(m.typeID, 1)
      + ExtendedTimestamp(m.timestamp)
    else if format == 2 then
      BasicHeader(2, m.csid) + BE(Clamp(m.timestamp), 3) + ExtendedTimestamp(m.timestamp)
    else NextHeader(m)
  }

  function ChunkBytes(m: Message, off: nat, size: nat): seq<byte>
    requires off <= |m.data|
  {
    (if off == 0 then FirstHeader(m) else NextHeader(m)) + m.data[off..Min(off + size, |m.data|)]
  }

  /** The chunks of m from data offset `off` on. */
  function ChunksFrom(m: Message, off: nat, size: nat): seq<byte>
    requires size > 0
    decreases |m.data| - off
  {
    if off >= |m.data| then [] else ChunkBytes(m, off, size) + ChunksFrom(m, off + size, size)
  }

  datatype WriteResult = WriteOk(conn: ConnState) | WriteFailed(error: Error, conn: ConnState) | WritePanics

  /** Writing one message. A Set Chunk Size message takes effect before it is itself written. */
  function WriteMessage(conn: ConnState, msg: Message): WriteResult {
    if msg.typeID == ID_SET_CHUNK_SIZE && |msg.data| < 4 then WritePanics
    else
      var size := if msg.typeID == ID_SET_CHUNK_SIZE then Word(msg.data) else conn.chunkSize;
      var m := Routed(msg);
      if size == 0 then WritePanics
      else if |m.data| > 0xffffff then
        WriteFailed(LengthTooLarge, conn.(chunkSize := size, output := conn.output
          + BasicHeader(0, m.csid) + BE(Clamp(m.timestamp), 3)))
      else WriteOk(conn.(chunkSize := size, output := conn.output + ChunksFrom(m, 0, size)))
  }
}
