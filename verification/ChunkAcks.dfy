/** Acknowledgements: what a connection answers while it reads, as its peer reads the answers. */
module ChunkAcks {
  import opened Bytes
  import opened Wire
  import opened ChunkFormat
  import opened ChunkDemux
  import opened ConnRoundTrip

  // ----- What the protocol asks for ---------------------------------------------------------------

  /** The window the peer set: the number in the last message of type 5, or the one before any. */
  function Window(first: nat, msgs: seq<Message>): nat {
    if msgs == [] then first
    else
      var m := msgs[|msgs| - 1];
      if m.typeID == 5 && |m.data| >= 4 then FromBE(m.data[..4]) else Window(first, msgs[..|msgs| - 1])
  }

  /** The payload since the last acknowledgement, the last message included, in 32 bits. */
  function Total(first: nat, before: nat, msgs: seq<Message>): nat
    requires msgs != []
    decreases |msgs|, 0
  {
    var n := |msgs| - 1;
    (Pending(first, before, msgs[..n]) + |msgs[n].data|) % 0x1_0000_0000
  }

  /** The same once an acknowledgement that was due is sent. */
  function Pending(first: nat, before: nat, msgs: seq<Message>): nat
    decreases |msgs|, 1
  {
    if msgs == [] then before
    else if Total(first, before, msgs) >= Window(first, msgs) then 0
    else Total(first, before, msgs)
  }

  /** The acknowledgements that are due: one for each message with which the payload reaches the
      window. */
  function Due(first: nat, before: nat, msgs: seq<Message>): seq<Message> {
    if msgs == [] then []
    else
      Due(first, before, msgs[..|msgs| - 1])
      + if Total(first, before, msgs) >= Window(first, msgs)
        then [Message(2, 0, 3, 0, BE(Total(first, before, msgs), 4))] else []
  }

  // ----- What the connection does -----------------------------------------------------------------

  /** The messages of n reads and the connection after them, if every read returns one. */
  function ReadMany(conn: ConnState, n: nat): (r: Option<(seq<Message>, ConnState)>)
    requires ConnInv(conn)
    ensures r.Some? ==> ConnInv(r.value.1) && |r.value.0| == n
  {
    if n == 0 then Some(([], conn))
    else
      match ReadMany(conn, n - 1)
      case None => None
      case Some((msgs, conn')) =>
        match ReadMessage(conn')
        case ReadOk(msg, conn'') => Some((msgs + [AsMessage(msg)], conn''))
        case ReadFailed(_, _) => None
        case ReadPanics => None
  }

  /** Everything but the input and the streams. */
  predicate SameCounters(a: ConnState, b: ConnState) {
    && a.chunkSize == b.chunkSize && a.remoteWindowAckSize == b.remoteWindowAckSize
    && a.received == b.received && a.ackReceived == b.ackReceived && a.output == b.output
  }

  lemma StepKeepsCounters(conn: ConnState)
    requires ConnInv(conn)
    ensures ReadStep(conn).Stepped? ==> SameCounters(conn, ReadStep(conn).conn)
  {
    hide ReadChunk, Selected, TakeBE;
  }

  lemma {:induction false} LoopKeepsCounters(conn: ConnState)
    requires ConnInv(conn)
    ensures ReadLoop(conn).ReadOk? ==> SameCounters(conn, ReadLoop(conn).conn)
    decreases |conn.src.input|
  {
    hide ReadStep;
    StepKeepsCounters(conn);
    var r := ReadStep(conn);
    if r.Stepped? && !r.cs.got {
      LoopKeepsCounters(r.conn);
    }
  }

  /** One read: the window, the payload counted and the acknowledgement written. */
  lemma ReadAnswers(conn: ConnState)
    requires ConnInv(conn) && conn.chunkSize > 0 && ReadMessage(conn).ReadOk?
    ensures var m, conn' := AsMessage(ReadMessage(conn).msg), ReadMessage(conn).conn;
      var window := if m.typeID == 5 && |m.data| >= 4 then FromBE(m.data[..4]) else conn.remoteWindowAckSize;
      var total := (conn.ackReceived + |m.data|) % 0x1_0000_0000;
      && conn'.chunkSize == conn.chunkSize && conn'.remoteWindowAckSize == window
      && conn'.ackReceived == (if total >= window then 0 else total)
      && (var counted := (conn.received + |m.data|) % 0x1_0000_0000;
          conn'.received == if counted >= 0xf000_0000 then 0 else counted)
      && conn'.output == conn.output
         + (if total >= window then ChunksFrom(Message(2, 0, 3, 0, BE(total, 4)), 0, conn.chunkSize) else [])
  {
    hide ReadLoop, ChunksFrom, BE, FromBE;
    LoopKeepsCounters(conn);
    assert conn.output + [] == conn.output;
  }

  /** A message that is read panics exactly if it is a size or a window without a number, or if an
      acknowledgement is due that cannot be cut into chunks. */
  lemma PanicsExactly(conn: ConnState)
    requires ConnInv(conn) && ReadLoop(conn).ReadOk?
    ensures var m := AsMessage(ReadLoop(conn).msg);
      var window := if m.typeID == 5 && |m.data| >= 4 then FromBE(m.data[..4]) else conn.remoteWindowAckSize;
      var total := (conn.ackReceived + |m.data|) % 0x1_0000_0000;
      ReadMessage(conn).ReadPanics? <==>
        (m.typeID in {1, 5} && |m.data| < 4) || (total >= window && conn.chunkSize == 0)
  {
    hide ReadLoop, ChunksFrom, BE, FromBE;
    LoopKeepsCounters(conn);
  }

  function AckBytes(acks: seq<Message>, size: nat): seq<byte>
    requires size > 0
  {
    if acks == [] then [] else AckBytes(acks[..|acks| - 1], size) + ChunksFrom(acks[|acks| - 1], 0, size)
  }

  /** The window, what is pending and the output after reads that returned msgs. */
  predicate Answered(conn: ConnState, msgs: seq<Message>, conn': ConnState)
    requires conn.chunkSize > 0
  {
    var first, before := conn.remoteWindowAckSize, conn.ackReceived;
    && conn'.chunkSize == conn.chunkSize
    && conn'.remoteWindowAckSize == Window(first, msgs) && conn'.ackReceived == Pending(first, before, msgs)
    && conn'.output == conn.output + AckBytes(Due(first, before, msgs), conn.chunkSize)
  }

  /** Over any reads the output grows by the acknowledgements that are due, and by nothing else. */
  lemma {:induction false} WritesWhatIsDue(conn: ConnState, n: nat)
    requires ConnInv(conn) && conn.chunkSize > 0 && ReadMany(conn, n).Some?
    ensures Answered(conn, ReadMany(conn, n).value.0, ReadMany(conn, n).value.1)
  {
    hide ReadMessage, AsMessage, Answered;
    if n == 0 {
      NothingAnswered(conn);
    } else {
      WritesWhatIsDue(conn, n - 1);
      var (msgs, conn') := ReadMany(conn, n - 1).value;
      AnsweredNext(conn, msgs, conn');
    }
  }

  lemma NothingAnswered(conn: ConnState)
    requires conn.chunkSize > 0
    ensures Answered(conn, [], conn)
  {
    assert conn.output + [] == conn.output;
  }

  lemma AnsweredNext(conn: ConnState, msgs: seq<Message>, conn': ConnState)
    requires conn.chunkSize > 0 && Answered(conn, msgs, conn')
    requires ConnInv(conn') && ReadMessage(conn').ReadOk?
    ensures Answered(conn, msgs + [AsMessage(ReadMessage(conn').msg)], ReadMessage(conn').conn)
  {
    hide ReadMessage, AsMessage, ChunksFrom, BE, FromBE, AckBytes, Window, Pending, Total, Due;
    var m, first, before := AsMessage(ReadMessage(conn').msg), conn.remoteWindowAckSize, conn.ackReceived;
    ReadAnswers(conn');
    DueNext(first, before, msgs, m);
    var ack := Message(2, 0, 3, 0, BE((Pending(first, before, msgs) + |m.data|) % 0x1_0000_0000, 4));
    OneMoreAck(Due(first, before, msgs), ack, conn.chunkSize);
    Regroup(conn.output, AckBytes(Due(first, before, msgs), conn.chunkSize), ChunksFrom(ack, 0, conn.chunkSize));
    assert Due(first, before, msgs) + [] == Due(first, before, msgs);
    assert conn'.output + [] == conn'.output;
  }

  lemma DueNext(first: nat, before: nat, msgs: seq<Message>, m: Message)
    ensures var all, total := msgs + [m], (Pending(first, before, msgs) + |m.data|) % 0x1_0000_0000;
      var window := if m.typeID == 5 && |m.data| >= 4 then FromBE(m.data[..4]) else Window(first, msgs);
      && Window(first, all) == window
      && Pending(first, before, all) == (if total >= window then 0 else total)
      && Due(first, before, all) == Due(first, before, msgs)
         + (if total >= window then [Message(2, 0, 3, 0, BE(total, 4))] else [])
  {
    hide BE, FromBE;
    assert (msgs + [m])[..|msgs|] == msgs;
  }

  lemma OneMoreAck(acks: seq<Message>, m: Message, size: nat)
    requires size > 0
    ensures AckBytes(acks + [m], size) == AckBytes(acks, size) + ChunksFrom(m, 0, size)
  {
    hide ChunksFrom;
    assert (acks + [m])[..|acks|] == acks;
  }

  // ----- What the peer reads ------------------------------------------------------------------------

  function Deliveries(msgs: seq<Message>, size: uint32): (ds: seq<Delivery>)
    ensures |ds| == |msgs|
  {
    seq(|msgs|, i requires 0 <= i < |msgs| => Delivery(msgs[i], size))
  }

  predicate IsAck(m: Message) {
    m.csid == 2 && m.timestamp == 0 && m.typeID == 3 && m.streamID == 0 && |m.data| == 4
  }

  lemma {:induction false} DueAreAcks(first: nat, before: nat, msgs: seq<Message>)
    ensures forall m | m in Due(first, before, msgs) :: IsAck(m)
  {
    hide BE, Total, Window;
    if msgs != [] {
      DueAreAcks(first, before, msgs[..|msgs| - 1]);
    }
  }

  lemma {:induction false} FirstAck(acks: seq<Message>, size: nat)
    requires acks != [] && size > 0
    ensures AckBytes(acks, size) == ChunksFrom(acks[0], 0, size) + AckBytes(acks[1..], size)
  {
    hide ChunksFrom;
    var n := |acks| - 1;
    if n == 0 {
      assert AckBytes(acks[..0], size) == [] && AckBytes(acks[1..], size) == [];
    } else {
      FirstAck(acks[..n], size);
      assert acks[..n][1..] == acks[1..][..n - 1];
      Regroup(ChunksFrom(acks[0], 0, size), AckBytes(acks[..n][1..], size), ChunksFrom(acks[n], 0, size));
    }
  }

  lemma {:induction false} PeerReads(acks: seq<Message>, size: uint32, peer: ConnState)
    requires size > 0 && Lockstep(Sender(size, map[]), peer) && peer.src.input == AckBytes(acks, size)
    requires forall i | 0 <= i < |acks| :: IsAck(acks[i])
    ensures ReadAll(peer).0 == Deliveries(acks, size) && ReadAll(peer).1.Failed?
    decreases |acks|
  {
    hide ReadAll, ChunksFrom, ReadMessage, Lockstep;
    if acks == [] {
      NothingSent(size, peer);
    } else {
      var m, net := acks[0], Sender(size, map[]);
      FirstAck(acks, size);
      AckFits(m, net);
      PiecesAreASchedule(net, m, 0);
      var peer' := ScheduleThenMore(net, Pieces(m, 0, size), peer, AckBytes(acks[1..], size));
      PeerReads(acks[1..], size, peer');
      assert Deliveries(acks, size) == [Delivery(m, size)] + Deliveries(acks[1..], size);
    }
  }

  lemma NothingSent(size: uint32, peer: ConnState)
    requires Lockstep(Sender(size, map[]), peer) && peer.src.input == []
    ensures ReadAll(peer).0 == [] && ReadAll(peer).1.Failed?
  {
    hide ReadAll;
    EndOfInput(peer);
  }

  lemma AckFits(m: Message, net: Sender)
    requires IsAck(m) && net == Sender(net.size, map[]) && net.size > 0
    ensures WireOk(m) && CanSend(net, Piece(m, 0)) && SizeAfter(m, net.size) == net.size
    ensures net.open - {Key(m.csid)} == map[]
  {
  }

  /** Whatever n reads return, the peer reads from what they wrote one acknowledgement for each message
      with which the payload reaches the window, and nothing else. */
  lemma PeerReadsWhatIsDue(conn: ConnState, n: nat, peer: ConnState)
    requires ConnInv(conn) && conn.chunkSize > 0 && ReadMany(conn, n).Some?
    requires Lockstep(Sender(conn.chunkSize, map[]), peer)
    requires ReadMany(conn, n).value.1.output == conn.output + peer.src.input
    ensures var due := Due(conn.remoteWindowAckSize, conn.ackReceived, ReadMany(conn, n).value.0);
      ReadAll(peer).0 == Deliveries(due, conn.chunkSize) && ReadAll(peer).1.Failed?
  {
    hide ReadAll, ReadMany, Due, AckBytes, Lockstep, Window, Pending;
    WritesWhatIsDue(conn, n);
    var due := Due(conn.remoteWindowAckSize, conn.ackReceived, ReadMany(conn, n).value.0);
    Unjoin(conn.output, peer.src.input);
    Unjoin(conn.output, AckBytes(due, conn.chunkSize));
    DueAreAcks(conn.remoteWindowAckSize, conn.ackReceived, ReadMany(conn, n).value.0);
    PeerReads(due, conn.chunkSize, peer);
  }

  /** On a new connection the window is 2500000 bytes and nothing is pending. */
  lemma FreshAcks(input: seq<byte>, n: nat)
    requires ReadMany(NewConn(input), n).Some?
    ensures var (msgs, conn') := ReadMany(NewConn(input), n).value;
      ReadAll(NewConn(conn'.output)).0 == Deliveries(Due(2500000, 0, msgs), 128)
  {
    hide ReadAll, ReadMany, Due;
    var conn' := ReadMany(NewConn(input), n).value.1;
    assert [] + conn'.output == conn'.output;
    PeerReadsWhatIsDue(NewConn(input), n, NewConn(conn'.output));
  }
}
