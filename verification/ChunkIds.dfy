/** Senders that keep their chunk streams apart by id, as the protocol says, and a reader that keeps
    them apart by the first byte of their headers: when it gets everything, and when not. */
module ChunkIds {
  import opened Bytes
  import opened Wire
  import opened ChunkFormat
  import opened ChunkDemux
  import opened ChunkTheorems
  import opened ConnRoundTrip

  /** The chunk size in force and the messages under way, by chunk stream id. */
  datatype IdSender = IdSender(size: uint32, open: map<uint32, Piece>)

  predicate IdCanSend(n: IdSender, p: Piece) {
    && n.size > 0 && WireOk(p.m) && p.off < |p.m.data|
    && if p.off == 0 then p.m.csid !in n.open else p.m.csid in n.open && n.open[p.m.csid] == p
  }

  function IdAfter(n: IdSender, p: Piece): IdSender
    requires IdCanSend(n, p)
  {
    if IsLast(p, n.size) then IdSender(SizeAfter(p.m, n.size), n.open - {p.m.csid})
    else n.(open := n.open[p.m.csid := Piece(p.m, p.off + n.size)])
  }

  /** On each id a message is finished before the next one starts. */
  predicate IdSchedule(n: IdSender, ps: seq<Piece>)
    decreases |ps|
  {
    ps == [] || (IdCanSend(n, ps[0]) && IdSchedule(IdAfter(n, ps[0]), ps[1..]))
  }

  function IdFinal(n: IdSender, ps: seq<Piece>): IdSender
    requires IdSchedule(n, ps)
    decreases |ps|
  {
    if ps == [] then n else IdFinal(IdAfter(n, ps[0]), ps[1..])
  }

  function IdBytes(n: IdSender, ps: seq<Piece>): seq<byte>
    requires IdSchedule(n, ps)
    decreases |ps|
  {
    if ps == [] then []
    else ChunkBytes(ps[0].m, ps[0].off, n.size) + IdBytes(IdAfter(n, ps[0]), ps[1..])
  }

  function IdDelivered(n: IdSender, p: Piece): seq<Delivery>
    requires IdCanSend(n, p)
  {
    if IsLast(p, n.size) then [Delivery(p.m, SizeAfter(p.m, n.size))] else []
  }

  function IdCompleted(n: IdSender, ps: seq<Piece>): seq<Delivery>
    requires IdSchedule(n, ps)
    decreases |ps|
  {
    if ps == [] then [] else IdDelivered(n, ps[0]) + IdCompleted(IdAfter(n, ps[0]), ps[1..])
  }

  /** The key of the piece's stream is in use by another id. */
  predicate Clashes(n: IdSender, p: Piece) {
    p.off == 0 && exists id :: id in n.open && Key(id) == Key(p.m.csid)
  }

  /** No message starts while one on an id of the same key is under way. */
  predicate NoClash(n: IdSender, ps: seq<Piece>)
    requires IdSchedule(n, ps)
    decreases |ps|
  {
    ps == [] || (!Clashes(n, ps[0]) && NoClash(IdAfter(n, ps[0]), ps[1..]))
  }

  /** As long as there is no clash, the messages under way by key are those by id. */
  ghost predicate SameOpen(n: IdSender, net: Sender) {
    && n.size == net.size
    && (forall id :: id in n.open ==>
          n.open[id].m.csid == id && Key(id) in net.open && net.open[Key(id)] == n.open[id])
    && (forall k :: k in net.open ==>
          net.open[k].m.csid in n.open && Key(net.open[k].m.csid) == k && n.open[net.open[k].m.csid] == net.open[k])
  }

  lemma ClashIsBusyKey(n: IdSender, net: Sender, p: Piece)
    requires SameOpen(n, net) && IdCanSend(n, p)
    ensures n.size == net.size && (Clashes(n, p) <==> p.off == 0 && Key(p.m.csid) in net.open)
    ensures !Clashes(n, p) ==> CanSend(net, p)
  {
    if p.off == 0 && Key(p.m.csid) in net.open {
      assert net.open[Key(p.m.csid)].m.csid in n.open;
    }
  }

  lemma StillSameOpen(n: IdSender, net: Sender, p: Piece)
    requires SameOpen(n, net) && IdCanSend(n, p) && !Clashes(n, p) && CanSend(net, p)
    ensures SameOpen(IdAfter(n, p), After(net, p)) && IdDelivered(n, p) == Delivered(net, p)
  {
    hide WireOk, SizeAfter;
    var n', net', k := IdAfter(n, p), After(net, p), Key(p.m.csid);
    OtherKeys(n, net, p);
    forall id | id in n'.open
      ensures n'.open[id].m.csid == id && Key(id) in net'.open && net'.open[Key(id)] == n'.open[id]
    {
      assert id != p.m.csid ==> id in n.open && n'.open[id] == n.open[id];
    }
    forall l | l in net'.open
      ensures var q := net'.open[l]; q.m.csid in n'.open && Key(q.m.csid) == l && n'.open[q.m.csid] == q
    {
      assert l != k ==> l in net.open && net'.open[l] == net.open[l];
    }
  }

  lemma OtherKeys(n: IdSender, net: Sender, p: Piece)
    requires SameOpen(n, net) && IdCanSend(n, p) && !Clashes(n, p)
    ensures forall id :: id in n.open && id != p.m.csid ==> Key(id) != Key(p.m.csid)
  {
    hide WireOk;
  }

  /** If nothing is completed, what was started is still under way. */
  lemma {:induction false} StartedStays(n: IdSender, ps: seq<Piece>)
    requires IdSchedule(n, ps) && IdCompleted(n, ps) == []
    ensures n.open.Keys <= IdFinal(n, ps).open.Keys
    ensures ps != [] ==> IdFinal(n, ps).open != map[]
    decreases |ps|
  {
    if ps != [] {
      StartedStays(IdAfter(n, ps[0]), ps[1..]);
      assert ps[0].m.csid in IdAfter(n, ps[0]).open;
    }
  }

  lemma SameRest<T>(a: seq<T>, b: seq<T>, c: seq<T>)
    ensures a + b == a + c <==> b == c
  {
    assert (a + b)[|a|..] == b && (a + c)[|a|..] == c;
  }

  /** Of any chunks sent orderly on each id, with every message finished, the reader returns every
      message if and only if none starts while another with the same key is under way. If one does,
      the reader returns exactly what was complete by then, and the connection is at its end. */
  lemma {:induction false} DeliversExactlyWithoutClash(n: IdSender, net: Sender, ps: seq<Piece>, conn: ConnState)
    requires IdSchedule(n, ps) && IdFinal(n, ps).open == map[]
    requires SameOpen(n, net) && Lockstep(net, conn) && conn.src.input == IdBytes(n, ps)
    ensures ReadAll(conn).0 == IdCompleted(n, ps) <==> NoClash(n, ps)
    ensures ReadAll(conn).0 <= IdCompleted(n, ps) && ReadAll(conn).1.Failed?
    ensures !NoClash(n, ps) ==> ReadAll(conn).1 == Failed(InvalidRemain)
    decreases |ps|
  {
    hide ReadAll, ReadMessage, ChunkBytes, WireOk, CanSend, IdCanSend, SameOpen, Clashes, IdAfter, After;
    if ps == [] {
      Ended(net, conn);
    } else {
      var p, rest := ps[0], IdBytes(IdAfter(n, ps[0]), ps[1..]);
      ClashIsBusyKey(n, net, p);
      if Clashes(n, p) {
        Started(n, p);
        BusyKeyFails(net, p, conn, rest);
        if IdCompleted(n, ps) == [] {
          StartedStays(n, ps);
        }
      } else {
        var conn' := OneChunk(net, p, conn, rest);
        StillSameOpen(n, net, p);
        DeliversExactlyWithoutClash(IdAfter(n, p), After(net, p), ps[1..], conn');
        SameRest(Delivered(net, p), ReadAll(conn').0, IdCompleted(IdAfter(n, p), ps[1..]));
      }
    }
  }

  lemma Ended(net: Sender, conn: ConnState)
    requires Lockstep(net, conn) && conn.src.input == []
    ensures ReadAll(conn).0 == [] && ReadAll(conn).1.Failed?
  {
    EndOfInput(conn);
  }

  lemma Started(n: IdSender, p: Piece)
    requires IdCanSend(n, p) && Clashes(n, p)
    ensures WireOk(p.m) && p.off == 0
  {
  }

  /** On a new connection, ids 64 and 65 cannot be interleaved: a message of two chunks on the one, with
      a message on the other between them, and nothing is returned. */
  lemma TwoIdsOneKey(a: Message, b: Message)
    requires WireOk(a) && a.csid == 64 && 128 < |a.data| <= 256
    requires WireOk(b) && b.csid == 65 && |b.data| <= 128 && b.typeID != 1
    ensures var ps := [Piece(a, 0), Piece(b, 0), Piece(a, 128)];
      var n := IdSender(128, map[]);
      && IdSchedule(n, ps) && |IdCompleted(n, ps)| == 2
      && ReadAll(NewConn(IdBytes(n, ps))) == ([], Failed(InvalidRemain))
  {
    hide ReadAll, ReadMessage, ChunkBytes;
    var ps, n := [Piece(a, 0), Piece(b, 0), Piece(a, 128)], IdSender(128, map[]);
    var n1, last := IdAfter(n, ps[0]), [ps[2]];
    assert n1.open == map[64 := Piece(a, 128)] && IdAfter(n1, ps[1]) == n1;
    assert last[1..] == [];
    assert ps[1..] == [ps[1]] + last && ([ps[1]] + last)[1..] == last;
    assert IdSchedule(n1, last) && IdCompleted(n1, last) == [Delivery(a, SizeAfter(a, 128))] + [];
    var second := ChunkBytes(b, 0, 128) + IdBytes(n1, last);
    assert IdBytes(n1, ps[1..]) == second && IdCompleted(n1, ps[1..]) == [Delivery(b, 128)] + IdCompleted(n1, last);
    var net, conn := Sender(128, map[]), NewConn(IdBytes(n, ps));
    var conn' := OneChunk(net, ps[0], conn, second);
    BusyKeyFails(After(net, ps[0]), ps[1], conn', IdBytes(n1, last));
    assert Delivered(net, ps[0]) == [];
    NothingBefore(ReadAll(conn').0);
  }

  /** Ids below 64 have keys of their own. */
  lemma {:induction false} LowIdsNeverClash(n: IdSender, ps: seq<Piece>)
    requires IdSchedule(n, ps) && (forall id :: id in n.open ==> id < 64)
    requires forall i :: 0 <= i < |ps| ==> ps[i].m.csid < 64
    ensures NoClash(n, ps)
    decreases |ps|
  {
    if ps != [] {
      LowIdsNeverClash(IdAfter(n, ps[0]), ps[1..]);
    }
  }
}
