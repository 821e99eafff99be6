/** Theorems about connections: what a writer sends a reader gets back, when it does not, what
    truncated and arbitrary input can do. */
module ChunkTheorems {
  import opened Bytes
  import opened Wire
  import opened ChunkFormat
  import opened ChunkDemux

  // ----- Reading depends only on what is consumed --------------------------------------------------

  function Longer(s: Source, z: seq<byte>): Source {
    s.(input := s.input + z)
  }

  lemma TakeExtends(s: Source, n: nat, z: seq<byte>)
    requires n <= 4
    ensures TakeBE(s, n).1.err.None? ==> TakeBE(Longer(s, z), n) == (TakeBE(s, n).0, Longer(TakeBE(s, n).1, z))
    ensures TakeLE(s, n).1.err.None? ==> TakeLE(Longer(s, z), n) == (TakeLE(s, n).0, Longer(TakeLE(s, n).1, z))
  {
    if n <= |s.input| {
      assert (s.input + z)[..n] == s.input[..n];
      assert (s.input + z)[n..] == s.input[n..] + z;
    }
  }

  lemma CsidExtends(raw: uint32, s: Source, z: seq<byte>)
    ensures ReadCsid(raw, s).1.err.None? ==>
      ReadCsid(raw, Longer(s, z)) == (ReadCsid(raw, s).0, Longer(ReadCsid(raw, s).1, z))
  {
    TakeExtends(s, 1, z);
    TakeExtends(s, 2, z);
  }

  lemma ExtendedExtends(ts: uint32, s: Source, z: seq<byte>)
    ensures var (t, e, s') := ReadExtended(ts, s);
      s'.err.None? ==> ReadExtended(ts, Longer(s, z)) == (t, e, Longer(s', z))
  {
    TakeExtends(s, 4, z);
  }

  /** More input changes neither a success nor a panic. */
  predicate SameWithMore(r: ChunkResult, r': ChunkResult, z: seq<byte>) {
    && (r.ChunkOk? && r.src.err.None? ==> r' == ChunkOk(r.cs, Longer(r.src, z)))
    && (r.ChunkPanics? ==> r'.ChunkPanics?)
  }

  lemma Header0Extends(cs: Chunk<seq<byte>>, s: Source, z: seq<byte>)
    ensures SameWithMore(ReadHeader0(cs, s), ReadHeader0(cs, Longer(s, z)), z)
  {
    var (ts, s1) := TakeBE(s, 3);
    var (length, s2) := TakeBE(s1, 3);
    var (typeID, s3) := TakeBE(s2, 1);
    var (streamID, s4) := TakeLE(s3, 4);
    TakeExtends(s, 3, z);
    TakeExtends(s1, 3, z);
    TakeExtends(s2, 1, z);
    TakeExtends(s3, 4, z);
    ExtendedExtends(ts, s4, z);
  }

  lemma Header1Extends(cs: Chunk<seq<byte>>, s: Source, z: seq<byte>)
    ensures SameWithMore(ReadHeader1(cs, s), ReadHeader1(cs, Longer(s, z)), z)
  {
    var (ts, s1) := TakeBE(s, 3);
    var (length, s2) := TakeBE(s1, 3);
    var (typeID, s3) := TakeBE(s2, 1);
    TakeExtends(s, 3, z);
    TakeExtends(s1, 3, z);
    TakeExtends(s2, 1, z);
    ExtendedExtends(ts, s3, z);
  }

  lemma Header2Extends(cs: Chunk<seq<byte>>, s: Source, z: seq<byte>)
    requires ChunkInv(cs)
    ensures SameWithMore(ReadHeader2(cs, s), ReadHeader2(cs, Longer(s, z)), z)
  {
    var (ts, s1) := TakeBE(s, 3);
    TakeExtends(s, 3, z);
    ExtendedExtends(ts, s1, z);
  }

  lemma Header3Extends(cs: Chunk<seq<byte>>, s: Source, z: seq<byte>)
    requires ChunkInv(cs)
    ensures SameWithMore(ReadHeader3(cs, s), ReadHeader3(cs, Longer(s, z)), z)
  {
    TakeExtends(s, 4, z);
    if |s.input| >= 4 {
      assert (s.input + z)[..4] == s.input[..4];
      assert (s.input + z)[4..] == s.input[4..] + z;
    }
  }

  lemma PayloadExtends(cs: Chunk<seq<byte>>, s: Source, size: uint32, z: seq<byte>)
    requires ChunkInv(cs)
    ensures SameWithMore(ReadPayload(cs, s, size), ReadPayload(cs, Longer(s, z), size), z)
  {
    var n := Min(cs.remain, size);
    if n <= |s.input| {
      assert (s.input + z)[..n] == s.input[..n];
      assert (s.input + z)[n..] == s.input[n..] + z;
    }
  }

  lemma HeaderExtends(cs: Chunk<seq<byte>>, s: Source, z: seq<byte>)
    requires ChunkInv(cs)
    ensures SameWithMore(ReadMessageHeader(cs, s), ReadMessageHeader(cs, Longer(s, z)), z)
  {
    hide ReadHeader0, ReadHeader1, ReadHeader2, ReadHeader3;
    Header0Extends(cs, s, z);
    Header1Extends(cs, s, z);
    Header2Extends(cs, s, z);
    Header3Extends(cs, s, z);
  }

  /** Whatever follows a chunk does not change how it is read. */
  lemma ChunkExtends(cs: Chunk<seq<byte>>, s: Source, size: uint32, z: seq<byte>)
    requires ChunkInv(cs)
    ensures SameWithMore(ReadChunk(cs, s, size), ReadChunk(cs, Longer(s, z), size), z)
  {
    hide ReadPayload;
    if cs.remain == 0 || cs.tmpFormat == 3 {
      var (id, s1) := ReadCsid(cs.csid, s);
      CsidExtends(cs.csid, s, z);
      HeaderExtends(cs.(csid := id), s1, z);
      var h := ReadMessageHeader(cs.(csid := id), s1);
      if h.ChunkOk? {
        PayloadExtends(h.cs, h.src, size, z);
      }
    }
  }

  lemma StepExtends(conn: ConnState, z: seq<byte>)
    requires ConnInv(conn)
    ensures var r, r' := ReadStep(conn), ReadStep(conn.(src := Longer(conn.src, z)));
            && (r.Stepped? ==> r' == Stepped(r.cs, r.conn.(src := Longer(r.conn.src, z))))
            && (r.StepPanics? ==> r'.StepPanics?)
  {
    hide ReadChunk, ReadStepAfter;
    TakeExtends(conn.src, 1, z);
    var (h, s) := TakeBE(conn.src, 1);
    if s.err.None? {
      hide TakeBE;
      StepAfterExtends(conn, h, s, z);
    } else {
      EndedStep(conn, s);
    }
  }

  lemma EndedStep(conn: ConnState, s: Source)
    requires ConnInv(conn) && s.err.Some?
    ensures ReadStepAfter(conn, 0, s).StepFailed?
  {
    hide ReadChunk;
    EndedChunk(Selected(conn, 0, 0), s, conn.remoteChunkSize);
  }

  lemma StepAfterExtends(conn: ConnState, h: uint32, s: Source, z: seq<byte>)
    requires ConnInv(conn) && h < 256
    ensures var r := ReadStepAfter(conn, h, s);
            var r' := ReadStepAfter(conn.(src := Longer(conn.src, z)), h, Longer(s, z));
            && (r.Stepped? ==> r' == Stepped(r.cs, r.conn.(src := Longer(r.conn.src, z))))
            && (r.StepPanics? ==> r'.StepPanics?)
  {
    hide ReadChunk;
    var cs := Selected(conn, h % 64, h / 64);
    assert Selected(conn.(src := Longer(conn.src, z)), h % 64, h / 64) == cs;
    ChunkExtends(cs, s, conn.remoteChunkSize, z);
  }

  // ----- Truncated streams ----------------------------------------------------------------------

  /** A chunk cut short, anywhere, is an error: never a panic, never a partial result. */
  lemma TruncatedChunk(net: Sender, p: Piece, conn: ConnState)
    requires CanSend(net, p) && Lockstep(net, conn)
    requires conn.src.input < ChunkBytes(p.m, p.off, net.size)
    ensures ReadStep(conn).StepFailed?
    ensures ReadAll(conn).0 == [] && ReadAll(conn).1.Failed?
  {
    hide ReadStep, ReadMessage, ChunkBytes;
    var full := ChunkBytes(p.m, p.off, net.size);
    var z := full[|conn.src.input|..];
    var whole := conn.(src := Longer(conn.src, z));
    assert whole.src.input == full == full + [];
    StepReads(net, p, whole, []);
    StepExtends(conn, z);
    FailedStep(conn);
  }

  /** A failed round ends the reading without a message. */
  lemma FailedStep(conn: ConnState)
    requires ConnInv(conn)
    ensures ReadStep(conn).StepFailed? ==> ReadAll(conn).0 == [] && ReadAll(conn).1.Failed?
  {
  }

  /** The number of chunks of a schedule that are whole within its first n bytes. */
  function Arrived(net: Sender, ps: seq<Piece>, n: nat): (k: nat)
    requires Schedule(net, ps)
    ensures k <= |ps|
    decreases |ps|
  {
    if ps == [] then 0
    else
      var first := |ChunkBytes(ps[0].m, ps[0].off, net.size)|;
      if n < first then 0 else 1 + Arrived(After(net, ps[0]), ps[1..], n - first)
  }

  /** The chunks that arrived are a schedule themselves; their bytes are there, those of the next one
      are not. */
  lemma {:induction false} ArrivedWhole(net: Sender, ps: seq<Piece>, n: nat)
    requires Schedule(net, ps)
    ensures forall k | 0 <= k <= |ps| :: Schedule(net, ps[..k])
    ensures var k := Arrived(net, ps, n);
      |WireBytes(net, ps[..k])| <= n && (k < |ps| ==> n < |WireBytes(net, ps[..k + 1])|)
    decreases |ps|
  {
    hide ChunkBytes;
    if ps != [] {
      var net', first := After(net, ps[0]), |ChunkBytes(ps[0].m, ps[0].off, net.size)|;
      ArrivedWhole(net', ps[1..], if n < first then 0 else n - first);
      forall k | 0 <= k <= |ps| ensures Schedule(net, ps[..k]) {
        if k > 0 {
          FirstOfMore(net, ps, k);
        }
      }
      forall k | 1 <= k <= |ps| ensures |WireBytes(net, ps[..k])| == first + |WireBytes(net', ps[1..][..k - 1])| {
        FirstOfMore(net, ps, k);
      }
    }
  }

  lemma FirstOfMore(net: Sender, ps: seq<Piece>, k: nat)
    requires 1 <= k <= |ps| && CanSend(net, ps[0]) && Schedule(After(net, ps[0]), ps[1..][..k - 1])
    ensures Schedule(net, ps[..k])
    ensures var first, net' := ChunkBytes(ps[0].m, ps[0].off, net.size), After(net, ps[0]);
      && WireBytes(net, ps[..k]) == first + WireBytes(net', ps[1..][..k - 1])
      && Completed(net, ps[..k]) == Delivered(net, ps[0]) + Completed(net', ps[1..][..k - 1])
  {
    hide ChunkBytes, After, CanSend, Delivered;
    assert ps[..k][0] == ps[0] && ps[..k][1..] == ps[1..][..k - 1];
  }

  /** On any strict or full prefix of a schedule's bytes the reader returns exactly the messages whose
      last chunks arrived whole, and then an error. */
  lemma {:induction false} TruncatedStream(net: Sender, ps: seq<Piece>, conn: ConnState)
    requires Schedule(net, ps) && Lockstep(net, conn)
    requires conn.src.input <= WireBytes(net, ps)
    ensures ReadAll(conn).0 <= Completed(net, ps)
    ensures var arrived := ps[..Arrived(net, ps, |conn.src.input|)];
      Schedule(net, arrived) && ReadAll(conn).0 == Completed(net, arrived)
    ensures ReadAll(conn).1.Failed?
    decreases |ps|
  {
    hide ReadAll, ReadMessage, ChunkBytes, Lockstep, After;
    if ps == [] {
      NothingArrives(net, conn);
    } else {
      var first := ChunkBytes(ps[0].m, ps[0].off, net.size);
      if |conn.src.input| < |first| {
        TruncatedChunk(net, ps[0], conn);
      } else {
        var rest := conn.src.input[|first|..];
        TruncatedTail(first, WireBytes(After(net, ps[0]), ps[1..]), conn.src.input);
        var conn' := OneChunk(net, ps[0], conn, rest);
        TruncatedStream(After(net, ps[0]), ps[1..], conn');
        FirstOfMore(net, ps, Arrived(net, ps, |conn.src.input|));
      }
    }
  }

  lemma NothingArrives(net: Sender, conn: ConnState)
    requires Lockstep(net, conn) && conn.src.input == []
    ensures ReadAll(conn).0 == [] && ReadAll(conn).1.Failed?
  {
    hide ReadAll;
    EndOfInput(conn);
  }

  lemma TruncatedTail(first: seq<byte>, second: seq<byte>, s: seq<byte>)
    requires s <= first + second && |first| <= |s|
    ensures s == first + s[|first|..]
    ensures s[|first|..] <= second
  {
  }

  /** A failed round leaves every stream as it was, and one that was not there at most empty. */
  lemma FailedStepKeepsStreams(conn: ConnState)
    requires ConnInv(conn) && ReadStep(conn).StepFailed?
    ensures var conn' := ReadStep(conn).conn;
      && (forall k | k in conn.chunks :: k in conn'.chunks && conn'.chunks[k] == conn.chunks[k])
      && (forall k | k in conn'.chunks && k !in conn.chunks ::
            var cs := conn'.chunks[k];
            cs.format == cs.timestamp == cs.length == cs.typeID == cs.streamID == cs.timeDelta == 0
            && cs.index == cs.remain == 0 && !cs.exted && !cs.got && cs.data == [])
      && conn'.(chunks := conn.chunks, src := conn.src) == conn
  {
    hide ReadChunk, Selected, TakeBE;
  }

  // ----- Streams that share a key ---------------------------------------------------------------

  /** Chunk stream ids from 64 on are kept by the form of their header, not by id. A message that
      starts while another with the same form is under way ends the connection. */
  lemma BusyKeyFails(net: Sender, p: Piece, conn: ConnState, rest: seq<byte>)
    requires Lockstep(net, conn) && p.off == 0 && WireOk(p.m)
    requires Key(p.m.csid) in net.open
    requires conn.src.input == ChunkBytes(p.m, 0, net.size) + rest
    ensures ReadAll(conn) == ([], Failed(InvalidRemain))
  {
    hide ReadChunk, ReadStep, ReadStepAfter, ReadMessage, ReadAll, ChunkBytes, Tail;
    ChunkBytesSplit(p, net.size);
    var h, s := HeaderByte(p), Source(Tail(p, net.size) + rest, None);
    Regroup([h], Tail(p, net.size), rest);
    StepUnfolds(conn, h, s.input);
    assert h % 64 == Key(p.m.csid) && h / 64 == 0;
    BusyChunk(Selected(conn, h % 64, h / 64), s, conn.remoteChunkSize);
    StepFailure(conn, h, s);
  }

  lemma BusyChunk(cs: Chunk<seq<byte>>, s: Source, size: uint32)
    requires ChunkInv(cs) && cs.remain != 0 && cs.tmpFormat == 0
    ensures ReadChunk(cs, s, size) == ChunkFailed(InvalidRemain, s)
  {
  }

  lemma StepFailure(conn: ConnState, h: uint32, s: Source)
    requires ConnInv(conn) && h < 256 && ReadStep(conn) == ReadStepAfter(conn, h, s)
    requires ReadChunk(Selected(conn, h % 64, h / 64), s, conn.remoteChunkSize) == ChunkFailed(InvalidRemain, s)
    ensures ReadAll(conn) == ([], Failed(InvalidRemain))
  {
  }

  /** Any schedule followed by the start of a message on a busy key: what was complete is
      returned, and nothing after that. */
  lemma BusyKeyEndsTheConnection(net: Sender, ps: seq<Piece>, p: Piece, conn: ConnState, rest: seq<byte>)
    requires Schedule(net, ps) && Lockstep(net, conn) && p.off == 0 && WireOk(p.m)
    requires Key(p.m.csid) in Final(net, ps).open
    requires conn.src.input == WireBytes(net, ps) + (ChunkBytes(p.m, 0, Final(net, ps).size) + rest)
    ensures ReadAll(conn) == (Completed(net, ps), Failed(InvalidRemain))
  {
    var conn' := ScheduleThenMore(net, ps, conn, ChunkBytes(p.m, 0, Final(net, ps).size) + rest);
    BusyKeyFails(Final(net, ps), p, conn', rest);
    assert Completed(net, ps) + [] == Completed(net, ps);
  }

  // ----- What makes the reader panic ---------------------------------------------------------------

  /** Where the length field of a full or same-stream header stands, after the first byte. */
  function LengthAt(raw: uint32): nat {
    if raw == 0 then 4 else if raw == 1 then 5 else 3
  }

  /** The next header announces a message the pool cannot hold. */
  predicate AnnouncesTooMuch(cs: Chunk<seq<byte>>, s: Source) {
    && cs.remain == 0 && cs.tmpFormat <= 1
    && s.err.None? && |s.input| >= LengthAt(cs.csid) + 3
    && FromBE(s.input[LengthAt(cs.csid)..LengthAt(cs.csid) + 3]) > MAX_POOL_SIZE
  }

  /** On any bytes at all, a chunk panics exactly when its header announces more than the pool
      can hold; every other input gives a chunk or an error. */
  lemma ChunkPanicsExactly(cs: Chunk<seq<byte>>, s: Source, size: uint32)
    requires ChunkInv(cs)
    ensures ReadChunk(cs, s, size).ChunkPanics? <==> AnnouncesTooMuch(cs, s)
  {
    if cs.remain == 0 && cs.tmpFormat <= 1 {
      LengthField(cs.csid, s);
    }
  }

  function AnnouncedLength(raw: uint32, s: Source): uint32 {
    TakeBE(TakeBE(ReadCsid(raw, s).1, 3).1, 3).0
  }

  lemma LengthField(raw: uint32, s: Source)
    ensures var at := LengthAt(raw);
            AnnouncedLength(raw, s) ==
              if s.err.None? && |s.input| >= at + 3 then FromBE(s.input[at..at + 3]) else 0
  {
    var s1 := ReadCsid(raw, s).1;
    var s2 := TakeBE(s1, 3).1;
    var id := LengthAt(raw) - 3;
    if s.err.None? && |s.input| >= id {
      assert s1.input == s.input[id..] && s1.err.None?;
      if |s1.input| >= 3 {
        assert s2.input == s.input[id + 3..] && s2.err.None?;
        if |s2.input| >= 3 {
          assert s2.input[..3] == s.input[id + 3..id + 6];
        }
      }
    }
  }
}
