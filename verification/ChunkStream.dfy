/** The mutable chunk stream: reading a chunk into the message under way and cutting a message
    into chunks, in place, proved against the functions of the chunk format. */
module ChunkStreams {
  import opened Bytes
  import opened Wire
  import opened ChunkFormat
  import opened Pools

  datatype Status = Ok | Failed(error: Error) | Panicked

  ghost predicate SameFields(c: Chunk<Slice>, m: Chunk<seq<byte>>) {
    && c.format == m.format && c.csid == m.csid && c.timestamp == m.timestamp
    && c.length == m.length && c.typeID == m.typeID && c.streamID == m.streamID
    && c.timeDelta == m.timeDelta && c.exted == m.exted && c.index == m.index
    && c.remain == m.remain && c.got == m.got && c.tmpFormat == m.tmpFormat
  }

  /** The slice is as long as the message and starts with the bytes received so far. */
  ghost predicate Holds(c: Chunk<Slice>, m: Chunk<seq<byte>>)
    reads if c.data.Slice? then {c.data.buf} else {}
  {
    && SameFields(c, m)
    && Fits(c.data) && c.index <= c.length == |Contents(c.data)|
    && Contents(c.data)[..c.index] == m.data
  }

  /** The same, with the bytes where they are. */
  ghost predicate Parts(c: Chunk<Slice>, m: Chunk<seq<byte>>)
    reads if c.data.Slice? then {c.data.buf} else {}
  {
    && SameFields(c, m)
    && match c.data
       case Nil => c.index == c.length == 0 && m.data == []
       case Slice(buf, off, len) =>
         off + len <= buf.Length && c.index <= c.length == len && buf[off..off + c.index] == m.data
  }

  lemma HoldsParts(c: Chunk<Slice>, m: Chunk<seq<byte>>)
    ensures Holds(c, m) <==> Parts(c, m)
  {
    if c.data.Slice? && Fits(c.data) && c.index <= c.data.len {
      assert c.data.buf[c.data.off..c.data.off + c.data.len][..c.index] == c.data.buf[c.data.off..c.data.off + c.index];
    }
  }

  /** With its next bytes in place the slice holds the message's next state. */
  lemma Filled(c: Chunk<Slice>, m: Chunk<seq<byte>>, size: nat, run: seq<byte>)
    requires ChunkInv(m) && SameFields(c, m) && size <= m.remain && |run| == size
    requires match c.data
             case Nil => m.data + run == [] && c.length == 0
             case Slice(buf, off, len) =>
               off + len <= buf.Length && c.length == len && buf[off..off + (c.index + size)] == m.data + run
    ensures Holds(c.(index := c.index + size, remain := c.remain - size, got := c.remain == size || c.got),
                  m.(index := m.index + size, remain := m.remain - size, got := m.remain == size || m.got,
                     data := m.data + run))
  {
    hide Holds;
    HoldsParts(c.(index := c.index + size, remain := c.remain - size, got := c.remain == size || c.got),
               m.(index := m.index + size, remain := m.remain - size, got := m.remain == size || m.got,
                  data := m.data + run));
  }

  /** What there is to know about a state that holds part of a message. */
  lemma Opened(c: Chunk<Slice>, m: Chunk<seq<byte>>)
    requires ChunkInv(m) && Holds(c, m)
    ensures c.index == m.index && c.remain == m.remain && c.length == m.length && c.got == m.got && SameFields(c, m)
    ensures c.index + c.remain == c.length <= MAX_POOL_SIZE && |m.data| == c.index
    ensures match c.data
            case Nil => c.index == c.length == 0 && m.data == []
            case Slice(buf, off, len) => off + len <= buf.Length && c.length == len && buf[off..off + c.index] == m.data
  {
    HoldsParts(c, m);
  }

  /** Bytes put behind those received extend them. */
  lemma SliceGrows(buf: seq<byte>, off: nat, index: nat, size: nat, received: seq<byte>)
    requires off + index + size <= |buf|
    requires buf[off..off + index] == received
    ensures buf[off..off + (index + size)] == received + buf[off + index..off + index + size]
  {
  }

  /** The part of a slice that holds the bytes received so far. */
  ghost function Received(s: Slice, index: nat): seq<byte>
    reads if s.Slice? then {s.buf} else {}
  {
    if s.Slice? && s.off + index <= s.buf.Length then s.buf[s.off..s.off + index] else []
  }

  /** The whole buffer of a slice. */
  ghost function Whole(s: Slice): seq<byte>
    reads if s.Slice? then {s.buf} else {}
  {
    if s.Slice? then s.buf[..] else []
  }

  /** Only the given range has changed. */
  ghost predicate Within(before: seq<byte>, after: seq<byte>, lo: nat, hi: nat) {
    |before| == |after| && forall i :: 0 <= i < |after| && !(lo <= i < hi) ==> after[i] == before[i]
  }

  /** A change within one range leaves a range apart from it alone. */
  lemma SliceKept(before: seq<byte>, after: seq<byte>, lo: nat, hi: nat, off: nat, len: nat)
    requires Within(before, after, lo, hi) && lo <= hi <= |after| && off + len <= |after|
    requires off + len <= lo || hi <= off
    ensures after[off..off + len] == before[off..off + len]
  {
  }

  /** The slices of one buffer are parts of it. */
  ghost predicate InBuffer(handed: seq<Slice>, datas: seq<seq<byte>>, buf: array<byte>, bytes: seq<byte>) {
    && |datas| == |handed|
    && forall k :: 0 <= k < |handed| && handed[k].Slice? && handed[k].buf == buf ==>
         handed[k].off + handed[k].len <= |bytes| && datas[k] == bytes[handed[k].off..handed[k].off + handed[k].len]
  }

  lemma InWhole(pool: Pool, data: Slice, slot: nat)
    requires pool.Valid() && data.Slice? && slot < |pool.handed| && pool.handed[slot] == data
    ensures InBuffer(pool.handed, Datas(pool), data.buf, Whole(data))
    ensures |Whole(data)| == data.buf.Length && data.off + data.len <= data.buf.Length && data.buf in pool.bufs
  {
  }

  lemma OtherBuffers(pool: Pool, data: Slice)
    requires pool.Valid()
    ensures forall k :: 0 <= k < |pool.handed| ==>
              pool.handed[k].Slice? && Fits(pool.handed[k]) && Datas(pool)[k] == Contents(pool.handed[k])
  {
  }

  /** Filling one slice leaves the data of all others alone. */
  lemma OneSliceFilled(pool: Pool, datas: seq<seq<byte>>, data: Slice, slot: nat, before: seq<byte>, lo: nat)
    requires pool.Valid() && data.Slice? && slot < |pool.handed| && pool.handed[slot] == data && data.off <= lo
    requires InBuffer(pool.handed, datas, data.buf, before) && InBuffer(pool.handed, Datas(pool), data.buf, Whole(data))
    requires Within(before, Whole(data), lo, data.off + data.len) && lo <= data.off + data.len <= |Whole(data)|
    requires forall k :: 0 <= k < |pool.handed| && pool.handed[k].Slice? && pool.handed[k].buf != data.buf ==>
               Datas(pool)[k] == datas[k]
    ensures KeepsOthers(datas, Datas(pool), slot)
  {
    hide Within, Datas, Contents, Whole;
    forall k | 0 <= k < |pool.handed| && k != slot
      ensures Datas(pool)[k] == datas[k]
    {
      var s := pool.handed[k];
      assert Apart(s, data) && s.Slice?;
      if s.buf == data.buf {
        SliceKept(before, Whole(data), lo, data.off + data.len, s.off, s.len);
      }
    }
  }

  lemma ReceivedInWhole(s: Slice, index: nat)
    requires s.Slice? && s.off + index <= s.buf.Length
    ensures s.off + index <= |Whole(s)| && Received(s, index) == Whole(s)[s.off..s.off + index]
  {
  }

  /** Where chunk i starts. */
  function Offset(i: nat, size: nat): nat {
    i * size
  }

  lemma NextOffset(i: nat, size: nat)
    ensures Offset(0, size) == 0
    ensures Offset(i + 1, size) == Offset(i, size) + size
  {
    assert (i + 1) * size == i * size + size;
  }

  /** The bytes written before data offset `off` and those still to come make up the message. */
  ghost predicate CutSoFar(m: Message, size: nat, off: nat, sofar: seq<byte>)
    requires size > 0
  {
    sofar + ChunksFrom(m, off, size) == ChunksFrom(m, 0, size)
  }

  lemma OneChunkIs(m: Message, start: nat, size: nat, format: uint32)
    requires size > 0 && start < |m.data| < 0x1_0000_0000 && format == (if start == 0 then 0 else 3)
    ensures ChunkBytes(m, start, size) == Header(m, format) + m.data[start..start + Min(size, |m.data| - start)]
  {
    hide FirstHeader, NextHeader;
  }

  lemma PartOfPart(s: seq<byte>, off: nat, len: nat, start: nat, end: nat)
    requires off + len <= |s| && start <= end <= len
    ensures s[off..off + len][start..end] == s[off + start..off + end]
  {
    var part := s[off..off + len];
    var a, b := part[start..end], s[off + start..off + end];
    assert forall i | 0 <= i < |a| :: a[i] == part[start + i] == b[i];
  }

  lemma CutStart(m: Message, size: nat)
    requires size > 0
    ensures CutSoFar(m, size, 0, [])
  {
    assert [] + ChunksFrom(m, 0, size) == ChunksFrom(m, 0, size);
  }

  lemma CutNext(m: Message, size: nat, off: nat, sofar: seq<byte>)
    requires size > 0 && off < |m.data| && CutSoFar(m, size, off, sofar)
    ensures CutSoFar(m, size, off + size, sofar + ChunkBytes(m, off, size))
  {
    Regroup(sofar, ChunkBytes(m, off, size), ChunksFrom(m, off + size, size));
  }

  lemma CutEnd(m: Message, size: nat, off: nat, sofar: seq<byte>)
    requires size > 0 && off >= |m.data| && CutSoFar(m, size, off, sofar)
    ensures sofar == ChunksFrom(m, 0, size)
  {
    assert sofar + [] == sofar;
  }

  function NumChunks(length: nat, size: nat): nat
    requires size > 0
  {
    length / size
  }

  lemma PastTheEnd(length: nat, size: nat)
    requires size > 0
    ensures Offset(NumChunks(length, size) + 1, size) > length
  {
    assert length == (length / size) * size + length % size;
    NextOffset(length / size, size);
  }

  class ChunkStream {
    var format: uint32
    var csid: uint32
    var timestamp: uint32
    var length: uint32
    var typeID: uint32
    var streamID: uint32
    var timeDelta: uint32
    var exted: bool
    var index: uint32
    var remain: uint32
    var got: bool
    var tmpFormat: uint32
    var data: Slice

    constructor (c: Chunk<Slice>)
      ensures Value() == c
    {
      format, csid, timestamp, length := c.format, c.csid, c.timestamp, c.length;
      typeID, streamID, timeDelta, exted := c.typeID, c.streamID, c.timeDelta, c.exted;
      index, remain, got, tmpFormat, data := c.index, c.remain, c.got, c.tmpFormat, c.data;
    }

    function Value(): Chunk<Slice>
      reads this
    {
      Chunk(format, csid, timestamp, length, typeID, streamID, timeDelta, exted, index, remain,
            got, tmpFormat, data)
    }

    method Set(c: Chunk<Slice>)
      modifies this
      ensures Value() == c
    {
      format, csid, timestamp, length := c.format, c.csid, c.timestamp, c.length;
      typeID, streamID, timeDelta, exted := c.typeID, c.streamID, c.timeDelta, c.exted;
      index, remain, got, tmpFormat, data := c.index, c.remain, c.got, c.tmpFormat, c.data;
    }

    /** Starts a message of the announced length in a slice of its own. */
    method New(pool: Pool) returns (ok: bool)
      requires pool.Valid()
      modifies this`got, this`index, this`remain, this`data, pool
      ensures pool.Valid() && old(pool.bufs) <= pool.bufs
      ensures forall a :: a in pool.bufs ==> a in old(pool.bufs) || fresh(a)
      ensures ok == (length <= MAX_POOL_SIZE)
      ensures ok ==> !got && index == 0 && remain == length
      ensures ok ==> data.Slice? && data.len == length && pool.handed == old(pool.handed) + [data]
      ensures !ok ==> pool.handed == old(pool.handed)
      ensures KeepsOthers(old(Datas(pool)), Datas(pool), |old(pool.handed)|)
    {
      hide Datas, KeepsOthers;
      got := false;
      index := 0;
      remain := length;
      var b;
      ok, b := pool.Get(length);
      if ok {
        data := b;
      }
    }

    /** The fields agree with c and the slice has not changed. */
    ghost predicate Fields(c: Chunk<seq<byte>>, slice: Slice)
      reads this
    {
      SameFields(Value(), c) && data == slice
    }

    /** The extended timestamp, where the short one announces it. */
    method ReadExtendedTs(r: ReadWriter, ts: uint32) returns (t: uint32)
      modifies this`exted, r`input, r`readError
      ensures (t, exted, r.Unread()) == ReadExtended(ts, old(r.Unread()))
    {
      hide TakeBE;
      t := ts;
      if t == EXTENDED {
        t := r.ReadUintBE(4);
        exted := true;
      } else {
        exted := false;
      }
    }

    /** A full header. */
    method ReadFields0(r: ReadWriter, ghost c: Chunk<seq<byte>>)
      requires tmpFormat == 0 && SameFields(Value(), c)
      modifies this, r`input, r`readError
      ensures var (c', s) := Fields0(c, old(r.Unread()));
              Fields(c', old(data)) && r.Unread() == s
    {
      hide TakeBE, TakeLE, ReadExtended;
      var timeStamp := r.ReadUintBE(3);
      var n := r.ReadUintBE(3);
      var id := r.ReadUintBE(1);
      var stream := r.ReadUintLE(4);
      timeStamp := ReadExtendedTs(r, timeStamp);
      format, timestamp, length, typeID, streamID := tmpFormat, timeStamp, n, id, stream;
    }

    /** A header without the stream id. */
    method ReadFields1(r: ReadWriter, ghost c: Chunk<seq<byte>>)
      requires tmpFormat == 1 && SameFields(Value(), c)
      modifies this, r`input, r`readError
      ensures var (c', s) := Fields1(c, old(r.Unread()));
              Fields(c', old(data)) && r.Unread() == s
    {
      hide TakeBE, TakeLE, ReadExtended;
      var timeStamp := r.ReadUintBE(3);
      var n := r.ReadUintBE(3);
      var id := r.ReadUintBE(1);
      timeStamp := ReadExtendedTs(r, timeStamp);
      format, timeDelta, timestamp, length, typeID := tmpFormat, timeStamp, Add32(timestamp, timeStamp), n, id;
    }

    /** A header with a time difference only. */
    method ReadFields2(r: ReadWriter, ghost c: Chunk<seq<byte>>)
      requires tmpFormat == 2 && SameFields(Value(), c)
      modifies this, r`input, r`readError
      ensures var (c', s) := Fields2(c, old(r.Unread()));
              Fields(c', old(data)) && r.Unread() == s
    {
      hide TakeBE, TakeLE, ReadExtended;
      format := tmpFormat;
      var timeStamp := r.ReadUintBE(3);
      timeStamp := ReadExtendedTs(r, timeStamp);
      timeDelta := timeStamp;
      timestamp := Add32(timestamp, timeStamp);
    }

    /** No header: a message like the one before. */
    method ReadFields3(r: ReadWriter, ghost c: Chunk<seq<byte>>)
      requires tmpFormat == 3 && SameFields(Value(), c)
      modifies this, r`input, r`readError
      ensures var (c', s) := Fields3(c, old(r.Unread()));
              Fields(c', old(data)) && r.Unread() == s
    {
      if format == 0 {
        if exted {
          timestamp := r.ReadUintBE(4);
        }
      } else if format == 1 || format == 2 {
        var timedet := timeDelta;
        if exted {
          timedet := r.ReadUintBE(4);
        }
        timestamp := Add32(timestamp, timedet);
      }
    }

    /** The extended timestamp repeated before more of a message: recognised by its value. */
    method SkipExtended(r: ReadWriter) returns (status: Status)
      modifies r`input
      ensures status == if exted && |old(r.input)| < 4 then Failed(Io(EOF)) else Ok
      ensures r.input == if exted && |old(r.input)| >= 4 && FromBE(old(r.input)[..4]) == timestamp
                         then old(r.input)[4..] else old(r.input)
    {
      if exted {
        var b := r.Peek(4);
        if b.None? {
          return Failed(Io(EOF));
        }
        if FromBE(b.value) == timestamp {
          r.Discard(4);
        }
      }
      status := Ok;
    }

    /** The message header, in whichever of the four formats the basic header announced. */
    method ReadHeader(r: ReadWriter, pool: Pool, ghost m: Chunk<seq<byte>>) returns (status: Status)
      requires pool.Valid() && ChunkInv(m) && Holds(Value(), m)
      modifies this, r`input, r`readError, pool
      ensures pool.Valid() && old(pool.bufs) <= pool.bufs
      ensures forall a :: a in pool.bufs ==> a in old(pool.bufs) || fresh(a)
      ensures match ReadMessageHeader(m, old(r.Unread()))
              case ChunkOk(m', s) => status == Ok && r.Unread() == s && Holds(Value(), m')
              case ChunkFailed(e, s) => status == Failed(e) && r.Unread() == s
              case ChunkPanics => status == Panicked
      ensures status == Ok && (old(remain) == 0 || old(tmpFormat) != 3) ==>
                data.Slice? && pool.handed == old(pool.handed) + [data]
      ensures status == Ok && old(remain) != 0 && old(tmpFormat) == 3 ==>
                pool.handed == old(pool.handed) && data == old(data) && index == old(index)
      ensures status != Ok ==> pool.handed == old(pool.handed)
      ensures KeepsOthers(old(Datas(pool)), Datas(pool), |old(pool.handed)|)
    {
      hide Fields0, Fields1, Fields2, Fields3, Datas, KeepsOthers;
      KeepsAll(Datas(pool), |pool.handed|);
      if tmpFormat == 3 && remain != 0 {
        status := SkipExtended(r);
        return;
      }
      if tmpFormat == 0 {
        ReadFields0(r, m);
      } else if tmpFormat == 1 {
        ReadFields1(r, m);
      } else if tmpFormat == 2 {
        ReadFields2(r, m);
      } else if tmpFormat == 3 {
        ReadFields3(r, m);
      } else {
        return Failed(InvalidFormat);
      }
      ghost var c := if m.tmpFormat == 0 then Fields0(m, old(r.Unread())).0
                     else if m.tmpFormat == 1 then Fields1(m, old(r.Unread())).0
                     else if m.tmpFormat == 2 then Fields2(m, old(r.Unread())).0
                     else Fields3(m, old(r.Unread())).0;
      hide Holds, Contents;
      status := Start(pool, c);
    }

    /** The message with these fields starts. */
    method Start(pool: Pool, ghost c: Chunk<seq<byte>>) returns (status: Status)
      requires pool.Valid() && SameFields(Value(), c)
      modifies this`got, this`index, this`remain, this`data, pool
      ensures pool.Valid() && old(pool.bufs) <= pool.bufs
      ensures forall a :: a in pool.bufs ==> a in old(pool.bufs) || fresh(a)
      ensures status == if c.length > MAX_POOL_SIZE then Panicked else Ok
      ensures status == Ok ==> Holds(Value(), c.(got := false, index := 0, remain := c.length, data := []))
      ensures status == Ok ==> data.Slice? && pool.handed == old(pool.handed) + [data]
      ensures status != Ok ==> pool.handed == old(pool.handed)
      ensures KeepsOthers(old(Datas(pool)), Datas(pool), |old(pool.handed)|)
    {
      hide Datas, KeepsOthers;
      var ok := New(pool);
      if !ok {
        return Panicked;
      }
      assert data == pool.handed[|pool.handed| - 1];
      status := Ok;
    }

    /** Reads `size` bytes into the slice, behind the bytes received so far. */
    method Fill(r: ReadWriter, size: nat, ghost received: seq<byte>) returns (ok: bool)
      requires match data
               case Nil => size == 0 && received == []
               case Slice(buf, off, len) =>
                 off + len <= buf.Length && index + size <= len && buf[off..off + index] == received
      modifies r`input, r`readError, if data.Slice? then {data.buf} else {}
      ensures var (run, s) := TakeRun(old(r.Unread()), size);
              && r.Unread() == s && ok == run.Some?
              && (ok ==> match data
                         case Nil => run.value == []
                         case Slice(buf, off, len) => buf[off..off + (index + size)] == received + run.value)
      ensures data.Slice? ==>
                Within(old(Whole(data)), Whole(data), data.off + index, data.off + data.len)
    {
      if data.Nil? {
        return r.readError.None?;
      }
      ok := r.Read(data.buf, data.off + index, size);
      if ok {
        SliceGrows(data.buf[..], data.off, index, size, received);
      }
    }

    /** The chunk's share of the payload, straight into the slice behind what is there. */
    method ReadPayload(r: ReadWriter, chunkSize: uint32, ghost m: Chunk<seq<byte>>) returns (status: Status)
      requires ChunkInv(m) && Holds(Value(), m)
      modifies this`index, this`remain, this`got, r`input, r`readError, if data.Slice? then {data.buf} else {}
      ensures match ChunkFormat.ReadPayload(m, old(r.Unread()), chunkSize)
              case ChunkOk(m', s) => status == Ok && r.Unread() == s && Holds(Value(), m')
              case ChunkFailed(e, s) => status == Failed(e) && r.Unread() == s
              case ChunkPanics => false
      ensures data.Slice? ==>
                Within(old(Whole(data)), Whole(data), data.off + old(index), data.off + data.len)
    {
      hide Holds, TakeRun, SameFields, Within, Contents, Fits, Whole, ChunkInv;
      ghost var c := Value();
      Opened(c, m);
      var size := Min(remain, chunkSize);
      ghost var (run, s) := TakeRun(r.Unread(), size);
      var ok := Fill(r, size, m.data);
      if !ok {
        return Failed(Io(r.readError.value));
      }
      Filled(c, m, size, run.value);
      Advance(size);
      status := Ok;
    }

    /** Counts the bytes that were put into the slice. */
    method Advance(size: uint32)
      requires size <= remain && index + size < 0x1_0000_0000
      modifies this`index, this`remain, this`got
      ensures Value() == old(Value()).(index := old(index) + size, remain := old(remain) - size,
                                       got := old(remain) == size || old(got))
    {
      index := index + size;
      remain := remain - size;
      if remain == 0 {
        got := true;
      }
    }

    /** The slice of this chunk stream is the one the pool handed out in turn `slot`. */
    ghost predicate Owns(pool: Pool, slot: nat)
      reads this`data, pool`handed
    {
      data.Slice? ==> slot < |pool.handed| && pool.handed[slot] == data
    }

    /** The payload again, with what it leaves alone in the pool. */
    method ReadPayloadInPool(r: ReadWriter, chunkSize: uint32, pool: Pool,
                             ghost m: Chunk<seq<byte>>, ghost slot: nat)
        returns (status: Status)
      requires pool.Valid() && ChunkInv(m) && Holds(Value(), m) && Owns(pool, slot)
      modifies this`index, this`remain, this`got, r`input, r`readError, pool.bufs
      ensures match ChunkFormat.ReadPayload(m, old(r.Unread()), chunkSize)
              case ChunkOk(m', s) => status == Ok && r.Unread() == s && Holds(Value(), m')
              case ChunkFailed(e, s) => status == Failed(e) && r.Unread() == s
              case ChunkPanics => false
      ensures KeepsOthers(old(Datas(pool)), Datas(pool), slot)
      ensures Received(data, old(index)) == old(Received(data, index))
    {
      hide ChunkFormat.ReadPayload, ChunkInv, Holds, Contents, Whole, Within, SameFields, Received, KeepsOthers,
           Datas, InBuffer, Pool.Valid, Fits;
      Opened(Value(), m);
      ghost var datas := Datas(pool);
      if data.Nil? {
        status := ReadPayload(r, chunkSize, m);
        assert Datas(pool) == datas;
        KeepsAll(datas, slot);
        return;
      }
      InWhole(pool, data, slot);
      ReceivedInWhole(data, index);
      ghost var before := Whole(data);
      status := ReadPayload(r, chunkSize, m);
      InWhole(pool, data, slot);
      ReceivedInWhole(data, old(index));
      SliceKept(before, Whole(data), data.off + old(index), data.off + data.len, data.off, old(index));
      OtherBuffers(pool, data);
      forall k | 0 <= k < |pool.handed| && pool.handed[k].buf != data.buf
        ensures Datas(pool)[k] == datas[k]
      {
        assert Contents(pool.handed[k]) == old(Contents(pool.handed[k]));
      }
      OneSliceFilled(pool, datas, data, slot, before, data.off + old(index));
    }

    /** The rest of the basic header. */
    method ReadId(r: ReadWriter)
      modifies this`csid, r`input, r`readError
      ensures (csid, r.Unread()) == ReadCsid(old(csid), old(r.Unread()))
    {
      if csid == 0 {
        var id := r.ReadUintLE(1);
        Pow256Values();
        csid := id + 64;
      } else if csid == 1 {
        var id := r.ReadUintLE(2);
        Pow256Values();
        csid := id + 64;
      }
    }

    /** One chunk: the rest of the basic header, the message header and the payload. The slices
        handed out before, other than that of the message under way, keep their contents, and so
        do the bytes already received of that one. */
    method ReadChunk(r: ReadWriter, chunkSize: uint32, pool: Pool,
                     ghost m: Chunk<seq<byte>>, ghost slot: nat)
        returns (status: Status, ghost slot': nat)
      requires pool.Valid() && ChunkInv(m) && Holds(Value(), m) && Owns(pool, slot)
      modifies this, r`input, r`readError, pool, pool.bufs
      ensures pool.Valid() && old(pool.bufs) <= pool.bufs
      ensures forall a :: a in pool.bufs ==> a in old(pool.bufs) || fresh(a)
      ensures match ChunkFormat.ReadChunk(m, old(r.Unread()), chunkSize)
              case ChunkOk(m', s) => status == Ok && r.Unread() == s && Holds(Value(), m')
              case ChunkFailed(e, s) => status == Failed(e) && r.Unread() == s
              case ChunkPanics => status == Panicked
      ensures old(pool.handed) <= pool.handed
      ensures status == Ok ==>
                Owns(pool, slot') && (if old(remain) == 0 then data.Slice? else data == old(data))
                && slot' == if old(remain) == 0 then |old(pool.handed)| else slot
      ensures KeepsOthers(old(Datas(pool)), Datas(pool), if old(remain) == 0 then |old(pool.handed)| else slot)
      ensures old(remain) != 0 ==> Received(old(data), old(index)) == old(Received(data, index))
    {
      slot' := slot;
      hide ReadMessageHeader, ReadCsid, ChunkFormat.ReadPayload, Contents, Received, Pool.Valid, Fits, Datas, KeepsOthers;
      ghost var datas := Datas(pool);
      KeepsAll(datas, if remain == 0 then |pool.handed| else slot);
      if remain != 0 && tmpFormat != 3 {
        return Failed(InvalidRemain), slot;
      }
      ReadId(r);
      ghost var m1, s1 := m.(csid := csid), r.Unread();
      assert Datas(pool) == datas;
      status := ReadHeader(r, pool, m1);
      ghost var datas1 := Datas(pool);
      KeepsMore(datas, datas1, slot);
      if status != Ok {
        return;
      }
      slot' := if old(remain) == 0 then |old(pool.handed)| else slot;
      status := ReadPayloadInPool(r, chunkSize, pool, ReadMessageHeader(m1, s1).cs, slot');
      KeepsBoth(datas, datas1, Datas(pool), slot');
    }
  
    // ----- Writing -------------------------------------------------------------------------

    /** The message this chunk stream stands for when it is written. */
    ghost function Outgoing(): Message
      requires Fits(data)
      reads this, if data.Slice? then {data.buf} else {}
    {
      Message(csid, timestamp, typeID, streamID, Contents(data))
    }

    method WriteBasicHeader(w: ReadWriter)
      requires format <= 3
      modifies w`output
      ensures w.output == old(w.output) + BasicHeader(format, csid)
    {
      hide BE, LE;
      var h := format * 64;
      if csid < 64 {
        w.WriteUintBE(h + csid, 1);
      } else if csid - 64 < 256 {
        w.WriteUintBE(h, 1);
        w.WriteUintLE(csid - 64, 1);
        Regroup(old(w.output), BE(h, 1), LE(csid - 64, 1));
      } else if csid - 64 < 65536 {
        w.WriteUintBE(h + 1, 1);
        w.WriteUintLE(csid - 64, 2);
        Regroup(old(w.output), BE(h + 1, 1), LE(csid - 64, 2));
      }
    }

    method WriteHeader(w: ReadWriter) returns (status: Status)
      requires Fits(data) && length == |Contents(data)| && format <= 3
      modifies w`output
      ensures if format < 2 && length > 0xffffff
              then status == Failed(LengthTooLarge)
                   && w.output == old(w.output) + BasicHeader(format, csid) + BE(Clamp(timestamp), 3)
              else status == Ok && w.output == old(w.output) + Header(Outgoing(), format)
    {
      hide BasicHeader, BE, LE, Contents;
      ghost var m, before := Outgoing(), w.output;
      WriteBasicHeader(w);
      ghost var h := BasicHeader(format, csid);
      var ts := timestamp;
      if format != 3 {
        if timestamp > EXTENDED {
          ts := EXTENDED;
        }
        w.WriteUintBE(ts, 3);
        Regroup(before, h, BE(ts, 3));
        h := h + BE(ts, 3);
        if format != 2 {
          if length > 0xffffff {
            return Failed(LengthTooLarge);
          }
          w.WriteUintBE(length, 3);
          Regroup(before, h, BE(length, 3));
          h := h + BE(length, 3);
          w.WriteUintBE(typeID, 1);
          Regroup(before, h, BE(typeID, 1));
          h := h + BE(typeID, 1);
          if format != 1 {
            w.WriteUintLE(streamID, 4);
            Regroup(before, h, LE(streamID, 4));
            h := h + LE(streamID, 4);
          }
        }
      }
      if ts >= EXTENDED {
        w.WriteUintBE(timestamp, 4);
        Regroup(before, h, BE(timestamp, 4));
        h := h + BE(timestamp, 4);
      }
      assert h + [] == h;
      status := Ok;
    }

    /** Cuts the message into chunks of at most `chunkSize` payload bytes. A chunk size of zero
        is a division by zero. */
    method WriteChunk(w: ReadWriter, chunkSize: uint32) returns (status: Status)
      requires Fits(data) && length == |Contents(data)|
      modifies this`csid, this`format, w`output
      ensures Outgoing() == Routed(old(Outgoing()))
      ensures status == (if chunkSize == 0 then Panicked
                         else if length > 0xffffff then Failed(LengthTooLarge) else Ok)
      ensures chunkSize == 0 ==> w.output == old(w.output)
      ensures status == Ok ==> w.output == old(w.output) + ChunksFrom(Outgoing(), 0, chunkSize)
      ensures status.Failed? ==>
                w.output == old(w.output) + (BasicHeader(0, csid) + BE(Clamp(timestamp), 3))
    {
      if typeID == TAG_AUDIO {
        csid := 4;
      } else if typeID == TAG_VIDEO || typeID == TAG_SCRIPT_AMF0 || typeID == TAG_SCRIPT_AMF3 {
        csid := 6;
      }
      if chunkSize == 0 {
        return Panicked;
      }
      status := WriteChunks(w, chunkSize, Outgoing());
    }

    /** The loop over the chunks. */
    method WriteChunks(w: ReadWriter, chunkSize: uint32, ghost m: Message) returns (status: Status)
      requires Fits(data) && m == Outgoing() && length == |m.data| && chunkSize > 0
      modifies this`format, w`output
      ensures status == if length > 0xffffff then Failed(LengthTooLarge) else Ok
      ensures status == Ok ==> w.output == old(w.output) + ChunksFrom(m, 0, chunkSize)
      ensures status.Failed? ==>
                w.output == old(w.output) + (BasicHeader(0, m.csid) + BE(Clamp(m.timestamp), 3))
      ensures m == Outgoing()
    {
      hide CutSoFar, ChunksFrom, ChunkBytes, BasicHeader, Offset, NumChunks, BE, Clamp, Contents, Fits;
      var totalLen := 0;
      var numChunks := NumChunks(length, chunkSize);
      ghost var before, done, sofar := w.output, 0, [];
      var i := 0;
      NextOffset(0, chunkSize);
      CutStart(m, chunkSize);
      assert before + [] == before;
      while i <= numChunks && totalLen != length
        invariant 0 <= i <= numChunks + 1 && m == Outgoing()
        invariant done == Offset(i, chunkSize) && (done == 0 <==> i == 0) && totalLen == Min(done, length)
        invariant length > 0xffffff ==> i == 0
        invariant w.output == before + sofar && CutSoFar(m, chunkSize, done, sofar)
        invariant i == 0 ==> sofar == []
      {
        format := if i == 0 then 0 else 3;
        var start := Offset(i, chunkSize);
        var s, inc := WriteOneChunk(w, start, chunkSize, m);
        if s != Ok {
          return s;
        }
        CutNext(m, chunkSize, start, sofar);
        Regroup(before, sofar, ChunkBytes(m, start, chunkSize));
        NextOffset(i, chunkSize);
        totalLen := totalLen + inc;
        i, done, sofar := i + 1, done + chunkSize, sofar + ChunkBytes(m, start, chunkSize);
      }
      PastTheEnd(length, chunkSize);
      CutEnd(m, chunkSize, done, sofar);
      status := Ok;
    }

    /** One round of the loop: the chunk from `start` and how much payload it carried. */
    method WriteOneChunk(w: ReadWriter, start: nat, chunkSize: uint32, ghost m: Message)
        returns (status: Status, inc: nat)
      requires Fits(data) && m == Outgoing() && length == |m.data|
      requires chunkSize > 0 && start < length && format == (if start == 0 then 0 else 3)
      requires length > 0xffffff ==> start == 0
      modifies w`output
      ensures status == if length > 0xffffff then Failed(LengthTooLarge) else Ok
      ensures inc == if status == Ok then Min(chunkSize, length - start) else 0
      ensures w.output == old(w.output) +
                (if status == Ok then ChunkBytes(m, start, chunkSize)
                 else BasicHeader(0, m.csid) + BE(Clamp(m.timestamp), 3))
      ensures m == Outgoing()
    {
      hide ChunkBytes, Header, Contents, BasicHeader, BE;
      inc := 0;
      status := WriteHeader(w);
      if status != Ok {
        return;
      }
      inc := chunkSize;
      if length - start <= inc {
        inc := length - start;
      }
      WriteData(w, start, start + inc);
      Regroup(old(w.output), Header(m, format), m.data[start..start + inc]);
      OneChunkIs(m, start, chunkSize, format);
    }

    method WriteData(w: ReadWriter, start: nat, end: nat)
      requires Fits(data) && start <= end <= |Contents(data)|
      modifies w`output
      ensures w.output == old(w.output) + Contents(data)[start..end]
    {
      if data.Slice? {
        PartOfPart(data.buf[..], data.off, data.len, start, end);
        w.Write(data.buf[data.off + start..data.off + end]);
      }
    }
  }
}
