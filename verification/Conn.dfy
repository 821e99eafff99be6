/** A connection: chunk streams kept by key, the chunk sizes of both directions, and the pool
    that holds the data of every message it has returned. */
module Conns {
  import opened Bytes
  import opened Wire
  import opened ChunkFormat
  import opened Pools
  import opened ChunkStreams
  import ConnRoundTrip

  /** A message the connection has returned: which slice of the pool it got, and its bytes. */
  datatype Returned = Returned(slot: nat, bytes: seq<byte>)

  type Slots = map<uint32, nat>
  type Streams = map<uint32, Chunk<Slice>>
  type Model = map<uint32, Chunk<seq<byte>>>

  /** A stream is as the model says, its bytes in slice number `slot`. */
  ghost predicate Kept(handed: seq<Slice>, datas: seq<seq<byte>>, c: Chunk<Slice>,
                       m: Chunk<seq<byte>>, slot: nat)
  {
    && ChunkInv(m) && SameFields(c, m)
    && if c.data.Nil? then c.length == 0
       else slot < |handed| == |datas| && handed[slot] == c.data && |datas[slot]| == c.length
            && datas[slot][..c.index] == m.data
  }

  /** Streams hold what the model says, those under way each in a slice of its own; messages
      already returned still have the bytes they were returned with, and no stream is filling
      their slices. */
  ghost predicate Consistent(handed: seq<Slice>, datas: seq<seq<byte>>, chunks: Streams,
                             model: Model, slots: Slots, history: seq<Returned>)
  {
    && chunks.Keys == model.Keys == slots.Keys
    && (forall k :: k in chunks ==> Kept(handed, datas, chunks[k], model[k], slots[k]))
    && (forall k, l :: k in chunks && l in chunks && k != l && chunks[k].remain != 0 && chunks[l].data.Slice? ==>
          slots[k] != slots[l])
    && (forall i :: 0 <= i < |history| ==>
          history[i].slot < |datas| && datas[history[i].slot] == history[i].bytes)
    && (forall k, i :: k in chunks && 0 <= i < |history| && chunks[k].remain != 0 ==> slots[k] != history[i].slot)
  }

  lemma NothingKept(handed: seq<Slice>, datas: seq<seq<byte>>)
    ensures Kept(handed, datas, EmptyChunk(Nil), EmptyChunk([]), 0)
  {
  }

  lemma SameStreams(handed: seq<Slice>, datas: seq<seq<byte>>, chunks: Streams, model: Model, slots: Slots,
                    history: seq<Returned>)
    requires Consistent(handed, datas, chunks, model, slots, history)
    ensures chunks.Keys == model.Keys == slots.Keys
  {
  }

  lemma StreamIsKept(handed: seq<Slice>, datas: seq<seq<byte>>, chunks: Streams, model: Model, slots: Slots,
                     history: seq<Returned>, csid: uint32)
    requires Consistent(handed, datas, chunks, model, slots, history) && csid in chunks
    ensures csid in model && csid in slots && Kept(handed, datas, chunks[csid], model[csid], slots[csid])
  {
    hide Kept;
  }

  /** Where the bytes of a kept stream are. */
  lemma KeptIn(handed: seq<Slice>, datas: seq<seq<byte>>, c: Chunk<Slice>, m: Chunk<seq<byte>>, slot: nat)
    requires Kept(handed, datas, c, m, slot)
    ensures c.data.Slice? ==> slot < |handed| == |datas| && handed[slot] == c.data && |datas[slot]| == c.length
    ensures c.data.Nil? ==> c.remain == 0
    ensures c.index + c.remain == c.length
  {
  }

  lemma NilIsEmpty(handed: seq<Slice>, datas: seq<seq<byte>>, c: Chunk<Slice>, m: Chunk<seq<byte>>, slot: nat)
    requires Kept(handed, datas, c, m, slot)
    ensures c.data.Nil? ==> c.remain == 0
  {
  }

  /** A stream kept in the pool holds what the model says, and the other way round. */
  lemma KeptHolds(pool: Pool, c: Chunk<Slice>, m: Chunk<seq<byte>>, slot: nat)
    requires pool.Valid() && ChunkInv(m)
    requires c.data.Slice? ==> slot < |pool.handed| && pool.handed[slot] == c.data
    ensures Kept(pool.handed, Datas(pool), c, m, slot) <==> Holds(c, m)
  {
    hide ChunkInv;
    InvFacts(m);
  }

  lemma InvFacts(m: Chunk<seq<byte>>)
    requires ChunkInv(m)
    ensures m.index + m.remain == m.length && |m.data| == m.index
  {
  }

  lemma SliceLength(pool: Pool, slot: nat)
    requires pool.Valid() && slot < |pool.handed|
    ensures pool.handed[slot].Slice? && |Datas(pool)[slot]| == pool.handed[slot].len
  {
  }

  lemma ReceivedIsPrefix(pool: Pool, slot: nat, n: nat)
    requires pool.Valid() && slot < |pool.handed| && pool.handed[slot].Slice? && n <= pool.handed[slot].len
    ensures |Datas(pool)[slot]| == pool.handed[slot].len
    ensures Received(pool.handed[slot], n) == Datas(pool)[slot][..n]
  {
  }

  /** The slot is after those of all streams and returned messages. */
  ghost predicate Newest(chunks: Streams, slots: Slots, history: seq<Returned>, slot: nat) {
    && (forall k :: k in chunks && k in slots && chunks[k].data.Slice? ==> slots[k] < slot)
    && (forall i :: 0 <= i < |history| ==> history[i].slot < slot)
  }

  lemma NextIsNewest(handed: seq<Slice>, datas: seq<seq<byte>>, chunks: Streams, model: Model,
                     slots: Slots, history: seq<Returned>)
    requires Consistent(handed, datas, chunks, model, slots, history) && |datas| == |handed|
    ensures Newest(chunks, slots, history, |handed|)
  {
    forall k | k in chunks && chunks[k].data.Slice?
      ensures slots[k] < |handed|
    {
      assert Kept(handed, datas, chunks[k], model[k], slots[k]);
    }
  }

  /** Reading on one stream keeps the connection consistent if it leaves alone the other slices
      and, of its own message, the bytes received so far. */
  lemma StillConsistent(handed: seq<Slice>, datas: seq<seq<byte>>, handed': seq<Slice>, datas': seq<seq<byte>>,
                        chunks: Streams, model: Model, slots: Slots, history: seq<Returned>, csid: uint32)
    requires Consistent(handed, datas, chunks, model, slots, history)
    requires handed <= handed' && |datas| == |handed| && |datas'| == |handed'| && csid in chunks
    requires forall j :: 0 <= j < |datas| && (chunks[csid].remain == 0 || j != slots[csid]) ==> datas'[j] == datas[j]
    requires chunks[csid].remain != 0 && chunks[csid].data.Slice? && slots[csid] < |datas| ==>
               var j, n := slots[csid], chunks[csid].index;
               n <= |datas[j]| == |datas'[j]| && datas'[j][..n] == datas[j][..n]
    ensures Consistent(handed', datas', chunks, model, slots, history)
  {
    hide ChunkInv, SameFields;
    NilIsEmpty(handed, datas, chunks[csid], model[csid], slots[csid]);
    forall k | k in chunks
      ensures Kept(handed', datas', chunks[k], model[k], slots[k])
    {
      assert Kept(handed, datas, chunks[k], model[k], slots[k]);
    }
  }

  /** Replacing one stream's state by one in the same slice, or in a slice newer than all others. */
  lemma StoringKeepsConsistent(handed: seq<Slice>, datas: seq<seq<byte>>, chunks: Streams, model: Model,
                               slots: Slots, history: seq<Returned>, k: uint32, c: Chunk<Slice>,
                               m: Chunk<seq<byte>>, slot: nat)
    requires Consistent(handed, datas, chunks, model, slots, history)
    requires Kept(handed, datas, c, m, slot)
    requires c.data.Nil? ==> k !in chunks
    requires c.data.Nil? || Newest(chunks, slots, history, slot)
             || (k in chunks && chunks[k].remain != 0 && slot == slots[k])
    ensures Consistent(handed, datas, chunks[k := c], model[k := m], slots[k := slot], history)
  {
    hide Kept;
    NilIsEmpty(handed, datas, c, m, slot);
    forall l | l in chunks
      ensures chunks[l].data.Nil? ==> chunks[l].remain == 0
    {
      NilIsEmpty(handed, datas, chunks[l], model[l], slots[l]);
    }
  }

  /** A message complete on one stream can be returned: nobody is filling its slice. */
  lemma ReturningKeepsConsistent(handed: seq<Slice>, datas: seq<seq<byte>>, chunks: Streams, model: Model,
                                 slots: Slots, history: seq<Returned>, k: uint32)
    requires Consistent(handed, datas, chunks, model, slots, history)
    requires k in chunks && k in slots && k in model && chunks[k].remain == 0 && chunks[k].data.Slice?
    ensures slots[k] < |datas| && datas[slots[k]] == model[k].data
    ensures Consistent(handed, datas, chunks, model, slots, history + [Returned(slots[k], model[k].data)])
  {
    assert Kept(handed, datas, chunks[k], model[k], slots[k]);
    var d, n := datas[slots[k]], chunks[k].index;
    assert d[..n] == d by { InvFacts(model[k]); }
  }

  class Conn {
    var chunkSize: uint32
    var remoteChunkSize: uint32
    var windowAckSize: uint32
    var remoteWindowAckSize: uint32
    var received: uint32
    var ackReceived: uint32
    var rw: ReadWriter
    var pool: Pool
    var chunks: map<uint32, Chunk<Slice>>
    ghost var model: map<uint32, Chunk<seq<byte>>>
    ghost var slots: map<uint32, nat>
    ghost var history: seq<Returned>

    ghost predicate Valid()
      reads this, pool, pool.bufs
    {
      pool.Valid() && Consistent(pool.handed, Datas(pool), chunks, model, slots, history)
    }

    ghost function State(): (st: ConnState)
      requires Valid()
      reads this, rw, pool, pool.bufs
      ensures ConnInv(st)
    {
      assert forall k :: k in chunks ==> Kept(pool.handed, Datas(pool), chunks[k], model[k], slots[k]);
      ConnState(chunkSize, remoteChunkSize, windowAckSize, remoteWindowAckSize, received,
                ackReceived, model, rw.Unread(), rw.output)
    }

    constructor (rw: ReadWriter)
      requires rw.readError == None && rw.output == []
      ensures Valid() && fresh(pool) && fresh(pool.bufs) && this.rw == rw
      ensures State() == ConnRoundTrip.NewConn(rw.input) && history == []
    {
      this.rw := rw;
      chunkSize, remoteChunkSize := 128, 128;
      windowAckSize, remoteWindowAckSize := 2500000, 2500000;
      received, ackReceived := 0, 0;
      pool := new Pool();
      chunks, model, slots, history := map[], map[], map[], [];
    }

    /** The state of a stream not seen before. */
    method Open(csid: uint32)
      requires Valid()
      modifies this`chunks, this`model, this`slots
      ensures Valid() && csid in chunks && csid in model && csid in slots
      ensures Kept(pool.handed, Datas(pool), chunks[csid], model[csid], slots[csid])
      ensures model == if csid in old(model) then old(model) else old(model)[csid := EmptyChunk([])]
    {
      hide Kept, Consistent, Pool.Valid, Datas, Contents, ChunkInv;
      ghost var datas := Datas(pool);
      SameStreams(pool.handed, datas, chunks, model, slots, history);
      if csid !in chunks {
        NothingKept(pool.handed, datas);
        StoringKeepsConsistent(pool.handed, datas, chunks, model, slots, history, csid, EmptyChunk(Nil), EmptyChunk([]), 0);
        chunks := chunks[csid := EmptyChunk(Nil)];
        model := model[csid := EmptyChunk([])];
        slots := slots[csid := 0];
        assert Datas(pool) == datas;
      }
      StreamIsKept(pool.handed, datas, chunks, model, slots, history, csid);
    }

    /** A copy of the state the basic header selects. */
    method Copy(csid: uint32, format: uint32) returns (cs: ChunkStream)
      requires Valid()
      modifies this`chunks, this`model, this`slots
      ensures Valid() && csid in chunks && fresh(cs)
      ensures model == if csid in old(model) then old(model) else old(model)[csid := EmptyChunk([])]
      ensures Holds(cs.Value(), Selected(old(State()), csid, format))
      ensures cs.data == chunks[csid].data && cs.remain == chunks[csid].remain && cs.index == chunks[csid].index
    {
      hide Consistent, ChunkInv, Holds, Kept, Pool.Valid, Datas, Contents;
      Open(csid);
      cs := new ChunkStream(chunks[csid]);
      KeptReselected(pool, chunks[csid], model[csid], slots[csid], format, csid);
      cs.tmpFormat := format;
      cs.csid := csid;
    }

    /** Reads a chunk into a copy of stream csid's state. What the map holds stays good, whether
        or not the chunk could be read. */
    method ReadIntoCopy(cs: ChunkStream, csid: uint32, ghost m: Chunk<seq<byte>>)
        returns (status: Status, ghost slot: nat)
      requires Valid() && csid in chunks
      requires ChunkInv(m) && Holds(cs.Value(), m)
      requires cs.data == chunks[csid].data && cs.remain == chunks[csid].remain && cs.index == chunks[csid].index
      modifies cs, rw`input, rw`readError, pool, pool.bufs
      ensures Valid() && old(pool.bufs) <= pool.bufs && old(pool.handed) <= pool.handed
      ensures forall a :: a in pool.bufs ==> a in old(pool.bufs) || fresh(a)
      ensures match ReadChunk(m, old(rw.Unread()), remoteChunkSize)
              case ChunkOk(m', s) => status == Ok && rw.Unread() == s && Holds(cs.Value(), m')
              case ChunkFailed(e, s) => status == Failed(e) && rw.Unread() == s
              case ChunkPanics => status == Panicked
      ensures status == Ok ==> cs.data.Slice? && cs.Owns(pool, slot)
      ensures status == Ok ==> if chunks[csid].remain != 0 then slot == slots[csid]
                               else Newest(chunks, slots, history, slot)
    {
      hide ChunkInv, ReadChunk, SameFields, Consistent, Newest, Kept, Received, Holds, Pool.Valid, Datas, Contents;
      ghost var handed, datas := pool.handed, Datas(pool);
      SameStreams(handed, datas, chunks, model, slots, history);
      StreamIsKept(handed, datas, chunks, model, slots, history, csid);
      ghost var n, j := chunks[csid].index, slots[csid];
      KeptIn(handed, datas, chunks[csid], model[csid], j);
      NextIsNewest(handed, datas, chunks, model, slots, history);
      if chunks[csid].remain != 0 {
        SliceLength(pool, j);
        ReceivedIsPrefix(pool, j, n);
      }
      status, slot := cs.ReadChunk(rw, remoteChunkSize, pool, m, j);
      if chunks[csid].remain != 0 {
        ReceivedIsPrefix(pool, j, n);
      }
      KeptApart(datas, Datas(pool), if chunks[csid].remain == 0 then |handed| else j);
      StillConsistent(handed, datas, pool.handed, Datas(pool), chunks, model, slots, history, csid);
    }

    /** Puts the copy back as the state of its stream. */
    method StoreBack(cs: ChunkStream, csid: uint32, ghost m: Chunk<seq<byte>>, ghost slot: nat)
      requires Valid() && csid in chunks
      requires ChunkInv(m) && Holds(cs.Value(), m) && cs.data.Slice? && cs.Owns(pool, slot)
      requires if chunks[csid].remain != 0 then slot == slots[csid] else Newest(chunks, slots, history, slot)
      modifies this`chunks, this`model, this`slots
      ensures Valid() && model == old(model)[csid := m]
      ensures Stored(csid, cs.Value(), slot)
    {
      hide ChunkInv, Holds, Kept, Consistent, Pool.Valid, Datas, Newest, Contents;
      KeptHolds(pool, cs.Value(), m, slot);
      ghost var datas := Datas(pool);
      StoringKeepsConsistent(pool.handed, datas, chunks, model, slots, history, csid, cs.Value(), m, slot);
      chunks := chunks[csid := cs.Value()];
      model := model[csid := m];
      slots := slots[csid := slot];
      assert Datas(pool) == datas;
    }

    /** The state of stream csid is c, in slice number `slot`. */
    ghost predicate Stored(csid: uint32, c: Chunk<Slice>, slot: nat)
      reads this, pool
    {
      && csid in chunks && csid in slots && csid in model && chunks[csid] == c && slots[csid] == slot
      && c.data.Slice? && slot < |pool.handed| && pool.handed[slot] == c.data
    }

    /** The chunk after the first byte of its basic header. */
    method ReadChunkOf(csid: uint32, format: uint32) returns (status: Status, cs: ChunkStream, ghost slot: nat)
      requires Valid()
      modifies this`chunks, this`model, this`slots, rw`input, rw`readError, pool, pool.bufs
      ensures Valid() && fresh(cs) && old(pool.bufs) <= pool.bufs && old(pool.handed) <= pool.handed
      ensures forall a :: a in pool.bufs ==> a in old(pool.bufs) || fresh(a)
      ensures match ReadChunk(Selected(old(State()), csid, format), old(rw.Unread()), remoteChunkSize)
              case ChunkOk(m, s) => status == Ok && rw.Unread() == s && model == old(model)[csid := m]
                && Holds(cs.Value(), m) && Stored(csid, cs.Value(), slot)
              case ChunkFailed(e, s) => status == Failed(e) && rw.Unread() == s
                && model == if csid in old(model) then old(model) else old(model)[csid := EmptyChunk([])]
              case ChunkPanics => status == Panicked
    {
      hide Valid, ChunkInv, Holds, ReadChunk, Newest, Stored, Selected, State;
      ghost var m := Selected(State(), csid, format);
      ghost var src := rw.Unread();
      cs := Copy(csid, format);
      status, slot := ReadIntoCopy(cs, csid, m);
      if status == Ok {
        StoreBack(cs, csid, ReadChunk(m, src, remoteChunkSize).cs, slot);
      }
    }

    /** One round of the read loop. */
    method ReadStep() returns (status: Status, cs: ChunkStream, ghost csid: uint32, ghost slot: nat)
      requires Valid()
      modifies this`chunks, this`model, this`slots, rw`input, rw`readError, pool, pool.bufs
      ensures Valid() && fresh(cs) && old(pool.bufs) <= pool.bufs && old(pool.handed) <= pool.handed
      ensures forall a :: a in pool.bufs ==> a in old(pool.bufs) || fresh(a)
      ensures match ChunkFormat.ReadStep(old(State()))
              case Stepped(m, s) => status == Ok && State() == s && Holds(cs.Value(), m)
                && Stored(csid, cs.Value(), slot) && model[csid] == m
              case StepFailed(e, s) => status == Failed(e) && State() == s
              case StepPanics => status == Panicked
    {
      hide Consistent, ChunkInv, Holds, ReadChunk, Stored, Pool.Valid, Datas, Contents;
      var h := rw.ReadUintBE(1);
      Pow256Values();
      csid := h % 64;
      status, cs, slot := ReadChunkOf(h % 64, h / 64);
    }
  
    /** A message under way complete: it is returned, and from now on its bytes stay as they are. */
    ghost method Return(csid: uint32, slot: nat)
      requires Valid() && csid in chunks && csid in model
      requires Stored(csid, chunks[csid], slot) && chunks[csid].remain == 0
      modifies this`history
      ensures Valid() && history == old(history) + [Returned(slot, model[csid].data)]
    {
      hide Consistent, Pool.Valid, Datas, Contents;
      ReturningKeepsConsistent(pool.handed, Datas(pool), chunks, model, slots, history, csid);
      history := history + [Returned(slot, model[csid].data)];
    }

    /** The read loop: rounds until a message is complete. */
    method ReadLoop() returns (status: Status, cs: ChunkStream)
      requires Valid()
      modifies this`chunks, this`model, this`slots, this`history, rw`input, rw`readError, pool, pool.bufs
      ensures Valid() && fresh(cs) && old(pool.bufs) <= pool.bufs && old(pool.handed) <= pool.handed
      ensures forall a :: a in pool.bufs ==> a in old(pool.bufs) || fresh(a)
      ensures match ChunkFormat.ReadLoop(old(State()))
              case ReadOk(m, s) => status == Ok && State() == s && Holds(cs.Value(), m)
                && ReturnedNow(old(history), cs.data, m.data)
              case ReadFailed(e, s) => status == Failed(e) && State() == s && history == old(history)
              case ReadPanics => status == Panicked && history == old(history)
    {
      hide Valid, Holds, ChunkInv, ChunkFormat.ReadStep;
      ghost var csid, slot;
      while true
        invariant Valid() && old(pool.bufs) <= pool.bufs && old(pool.handed) <= pool.handed
        invariant forall a :: a in pool.bufs ==> a in old(pool.bufs) || fresh(a)
        invariant history == old(history)
        invariant ChunkFormat.ReadLoop(State()) == ChunkFormat.ReadLoop(old(State()))
        decreases |rw.input|
      {
        ghost var st := State();
        status, cs, csid, slot := ReadStep();
        if status != Ok {
          return;
        }
        HoldsGot(cs.Value(), ChunkFormat.ReadStep(st).cs);
        if cs.got {
          Return(csid, slot);
          return;
        }
      }
    }

    /** The last message returned has these bytes, in this slice. */
    ghost predicate ReturnedNow(before: seq<Returned>, data: Slice, bytes: seq<byte>)
      reads this, pool
    {
      && |history| == |before| + 1 && history[..|before|] == before
      && history[|before|].bytes == bytes
      && history[|before|].slot < |pool.handed| && pool.handed[history[|before|].slot] == data
    }
  
    /** The slices of all returned messages still hold the bytes they were returned with. */
    lemma ReturnedBytes()
      requires Valid()
      ensures forall i :: 0 <= i < |history| ==>
                history[i].slot < |pool.handed| && Fits(pool.handed[history[i].slot])
                && Contents(pool.handed[history[i].slot]) == history[i].bytes
    {
    }

    /** The first four bytes of a message, as a number. Too short a message is a panic. */
    method Uint32(data: Slice) returns (v: Option<uint32>)
      requires Fits(data)
      ensures v == if |Contents(data)| < 4 then None else Some(Word(Contents(data)))
    {
      if data.Nil? || data.len < 4 {
        return None;
      }
      assert Contents(data)[..4] == data.buf[data.off..data.off + 4];
      Pow256Small(4);
      v := Some(FromBE(data.buf[data.off..data.off + 4]));
    }

    /** What a control message changes on this side. */
    method HandleControlMsg(c: ChunkStream, ghost m: Chunk<seq<byte>>) returns (ok: bool)
      requires Valid() && Holds(c.Value(), m) && |m.data| == m.length
      modifies this`remoteChunkSize, this`remoteWindowAckSize
      ensures Valid()
      ensures match HandleControl(old(State()), m)
              case Some(s) => ok && State() == s
              case None => !ok && State() == old(State())
    {
      hide Consistent, Pool.Valid, Holds, Datas, Contents, Fits, ConnInv, ChunkInv, Kept, FromBE;
      WholeMessage(c.Value(), m);
      ok := true;
      if c.typeID == ID_SET_CHUNK_SIZE {
        var v := Uint32(c.data);
        if v.None? {
          return false;
        }
        remoteChunkSize := v.value;
      } else if c.typeID == ID_WINDOW_ACK_SIZE {
        var v := Uint32(c.data);
        if v.None? {
          return false;
        }
        remoteWindowAckSize := v.value;
      }
    }

    /** A control message with a number as its payload, and zeros behind it. Null is a panic. */
    method InitControlMsg(id: uint32, size: uint32, value: uint32) returns (r: ChunkStream?)
      ensures r == null <==> size < 4
      ensures r != null ==>
                && fresh(r) && Fits(r.data) && r.length == |Contents(r.data)| == size
                && r.Outgoing().(data := []) == Message(2, 0, id, 0, [])
                && Contents(r.data) == BE(value, 4) + seq(size - 4, i => 0)
    {
      if size < 4 {
        return null;
      }
      var payload := BE(value, 4);
      var data := new byte[size](i => if 0 <= i < 4 then payload[i] else 0);
      assert data[..4] == payload;
      r := new ChunkStream(EmptyChunk(Slice(data, 0, size)).(csid := 2, typeID := id, length := size));
      assert Contents(r.data) == data[..];
    }

    /** Counts received bytes and acknowledges them when the peer's window is full. */
    method Ack(size: uint32) returns (ok: bool)
      requires Valid()
      modifies this`received, this`ackReceived, rw`output
      ensures Valid()
      ensures match Acknowledge(old(State()), size)
              case Some(s) => ok && State() == s
              case None => !ok
    {
      hide Consistent, Pool.Valid, Datas, Contents, Kept, ChunksFrom, BE;
      received := Add32(received, size);
      ackReceived := Add32(ackReceived, size);
      if received >= 0xf0000000 {
        received := 0;
      }
      ok := true;
      if ackReceived >= remoteWindowAckSize {
        var cs := InitControlMsg(ID_ACK, 4, ackReceived);
        assert Contents(cs.data) == BE(ackReceived, 4);
        var status := cs.WriteChunk(rw, chunkSize);
        if status != Ok {
          return false;
        }
        ackReceived := 0;
      }
    }

    /** Reads the next message into c. Every message returned before keeps its bytes. */
    method Read(c: ChunkStream) returns (status: Status)
      requires Valid()
      modifies this, c, rw, pool, pool.bufs
      ensures rw == old(rw) && pool == old(pool)
      ensures Valid() && old(pool.handed) <= pool.handed && old(history) <= history
      ensures match ReadMessage(old(State()))
              case ReadOk(m, s) => status == Ok && State() == s && Holds(c.Value(), m)
                && ReturnedNow(old(history), c.data, m.data)
              case ReadFailed(e, s) => status == Failed(e) && State() == s && history == old(history)
              case ReadPanics => status == Panicked
      ensures forall i :: 0 <= i < |old(history)| ==>
                Contents(pool.handed[old(history)[i].slot]) == old(Contents(pool.handed[history[i].slot]))
    {
      ReturnedBytes();
      hide Valid, Holds, ReadMessage, ReturnedNow, State;
      status := ReadNext(c);
      ReturnedBytes();
    }

    /** The body of Read. */
    method ReadNext(c: ChunkStream) returns (status: Status)
      requires Valid()
      modifies this, c, rw, pool, pool.bufs
      ensures rw == old(rw) && pool == old(pool)
      ensures Valid() && old(pool.handed) <= pool.handed && old(history) <= history
      ensures match ReadMessage(old(State()))
              case ReadOk(m, s) => status == Ok && State() == s && Holds(c.Value(), m)
                && ReturnedNow(old(history), c.data, m.data)
              case ReadFailed(e, s) => status == Failed(e) && State() == s && history == old(history)
              case ReadPanics => status == Panicked
    {
      hide Valid, Holds, ChunkInv, ChunkFormat.ReadLoop, HandleControl, Acknowledge;
      var cs;
      status, cs := ReadLoop();
      if status != Ok {
        return;
      }
      ghost var m := ChunkFormat.ReadLoop(old(State())).msg;
      c.Set(cs.Value());
      InvFacts(m);
      status := Deliver(c, m);
    }

    /** What follows the read loop: the message takes effect and is acknowledged. */
    method Deliver(c: ChunkStream, ghost m: Chunk<seq<byte>>) returns (status: Status)
      requires Valid() && Holds(c.Value(), m) && |m.data| == m.length
      modifies this`remoteChunkSize, this`remoteWindowAckSize, this`received, this`ackReceived, rw`output
      ensures Valid()
      ensures match HandleControl(old(State()), m)
              case None => status == Panicked
              case Some(s) =>
                match Acknowledge(s, m.length)
                case None => status == Panicked
                case Some(s') => status == Ok && State() == s'
    {
      HoldsLength(c.Value(), m);
      hide Valid, Holds, HandleControl, Acknowledge;
      var ok := HandleControlMsg(c, m);
      if ok {
        ok := Ack(c.length);
      }
      status := if ok then Ok else Panicked;
    }

    /** Writes c. A Set Chunk Size message takes effect before it is written itself. */
    method Write(c: ChunkStream) returns (status: Status)
      requires Valid() && Fits(c.data) && c.length == |Contents(c.data)|
      modifies this`chunkSize, c`csid, c`format, rw`output
      ensures Valid()
      ensures match WriteMessage(old(State()), old(c.Outgoing()))
              case WriteOk(s) => status == Ok && State() == s
              case WriteFailed(e, s) => status == Failed(e) && State() == s
              case WritePanics => status == Panicked
    {
      hide Consistent, Pool.Valid, ChunksFrom, BasicHeader, ConnInv, ChunkInv, Kept, Datas, Contents;
      if c.typeID == ID_SET_CHUNK_SIZE {
        var v := Uint32(c.data);
        if v.None? {
          return Panicked;
        }
        chunkSize := v.value;
      }
      status := c.WriteChunk(rw, chunkSize);
    }
  }

  /** A complete message is all of its slice. */
  lemma WholeMessage(c: Chunk<Slice>, m: Chunk<seq<byte>>)
    requires Holds(c, m) && |m.data| == m.length
    ensures Fits(c.data) && Contents(c.data) == m.data && c.typeID == m.typeID
  {
    assert Contents(c.data)[..c.index] == Contents(c.data);
  }

  lemma HoldsGot(c: Chunk<Slice>, m: Chunk<seq<byte>>)
    requires Holds(c, m) && ChunkInv(m)
    ensures c.got == m.got && (c.got ==> c.remain == 0)
  {
  }

  lemma HoldsLength(c: Chunk<Slice>, m: Chunk<seq<byte>>)
    requires Holds(c, m)
    ensures c.length == m.length
  {
  }

  lemma KeptReselected(pool: Pool, c: Chunk<Slice>, m: Chunk<seq<byte>>, slot: nat, format: uint32, csid: uint32)
    requires pool.Valid() && Kept(pool.handed, Datas(pool), c, m, slot)
    ensures ChunkInv(m.(tmpFormat := format, csid := csid))
    ensures Holds(c.(tmpFormat := format, csid := csid), m.(tmpFormat := format, csid := csid))
  {
    KeptHolds(pool, c, m, slot);
  }
}
