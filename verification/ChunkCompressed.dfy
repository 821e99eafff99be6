/** Senders that leave out of their headers what the message before already said (sections 5.3.1.2.2 to
    5.3.1.2.4 of the RTMP specification). The reader follows them, except where it takes the extended
    field that a sender repeats before every chunk for data, and where a message without any header
    follows a full one. */
module ChunkCompressed {
  import opened Bytes
  import opened Wire
  import opened ChunkFormat
  import opened ChunkDemux

  /** The time difference a sender writes or implies. After a full header it is that header's time. */
  function Implied(cs: Chunk<seq<byte>>): uint32 {
    if cs.format == 0 then cs.timestamp else cs.timeDelta
  }

  /** The message may be sent behind the one before with header form f and this time difference. */
  predicate Conforms(cs: Chunk<seq<byte>>, m: Message, f: uint32, delta: uint32) {
    && WireOk(m) && f <= 3 && cs.remain == 0
    && (f != 0 ==> m.timestamp == Add32(cs.timestamp, delta) && m.streamID == cs.streamID)
    && (f >= 2 ==> m.typeID == cs.typeID && |m.data| == cs.length)
    && (f == 3 ==> delta == Implied(cs) && cs.exted == (delta >= EXTENDED))
  }

  /** The header fields behind the basic header. */
  function FormFields(m: Message, f: uint32, delta: uint32): seq<byte> {
    if f == 0 then FirstFields(m)
    else if f == 1 then BE(Clamp(delta), 3) + (BE(|m.data|, 3) + (BE(m.typeID, 1) + ExtendedTimestamp(delta)))
    else if f == 2 then BE(Clamp(delta), 3) + ExtendedTimestamp(delta)
    else ExtendedTimestamp(delta)
  }

  /** The state holds the first `off` bytes of the message. */
  predicate HoldsPart(cs: Chunk<seq<byte>>, m: Message, off: nat) {
    && off <= |m.data| < 0x1_0000_0000 && ChunkInv(cs)
    && cs.timestamp == m.timestamp && cs.length == |m.data| && cs.typeID == m.typeID && cs.streamID == m.streamID
    && cs.index == off && cs.remain == |m.data| - off && cs.data == m.data[..off] && (cs.got <==> off == |m.data|)
  }

  /** The fields of the state that say how its last header was written. */
  predicate LastHeader(h: Chunk<seq<byte>>, cs: Chunk<seq<byte>>, m: Message, f: uint32, delta: uint32) {
    if f == 0 then h.format == 0 && h.exted == (m.timestamp >= EXTENDED)
    else if f == 3 then h.format == cs.format && h.exted == cs.exted && h.timeDelta == cs.timeDelta
    else h.format == f && h.exted == (delta >= EXTENDED) && h.timeDelta == delta
  }

  // ----- The first header -----------------------------------------------------------------------

  lemma Form1Read(cs: Chunk<seq<byte>>, m: Message, delta: uint32, rest: seq<byte>)
    requires Conforms(cs, m, 1, delta)
    ensures Fields1(cs, Source(FormFields(m, 1, delta) + rest, None))
         == (cs.(format := 1, length := |m.data|, typeID := m.typeID, exted := delta >= EXTENDED, timeDelta := delta,
                 timestamp := m.timestamp), Source(rest, None))
  {
    hide BE, TakeBE, ReadExtended, ExtendedTimestamp, WireOk, Pow256, Clamp;
    Pow256Values();
    WireBounds(m);
    ClampFits(delta);
    var a, b, c, d := BE(Clamp(delta), 3), BE(|m.data|, 3), BE(m.typeID, 1), ExtendedTimestamp(delta);
    Regroup(a, b + (c + d), rest);
    Regroup(b, c + d, rest);
    Regroup(c, d, rest);
    TakeBEOfBE(Clamp(delta), 3, b + (c + (d + rest)));
    TakeBEOfBE(|m.data|, 3, c + (d + rest));
    TakeBEOfBE(m.typeID, 1, d + rest);
    ExtendedRead(delta, rest);
  }

  lemma ClampFits(t: uint32)
    ensures Clamp(t) < Pow256(3)
  {
    Pow256Values();
  }

  lemma Form2Read(cs: Chunk<seq<byte>>, m: Message, delta: uint32, rest: seq<byte>)
    requires Conforms(cs, m, 2, delta)
    ensures Fields2(cs, Source(FormFields(m, 2, delta) + rest, None))
         == (cs.(format := 2, exted := delta >= EXTENDED, timeDelta := delta, timestamp := m.timestamp),
             Source(rest, None))
  {
    Pow256Values();
    var r1 := ExtendedTimestamp(delta) + rest;
    assert FormFields(m, 2, delta) + rest == BE(Clamp(delta), 3) + r1;
    TakeBEOfBE(Clamp(delta), 3, r1);
    ExtendedRead(delta, rest);
  }

  /** A message without header: behind a full header the reader takes over the time instead of adding
      it once more. */
  lemma Form3Read(cs: Chunk<seq<byte>>, m: Message, delta: uint32, rest: seq<byte>)
    requires Conforms(cs, m, 3, delta) && cs.format <= 2
    ensures Fields3(cs, Source(FormFields(m, 3, delta) + rest, None))
         == (cs.(timestamp := if cs.format == 0 then cs.timestamp else m.timestamp), Source(rest, None))
  {
    Pow256Values();
    if cs.exted {
      TakeBEOfBE(delta, 4, rest);
    } else {
      assert [] + rest == rest;
    }
  }

  lemma Twice(t: uint32)
    ensures Add32(t, t) == t <==> t == 0
  {
  }

  /** The first header is read as it was meant exactly unless it is left out altogether behind a full one
      with a time other than zero. */
  lemma FirstHeaderExactly(cs: Chunk<seq<byte>>, m: Message, f: uint32, delta: uint32, rest: seq<byte>)
    requires ChunkInv(cs) && Conforms(cs, m, f, delta)
    ensures var r := ReadMessageHeader(cs.(tmpFormat := f), Source(FormFields(m, f, delta) + rest, None));
      && r.ChunkOk? && r.src == Source(rest, None) && ChunkInv(r.cs) && !r.cs.got
      && LastHeader(r.cs, cs, m, f, delta)
      && HoldsPart(r.cs.(timestamp := m.timestamp), m, 0)
      && (r.cs.timestamp == m.timestamp <==> !(f == 3 && cs.format == 0 && cs.timestamp != 0))
  {
    hide FormFields, Fields0, Fields1, Fields2, Fields3;
    var c := cs.(tmpFormat := f);
    SameFields(cs, m, f, delta);
    if f == 0 {
      FullHeader(cs, m, rest);
    } else if f == 1 {
      Form1Read(c, m, delta, rest);
    } else if f == 2 {
      Form2Read(c, m, delta, rest);
    } else {
      Form3Read(c, m, delta, rest);
      Twice(cs.timestamp);
    }
  }

  lemma SameFields(cs: Chunk<seq<byte>>, m: Message, f: uint32, delta: uint32)
    requires Conforms(cs, m, f, delta)
    ensures Conforms(cs.(tmpFormat := f), m, f, delta)
  {
  }

  lemma FullHeader(cs: Chunk<seq<byte>>, m: Message, rest: seq<byte>)
    requires ChunkInv(cs) && WireOk(m)
    ensures var r := ReadHeader0(cs.(tmpFormat := 0), Source(FormFields(m, 0, 0) + rest, None));
      && r.ChunkOk? && r.src == Source(rest, None) && ChunkInv(r.cs) && !r.cs.got
      && r.cs.format == 0 && r.cs.exted == (m.timestamp >= EXTENDED) && HoldsPart(r.cs, m, 0)
    ensures forall delta :: FormFields(m, 0, delta) == FormFields(m, 0, 0)
  {
    hide Fields0, FirstFields, WireOk;
    Header0Read(cs.(tmpFormat := 0), m, rest);
    WireBounds(m);
  }

  lemma WireBounds(m: Message)
    requires WireOk(m)
    ensures 0 < |m.data| <= 512000 && m.typeID < 256
  {
  }

  // ----- Later chunks ---------------------------------------------------------------------------

  /** Before more of a message the sender repeats the extended field of its header. */
  function Repeated(h: Chunk<seq<byte>>): seq<byte> {
    if h.exted then BE(Implied(h), 4) else []
  }

  /** The reader skips it exactly if it equals the message's time: always behind a full header, but for a
      time difference only if the time before was zero. */
  lemma RepeatedExactly(h: Chunk<seq<byte>>, rest: seq<byte>)
    requires ChunkInv(h) && h.remain != 0
    ensures var r := ReadMessageHeader(h.(tmpFormat := 3), Source(Repeated(h) + rest, None));
      r == ChunkOk(h.(tmpFormat := 3), Source(rest, None)) <==> (h.exted ==> Implied(h) == h.timestamp)
  {
    var s := Repeated(h) + rest;
    if h.exted {
      Pow256Values();
      FromBEInvertsBE(Implied(h), 4);
      Unjoin(BE(Implied(h), 4), rest);
      assert |s| == 4 + |rest|;
    } else {
      assert s == rest;
    }
  }

  /** Header and payload, behind the basic header. */
  function ReadBody(cs: Chunk<seq<byte>>, src: Source, size: uint32): ChunkResult
    requires ChunkInv(cs)
  {
    var h := ReadMessageHeader(cs, src);
    if h.ChunkOk? then ReadPayload(h.cs, h.src, size) else h
  }

  /** Reading a chunk is reading the rest of its basic header and then its body. */
  lemma ChunkIsBody(cs: Chunk<seq<byte>>, src: Source, size: uint32)
    requires ChunkInv(cs) && (cs.remain == 0 || cs.tmpFormat == 3)
    ensures var (id, s) := ReadCsid(cs.csid, src);
      ReadChunk(cs, src, size) == ReadBody(cs.(csid := id), s, size)
  {
  }

  function Part(m: Message, off: nat, size: nat): seq<byte>
    requires off <= |m.data|
  {
    m.data[off..Min(off + size, |m.data|)]
  }

  /** Each of the chunks from `off` on, given just its bytes, is consumed and leaves the state with the
      message so far. */
  predicate LaterInStep(h: Chunk<seq<byte>>, m: Message, off: nat, size: uint32)
    requires ChunkInv(h) && size > 0
    decreases |m.data| - off
  {
    off >= |m.data| ||
    var r := ReadBody(h.(tmpFormat := 3), Source(Repeated(h) + Part(m, off, size), None), size);
    && r.ChunkOk? && r.src == Source([], None) && HoldsPart(r.cs, m, Min(off + size, |m.data|))
    && LaterInStep(r.cs, m, off + size, size)
  }

  /** The same for a whole message. */
  predicate InStep(cs: Chunk<seq<byte>>, m: Message, f: uint32, delta: uint32, size: uint32)
    requires ChunkInv(cs) && size > 0
  {
    var r := ReadBody(cs.(tmpFormat := f), Source(FormFields(m, f, delta) + Part(m, 0, size), None), size);
    && r.ChunkOk? && r.src == Source([], None) && HoldsPart(r.cs, m, Min(size, |m.data|))
    && LaterInStep(r.cs, m, size, size)
  }

  lemma PartRead(h: Chunk<seq<byte>>, m: Message, off: nat, size: uint32, rest: seq<byte>)
    requires HoldsPart(h, m, off) && off < |m.data| && size > 0
    ensures var r := ReadPayload(h, Source(Part(m, off, size) + rest, None), size);
      && r.ChunkOk? && r.src == Source(rest, None) && HoldsPart(r.cs, m, Min(off + size, |m.data|))
      && r.cs.format == h.format && r.cs.exted == h.exted && r.cs.timeDelta == h.timeDelta && r.cs.csid == h.csid
  {
    var run := Part(m, off, size);
    Unjoin(run, rest);
    assert m.data[..off] + run == m.data[..Min(off + size, |m.data|)];
  }

  /** A payload never gives more to the message than it has left, so whatever else is there stays. */
  lemma PayloadTakes(h: Chunk<seq<byte>>, src: Source, size: uint32)
    requires ChunkInv(h) && src.err.None?
    ensures var r := ReadPayload(h, src, size);
      r.ChunkOk? ==> |r.src.input| == |src.input| - Min(h.remain, size) && r.cs.timestamp == h.timestamp
  {
  }

  lemma {:induction false} LaterExactly(h: Chunk<seq<byte>>, m: Message, off: nat, size: uint32)
    requires size > 0 && HoldsPart(h, m, Min(off, |m.data|))
    ensures LaterInStep(h, m, off, size)
       <==> off >= |m.data| || !h.exted || Implied(h) == h.timestamp
    decreases |m.data| - off
  {
    hide ReadMessageHeader, ReadPayload;
    if off < |m.data| {
      var part := Part(m, off, size);
      RepeatedExactly(h, part);
      if h.exted && Implied(h) != h.timestamp {
        TakenForData(h, m, off, size);
      } else {
        PartRead(h.(tmpFormat := 3), m, off, size, []);
        assert part + [] == part;
        var r := ReadBody(h.(tmpFormat := 3), Source(Repeated(h) + part, None), size);
        LaterExactly(r.cs, m, off + size, size);
      }
    }
  }

  /** The repeated field is taken for data, and four bytes of the chunk are left over. */
  lemma TakenForData(h: Chunk<seq<byte>>, m: Message, off: nat, size: uint32)
    requires size > 0 && HoldsPart(h, m, off) && off < |m.data| && h.exted && Implied(h) != h.timestamp
    ensures var r := ReadBody(h.(tmpFormat := 3), Source(Repeated(h) + Part(m, off, size), None), size);
      r.ChunkOk? ==> |r.src.input| == 4
  {
    hide ReadPayload;
    var s := Source(Repeated(h) + Part(m, off, size), None);
    Pow256Values();
    FromBEInvertsBE(Implied(h), 4);
    Unjoin(BE(Implied(h), 4), Part(m, off, size));
    assert ReadMessageHeader(h.(tmpFormat := 3), s) == ChunkOk(h.(tmpFormat := 3), s);
    PayloadTakes(h.(tmpFormat := 3), s, size);
  }

  /** When a message with a shortened header is read in step with its sender. */
  predicate Followed(cs: Chunk<seq<byte>>, m: Message, f: uint32, delta: uint32, size: uint32) {
    && !(f == 3 && cs.format == 0 && cs.timestamp != 0)
    && (|m.data| > size && f != 0 && delta >= EXTENDED ==> cs.timestamp == 0)
  }

  /** The reader stays in step with a sender that shortens its headers if and only if no message without
      header follows a full one with a time other than zero, and no message of several chunks has an
      extended time difference, unless the time before it was zero. */
  lemma InStepExactly(cs: Chunk<seq<byte>>, m: Message, f: uint32, delta: uint32, size: uint32)
    requires ChunkInv(cs) && Conforms(cs, m, f, delta) && size > 0
    ensures InStep(cs, m, f, delta, size) <==> Followed(cs, m, f, delta, size)
  {
    hide ReadMessageHeader, ReadPayload, FormFields, LaterInStep, WireOk;
    WireBounds(m);
    var part := Part(m, 0, size);
    FirstHeaderExactly(cs, m, f, delta, part);
    var h := ReadMessageHeader(cs.(tmpFormat := f), Source(FormFields(m, f, delta) + part, None)).cs;
    PayloadTakes(h, Source(part, None), size);
    if f == 3 && cs.format == 0 && cs.timestamp != 0 {
      assert h.timestamp != m.timestamp;
    } else {
      assert h.(timestamp := m.timestamp) == h;
      PartRead(h, m, 0, size, []);
      assert part + [] == part;
      var r := ReadPayload(h, Source(part, None), size);
      LaterExactly(r.cs, m, size, size);
      ImpliedAfter(cs, m, f, delta, r.cs);
    }
  }

  lemma ImpliedAfter(cs: Chunk<seq<byte>>, m: Message, f: uint32, delta: uint32, h: Chunk<seq<byte>>)
    requires Conforms(cs, m, f, delta) && LastHeader(h, cs, m, f, delta) && h.timestamp == m.timestamp
    requires !(f == 3 && cs.format == 0 && cs.timestamp != 0)
    ensures h.exted ==> (Implied(h) == h.timestamp <==> f == 0 || cs.timestamp == 0)
    ensures f != 0 ==> h.exted == (delta >= EXTENDED)
  {
  }
}
