/** The cache for late joiners: a ring of GOPs and the last packet of each special kind. */
module GopCaches {
  import opened Bytes
  import opened Av
  import G = GopFormat

  /** Where packets are sent to. */
  class Sink {
    var got: seq<Packet>

    constructor ()
      ensures got == []
    {
      got := [];
    }

    method Write(p: Packet)
      modifies this
      ensures got == old(got) + [p]
    {
      got := got + [p];
    }
  }

  class Gop {
    var index: nat
    var packets: seq<Packet>

    ghost predicate Valid()
      reads this
    {
      index == |packets|
    }

    constructor ()
      ensures Valid() && packets == []
    {
      index, packets := 0, [];
    }

    method Reset()
      modifies this
      ensures Valid() && packets == []
    {
      index := 0;
      packets := packets[..0];
    }

    /** A packet beyond the capacity is refused; no caller looks at that. */
    method Write(p: Packet)
      requires Valid()
      modifies this
      ensures Valid() && packets == G.Append(old(packets), p)
    {
      if index >= G.MAX_GOP_CAP {
        return;
      }
      packets := packets + [p];
      index := index + 1;
    }

    method Send(w: Sink)
      requires Valid()
      modifies w
      ensures w.got == old(w.got) + packets
    {
      assert packets[..0] == [] && w.got + [] == w.got;
      for i := 0 to index
        invariant w.got == old(w.got) + packets[..i]
      {
        w.Write(packets[i]);
        assert packets[..i + 1] == packets[..i] + [packets[i]];
        Regroup(old(w.got), packets[..i], [packets[i]]);
      }
      assert packets[..index] == packets;
    }
  }

  class GopCache {
    var start: bool
    var num: nat
    var nextindex: nat
    const gops: array<Gop?>
    ghost var ring: G.Ring

    /** The ring on values is what the slots stand for; no two slots share a GOP. */
    ghost predicate Valid()
      reads this, gops, gops[..]
    {
      && ring.start == start && ring.num == num && ring.nextindex == nextindex
      && |ring.gops| == gops.Length
      && (forall i | 0 <= i < gops.Length ::
            if gops[i] == null then ring.gops[i] == None
            else gops[i].Valid() && ring.gops[i] == Some(gops[i].packets))
      && forall i, j | 0 <= i < j < gops.Length && gops[i] != null :: gops[i] != gops[j]
    }

    constructor (count: nat)
      ensures Valid() && ring == G.Empty(count) && fresh(gops) && forall i | 0 <= i < gops.Length :: gops[i] == null
    {
      start, num, nextindex := false, 0, 0;
      gops := new Gop?[count](_ => null);
      ring := G.Empty(count);
    }

    /** Puts a packet into a slot's GOP; an empty slot first gets one. */
    method Fill(i: nat, p: Packet, startNew: bool)
      requires Valid() && i < gops.Length && (startNew || gops[i] != null)
      modifies this`num, this`ring, gops, gops[i]
      ensures Valid() && start == old(start) && nextindex == old(nextindex)
      ensures num == if old(gops[i]) == null then old(num) + 1 else old(num)
      ensures ring.gops == old(ring).gops[i := Some(if startNew then [p] else G.Append(old(ring).gops[i].value, p))]
      ensures fresh(gops[i]) || gops[i] == old(gops[i])
      ensures forall j | 0 <= j < gops.Length && j != i :: gops[j] == old(gops[j])
    {
      var ginc := gops[i];
      if ginc == null {
        ginc := new Gop();
        num := num + 1;
        gops[i] := ginc;
      } else if startNew {
        ginc.Reset();
      }
      assert G.Append([], p) == [p];
      ginc.Write(p);
      ring := ring.(num := num, gops := ring.gops[i := Some(ginc.packets)]);
    }

    /** Starts a GOP in the next slot or goes on with the one behind it. False is a panic: an index
        beyond the slots, or a slot that is nil. */
    method WriteToArray(p: Packet, startNew: bool) returns (ok: bool)
      requires Valid()
      modifies this`num, this`nextindex, this`ring, gops, gops[..]
      ensures var r := if startNew then G.StartGop(old(ring), p) else G.ContinueGop(old(ring), p);
        ok == r.Some? && if ok then Valid() && ring == r.value && start == old(start) else ring == old(ring)
      ensures forall i | 0 <= i < gops.Length :: gops[i] == old(gops[i]) || fresh(gops[i])
    {
      if startNew {
        if nextindex >= gops.Length {
          return false;
        }
        var i := nextindex;
        Fill(i, p, true);
        nextindex := (nextindex + 1) % gops.Length;
        ring := ring.(nextindex := nextindex);
      } else {
        if gops.Length == 0 {
          return false;
        }
        var i := (nextindex + 1) % gops.Length;
        if gops[i] == null {
          return false;
        }
        Fill(i, p, false);
      }
      ok := true;
    }

    /** False is a panic, as for a picture whose header is not known. */
    method Write(p: Packet) returns (ok: bool)
      requires Valid()
      modifies this`start, this`num, this`nextindex, this`ring, gops, gops[..]
      ensures var r := G.Write(old(ring), p);
        ok == (r.Some? && p.kind != Video(None)) && (ok ==> Valid() && ring == r.value)
      ensures forall i | 0 <= i < gops.Length :: gops[i] == old(gops[i]) || fresh(gops[i])
    {
      ok := true;
      var key := false;
      if p.kind.Video? {
        if p.kind.vh.None? {
          return false;
        }
        key := p.kind.vh.value.isKeyFrame && !p.kind.vh.value.isSeq;
      }
      if key || start {
        start := true;
        ring := ring.(start := true);
        ok := WriteToArray(p, key);
      }
    }

    /** Sends the GOPs, oldest first. False is a panic. */
    method SendTo(w: Sink) returns (ok: bool)
      requires Valid()
      modifies w
      ensures var sent := G.Send(ring);
        ok == sent.Some? && (ok ==> w.got == old(w.got) + sent.value)
    {
      if gops.Length == 0 {
        return false;
      }
      var pos: int := (nextindex + 1) % gops.Length;
      ghost var sofar := [];
      assert w.got + [] == w.got;
      Before([], G.SendFrom(ring, 0));
      for i := 0 to num
        invariant w.got == old(w.got) + sofar
        invariant G.SendFrom(ring, 0) == Behind(sofar, G.SendFrom(ring, i))
      {
        var index := (pos - num + 1) + i;
        if index < 0 {
          index := index + gops.Length;
        }
        if index < 0 || index >= gops.Length {
          return false;
        }
        var g := gops[index];
        if g == null {
          return false;
        }
        g.Send(w);
        Regroup(old(w.got), sofar, g.packets);
        if G.SendFrom(ring, i + 1).Some? {
          Regroup(sofar, g.packets, G.SendFrom(ring, i + 1).value);
        }
        sofar := sofar + g.packets;
      }
      assert sofar + [] == sofar;
      ok := true;
    }
  }

  function Behind(sofar: seq<Packet>, more: Option<seq<Packet>>): Option<seq<Packet>> {
    if more.None? then None else Some(sofar + more.value)
  }

  lemma Before(sofar: seq<Packet>, more: Option<seq<Packet>>)
    ensures sofar == [] ==> Behind(sofar, more) == more
  {
    if more.Some? {
      assert [] + more.value == more.value;
    }
  }

  // ----- The whole cache ------------------------------------------------------------------------

  /** The last packet of each special kind and the packets that went to the ring. */
  datatype Stored = Stored(metadata: Option<Packet>, videoSeq: Option<Packet>, audioSeq: Option<Packet>,
                           ring: seq<Packet>)

  predicate IsMetadata(p: Packet) {
    p.kind.Metadata?
  }

  predicate IsAudioSeq(p: Packet) {
    p.kind.Audio? && p.kind.ah.Some? && p.kind.ah.value == AudioHeader(10, 0)
  }

  predicate IsVideoSeq(p: Packet) {
    p.kind.Video? && p.kind.vh.Some? && p.kind.vh.value.isSeq
  }

  /** Pictures, and audio whose header is not known. */
  predicate ForRing(p: Packet) {
    (p.kind.Audio? && p.kind.ah.None?) || (p.kind.Video? && p.kind.vh.Some? && !p.kind.vh.value.isSeq)
  }

  function Route(s: Stored, p: Packet): Stored {
    match p.kind
    case Metadata => s.(metadata := Some(p))
    case Audio(Some(ah)) =>
      if ah.soundFormat == SOUND_AAC && ah.aacPacketType == AAC_SEQHDR then s.(audioSeq := Some(p)) else s
    case Audio(None) => s.(ring := s.ring + [p])
    case Video(Some(vh)) => if vh.isSeq then s.(videoSeq := Some(p)) else s.(ring := s.ring + [p])
    case Video(None) => s
  }

  function RouteAll(ps: seq<Packet>): Stored {
    if ps == [] then Stored(None, None, None, []) else Route(RouteAll(ps[..|ps| - 1]), ps[|ps| - 1])
  }

  /** The last packet of a kind. */
  ghost predicate IsLatest(o: Option<Packet>, ps: seq<Packet>, kind: Packet -> bool) {
    match o
    case None => forall i | 0 <= i < |ps| :: !kind(ps[i])
    case Some(p) =>
      exists i :: 0 <= i < |ps| && ps[i] == p && kind(p) && forall j | i < j < |ps| :: !kind(ps[j])
  }

  /** The packets of a kind, in order. */
  function Filter(ps: seq<Packet>, kind: Packet -> bool): seq<Packet> {
    if ps == [] then []
    else Filter(ps[..|ps| - 1], kind) + if kind(ps[|ps| - 1]) then [ps[|ps| - 1]] else []
  }

  /** The special caches hold the latest of their kind, the ring was given all pictures in order;
      audio with a known header is kept nowhere, apart from the latest sequence header. */
  lemma {:induction false} RouteKeepsLatest(ps: seq<Packet>)
    ensures var s := RouteAll(ps);
      && IsLatest(s.metadata, ps, IsMetadata)
      && IsLatest(s.audioSeq, ps, IsAudioSeq) && IsLatest(s.videoSeq, ps, IsVideoSeq)
      && s.ring == Filter(ps, ForRing)
  {
    if ps != [] {
      var n := |ps| - 1;
      var s := RouteAll(ps[..n]);
      RouteKeepsLatest(ps[..n]);
      LatestNext(s.metadata, ps, IsMetadata);
      LatestNext(s.audioSeq, ps, IsAudioSeq);
      LatestNext(s.videoSeq, ps, IsVideoSeq);
    }
  }

  lemma LatestNext(o: Option<Packet>, ps: seq<Packet>, kind: Packet -> bool)
    requires ps != [] && IsLatest(o, ps[..|ps| - 1], kind)
    ensures var p := ps[|ps| - 1];
      IsLatest(if kind(p) then Some(p) else o, ps, kind)
  {
    var n := |ps| - 1;
    var before := ps[..n];
    assert ps == before + [ps[n]];
    if kind(ps[n]) {
      assert ps[n] == ps[n];
    } else if o.Some? {
      var i :| 0 <= i < n && before[i] == o.value && kind(o.value) && forall j | i < j < n :: !kind(before[j]);
      assert ps[i] == o.value;
      forall j | i < j < |ps| ensures !kind(ps[j]) {
        assert j < n ==> ps[j] == before[j];
      }
    } else {
      forall j | 0 <= j < |ps| ensures !kind(ps[j]) {
        assert j < n ==> ps[j] == before[j];
      }
    }
  }

  class SpecialCache {
    var full: bool
    var p: Option<Packet>

    ghost predicate Valid()
      reads this
    {
      full == p.Some?
    }

    constructor ()
      ensures Valid() && p == None
    {
      full, p := false, None;
    }

    method Write(p: Packet)
      modifies this
      ensures Valid() && this.p == Some(p)
    {
      this.p := Some(p);
      full := true;
    }

    method Send(w: Sink)
      requires Valid()
      modifies w
      ensures w.got == old(w.got) + AsSeq(p)
    {
      if !full {
        assert w.got + [] == w.got;
        return;
      }
      w.Write(p.value);
    }
  }

  function AsSeq(o: Option<Packet>): seq<Packet> {
    if o.None? then [] else [o.value]
  }

  class Cache {
    const gop: GopCache
    const videoSeq: SpecialCache
    const audioSeq: SpecialCache
    const metadata: SpecialCache
    /** The packets so far. */
    ghost var ps: seq<Packet>

    ghost predicate Valid()
      reads this, gop, gop.gops, gop.gops[..], videoSeq, audioSeq, metadata
    {
      && gop.Valid() && videoSeq.Valid() && audioSeq.Valid() && metadata.Valid()
      && videoSeq != audioSeq && audioSeq != metadata && metadata != videoSeq
      && var s := RouteAll(ps);
      && metadata.p == s.metadata && videoSeq.p == s.videoSeq && audioSeq.p == s.audioSeq
      && G.Run(gop.gops.Length, s.ring) == Some(gop.ring)
    }

    constructor (gopNum: nat)
      ensures Valid() && ps == [] && gop.gops.Length == gopNum
      ensures fresh(gop) && fresh(gop.gops) && forall i | 0 <= i < gop.gops.Length :: gop.gops[i] == null
      ensures fresh(videoSeq) && fresh(audioSeq) && fresh(metadata)
    {
      gop := new GopCache(gopNum);
      videoSeq := new SpecialCache();
      audioSeq := new SpecialCache();
      metadata := new SpecialCache();
      ps := [];
    }

    /** Routes one packet. Only the ring can panic. */
    method Write(p: Packet) returns (ok: bool)
      requires Valid()
      modifies this, gop, gop.gops, gop.gops[..], videoSeq, audioSeq, metadata
      ensures ps == old(ps) + [p]
      ensures ok == G.Run(gop.gops.Length, RouteAll(ps).ring).Some? && (ok ==> Valid())
      ensures forall i | 0 <= i < gop.gops.Length :: gop.gops[i] == old(gop.gops[i]) || fresh(gop.gops[i])
    {
      hide G.Write, G.Run;
      ghost var before := RouteAll(ps);
      assert (ps + [p])[..|ps|] == ps;
      ps := ps + [p];
      ok := true;
      if p.kind.Metadata? {
        metadata.Write(p);
      } else if p.kind.Audio? && p.kind.ah.Some? {
        if p.kind.ah.value.soundFormat == SOUND_AAC && p.kind.ah.value.aacPacketType == AAC_SEQHDR {
          audioSeq.Write(p);
        }
      } else if p.kind.Video? && p.kind.vh.Some? && p.kind.vh.value.isSeq {
        videoSeq.Write(p);
      } else if p.kind.Video? && p.kind.vh.None? {
      } else {
        RunNext(gop.gops.Length, before.ring, p);
        ok := gop.Write(p);
      }
    }

    /** What a late joiner is sent. */
    method Send(w: Sink) returns (ok: bool)
      requires Valid()
      modifies w
      ensures var sent := LateJoiner(gop.gops.Length, ps);
        ok == sent.Some? && (ok ==> w.got == old(w.got) + sent.value)
    {
      hide RouteAll, G.Run, G.Send;
      ghost var s := RouteAll(ps);
      metadata.Send(w);
      videoSeq.Send(w);
      audioSeq.Send(w);
      ok := gop.SendTo(w);
      if ok {
        ghost var gops := G.Send(gop.ring).value;
        FourParts(old(w.got), AsSeq(s.metadata), AsSeq(s.videoSeq), AsSeq(s.audioSeq), gops);
      }
    }
  }

  lemma FourParts(before: seq<Packet>, a: seq<Packet>, b: seq<Packet>, c: seq<Packet>, d: seq<Packet>)
    ensures before + a + b + c + d == before + (a + b + c + d)
  {
  }

  // ----- The late joiner ------------------------------------------------------------------------

  /** What a player that joins after the packets ps is sent; None is a panic. */
  function LateJoiner(count: nat, ps: seq<Packet>): Option<seq<Packet>> {
    var s := RouteAll(ps);
    var r := G.Run(count, s.ring);
    if r.None? || G.Send(r.value).None? then None
    else Some(AsSeq(s.metadata) + AsSeq(s.videoSeq) + AsSeq(s.audioSeq) + G.Send(r.value).value)
  }

  /** What such a player needs: the latest metadata and sequence headers, then the last groups of the
      pictures, oldest first. */
  ghost predicate Suffices(count: nat, ps: seq<Packet>, sent: seq<Packet>) {
    var gs := G.Gops(Filter(ps, ForRing));
    exists m, v, a ::
      && IsLatest(m, ps, IsMetadata) && IsLatest(v, ps, IsVideoSeq) && IsLatest(a, ps, IsAudioSeq)
      && sent == AsSeq(m) + AsSeq(v) + AsSeq(a) + G.Replay(gs, |gs| - G.Kept(count, gs))
  }

  /** With one or two slots the player is sent what it needs, and the first picture is a key frame. */
  lemma LateJoinerSuffices(count: nat, ps: seq<Packet>)
    requires 1 <= count <= 2
    ensures var sent := LateJoiner(count, ps);
      sent.Some? && Suffices(count, ps, sent.value)
    ensures var sent, s := LateJoiner(count, ps), RouteAll(ps);
      var headers := AsSeq(s.metadata) + AsSeq(s.videoSeq) + AsSeq(s.audioSeq);
      && headers <= sent.value
      && (|sent.value| > |headers| ==> G.IsKey(sent.value[|headers|]))
      && (|sent.value| == |headers| <==> G.FromFirstKey(Filter(ps, ForRing)) == [])
  {
    hide RouteAll, Filter, IsLatest, G.Run, G.Send, G.Gops, G.Replay, G.FromFirstKey;
    RouteKeepsLatest(ps);
    G.SendsLastGops(count, Filter(ps, ForRing));
    G.StartsWithKey(count, Filter(ps, ForRing));
  }

  /** It is sent that after every stream if and only if there are one or two slots. */
  lemma LateJoinerExactly(count: nat)
    ensures 1 <= count <= 2 <==>
            forall ps :: LateJoiner(count, ps).Some? && Suffices(count, ps, LateJoiner(count, ps).value)
  {
    hide Suffices;
    if 1 <= count <= 2 {
      forall ps ensures LateJoiner(count, ps).Some? && Suffices(count, ps, LateJoiner(count, ps).value) {
        LateJoinerSuffices(count, ps);
      }
    } else {
      var key := Packet(Video(Some(VideoHeader(false, true))), 0, []);
      hide LateJoiner;
      OneKeyFails(count, key);
    }
  }

  lemma OneKeyFails(count: nat, key: Packet)
    requires G.IsKey(key) && !(1 <= count <= 2)
    ensures LateJoiner(count, [key]).None?
  {
    hide G.Run, G.Send;
    G.OtherCountsPanic(count, key);
    assert RouteAll([key]).ring == [key] by {
      assert [key][..0] == [] && [] + [key] == [key];
    }
  }

  lemma RunNext(count: nat, ps: seq<Packet>, p: Packet)
    requires G.Run(count, ps).Some?
    ensures G.Run(count, ps + [p]) == G.Write(G.Run(count, ps).value, p)
  {
    assert (ps + [p])[..|ps|] == ps;
  }
}
