/** The bounded queue between a publisher and a sender, and how it is thinned out when the sender is
    too slow. The RTMP player has one for 1024 packets, the segmenter one for 512. */
module PlayerQueue {
  import opened Bytes
  import opened Av

  /** Audio, key frames and sequence headers are put back. */
  predicate Kept(p: Packet) {
    p.kind.Audio? || (p.kind.Video? && p.kind.vh.Some? && (p.kind.vh.value.isSeq || p.kind.vh.value.isKeyFrame))
  }

  function Keep(q: seq<Packet>): (r: seq<Packet>)
    ensures |r| <= |q| && forall p | p in r :: Kept(p)
  {
    if q == [] then []
    else Keep(q[..|q| - 1]) + KeepOne(q[|q| - 1])
  }

  function KeepOne(p: Packet): (r: seq<Packet>)
    ensures |r| <= 1 && forall x | x in r :: x == p && Kept(p)
  {
    if Kept(p) then [p] else []
  }

  /** One round of the thinning: the front packet is put back if it is to be kept; a queue that is
      all but full then loses another one. */
  function ThinOne(max: nat, q: seq<Packet>): seq<Packet> {
    if q == [] then []
    else
      var p, r := q[0], q[1..];
      match p.kind
      case Audio(_) => if |r| > max - 2 && r != [] then r[1..] else r + [p]
      case Video(vh) =>
        var r' := if vh.Some? && (vh.value.isSeq || vh.value.isKeyFrame) then r + [p] else r;
        if |r'| > max - 10 && r' != [] then r'[1..] else r'
      case Metadata => r
  }

  function Thin(max: nat, q: seq<Packet>, rounds: nat): seq<Packet> {
    if rounds == 0 then q else ThinOne(max, Thin(max, q, rounds - 1))
  }

  /** A queue that is not yet all but full: the packets the thinning looks at are the first
      max - 84; what it keeps of them goes to the back. */
  function Thinned(max: nat, q: seq<Packet>): seq<Packet>
    requires 84 <= max <= |q| + 84
  {
    q[max - 84..] + Keep(q[..max - 84])
  }

  lemma ThinOneKeeps(max: nat, q: seq<Packet>)
    requires q != [] && |q| + 10 <= max
    ensures ThinOne(max, q) == q[1..] + KeepOne(q[0])
  {
    assert q[1..] + [] == q[1..];
  }

  lemma {:induction false} ThinIsThinned(max: nat, q: seq<Packet>, rounds: nat)
    requires rounds <= |q| && |q| + 10 <= max
    ensures Thin(max, q, rounds) == q[rounds..] + Keep(q[..rounds])
  {
    hide Keep, KeepOne, Thin, ThinOne;
    ThinRounds(max, q, rounds);
    if rounds > 0 {
      ThinIsThinned(max, q, rounds - 1);
      KeepNext(q, rounds - 1);
      ThinOneKeeps(max, q[rounds - 1..] + Keep(q[..rounds - 1]));
      Regroup(q[rounds..], Keep(q[..rounds - 1]), KeepOne(q[rounds - 1]));
    }
  }

  lemma ThinRounds(max: nat, q: seq<Packet>, rounds: nat)
    ensures rounds > 0 ==> Thin(max, q, rounds) == ThinOne(max, Thin(max, q, rounds - 1))
    ensures Thin(max, q, 0) == q == q[0..] + Keep(q[..0])
  {
  }

  /** A full queue is thinned and the new packet is lost; otherwise the packet is accepted. */
  function Offer(max: nat, q: seq<Packet>, p: Packet): seq<Packet>
    requires max >= 84
  {
    if |q| + 24 >= max then Thinned(max, q) else q + [p]
  }

  class PacketQueue {
    const max: nat
    var packets: seq<Packet>

    ghost predicate Valid()
      reads this
    {
      84 < max && |packets| + 24 <= max
    }

    constructor (max: nat)
      requires 84 < max
      ensures Valid() && packets == [] && this.max == max
    {
      this.max := max;
      packets := [];
    }

    /** Receiving from an empty queue would block. */
    method Receive() returns (p: Packet)
      requires packets != []
      modifies this
      ensures p == old(packets)[0] && packets == old(packets)[1..]
    {
      p := packets[0];
      packets := packets[1..];
    }

    /** Sending to a full queue would block. */
    method Send(p: Packet)
      requires |packets| < max
      modifies this
      ensures packets == old(packets) + [p]
    {
      packets := packets + [p];
    }

    /** Never blocks, whatever the packets are and however full the queue is beyond max - 84. */
    method DropPacket()
      requires 84 < max <= |packets| + 84 && |packets| <= max
      modifies this
      ensures packets == Thin(max, old(packets), max - 84)
    {
      hide Thin, ThinOne;
      ghost var q := packets;
      ThinRounds(max, q, 0);
      for i := 0 to max - 84
        invariant packets == Thin(max, q, i)
        invariant max <= |packets| + 84 + i && |packets| <= max
      {
        DropOne();
        ThinRounds(max, q, i + 1);
      }
    }

    /** One round of it. */
    method DropOne()
      requires 84 < max && 0 < |packets| <= max
      modifies this
      ensures packets == ThinOne(max, old(packets)) && old(|packets|) - 2 <= |packets| <= old(|packets|)
      ensures |packets| == old(|packets|) - 2 ==> |packets| >= max - 11
    {
      var tmpPkt := Receive();
      if tmpPkt.kind.Audio? {
        if |packets| > max - 2 {
          var _ := Receive();
        } else {
          Send(tmpPkt);
        }
      }
      if tmpPkt.kind.Video? {
        if tmpPkt.kind.vh.Some? && (tmpPkt.kind.vh.value.isSeq || tmpPkt.kind.vh.value.isKeyFrame) {
          Send(tmpPkt);
        }
        if |packets| > max - 10 {
          var _ := Receive();
        }
      }
    }

    method Write(p: Packet)
      requires Valid()
      modifies this
      ensures Valid() && packets == Offer(max, old(packets), p)
    {
      if |packets| >= max - 24 {
        ThinIsThinned(max, packets, max - 84);
        DropPacket();
      } else {
        Send(p);
      }
    }
  }

  lemma KeepNext(q: seq<Packet>, i: nat)
    requires i < |q|
    ensures Keep(q[..i + 1]) == Keep(q[..i]) + KeepOne(q[i])
    ensures var r := q[i..] + Keep(q[..i]);
      r[0] == q[i] && r[1..] == q[i + 1..] + Keep(q[..i])
  {
    assert q[..i + 1][..i] == q[..i];
  }

  // ----- Runs -----------------------------------------------------------------------------------

  /** The publisher offers a packet, or the sender takes one if there is one. */
  datatype Event = Offered(p: Packet) | Taken

  /** What was accepted, what was sent, and what waits. */
  datatype State = State(accepted: seq<Packet>, sent: seq<Packet>, waiting: seq<Packet>)

  function Next(max: nat, s: State, e: Event): State
    requires max >= 84
  {
    match e
    case Offered(p) =>
      s.(waiting := Offer(max, s.waiting, p),
         accepted := if |s.waiting| + 24 >= max then s.accepted else s.accepted + [p])
    case Taken =>
      if s.waiting == [] then s else s.(sent := s.sent + [s.waiting[0]], waiting := s.waiting[1..])
  }

  function Run(max: nat, es: seq<Event>): State
    requires max >= 84
  {
    if es == [] then State([], [], []) else Next(max, Run(max, es[..|es| - 1]), es[|es| - 1])
  }

  lemma KeepAppend(q: seq<Packet>, p: Packet)
    ensures Keep(q + [p]) == Keep(q) + KeepOne(p)
  {
    assert (q + [p])[..|q|] == q;
  }

  lemma {:induction false} KeepBoth(a: seq<Packet>, b: seq<Packet>)
    ensures Keep(a + b) == Keep(a) + Keep(b)
  {
    if b == [] {
      assert a + b == a;
    } else {
      var n := |b| - 1;
      KeepBoth(a, b[..n]);
      assert b == b[..n] + [b[n]];
      hide Keep, KeepOne;
      Regroup(a, b[..n], [b[n]]);
      KeepAppend(a + b[..n], b[n]);
      KeepAppend(b[..n], b[n]);
      Regroup(Keep(a), Keep(b[..n]), KeepOne(b[n]));
    }
  }

  lemma KeepOneAgain(p: Packet)
    ensures Keep(KeepOne(p)) == KeepOne(p) && multiset(KeepOne(p)) <= multiset([p])
  {
    KeepAppend([], p);
    assert [] + [p] == [p] && [] + KeepOne(p) == KeepOne(p);
  }

  lemma {:induction false} KeepAgain(q: seq<Packet>)
    ensures Keep(Keep(q)) == Keep(q) && multiset(Keep(q)) <= multiset(q)
  {
    hide Keep, KeepOne;
    NoneKept();
    if q != [] {
      var n := |q| - 1;
      KeepAgain(q[..n]);
      assert q == q[..n] + [q[n]];
      KeepAppend(q[..n], q[n]);
      KeepBoth(Keep(q[..n]), KeepOne(q[n]));
      KeepOneAgain(q[n]);
      Both(Keep(q[..n]), KeepOne(q[n]), q[..n], [q[n]]);
    }
  }

  lemma NoneKept()
    ensures Keep([]) == []
  {
  }

  lemma Both(a: seq<Packet>, b: seq<Packet>, c: seq<Packet>, d: seq<Packet>)
    requires multiset(a) <= multiset(c) && multiset(b) <= multiset(d)
    ensures multiset(a + b) <= multiset(c + d)
  {
  }

  lemma Swapped(a: seq<Packet>, b: seq<Packet>)
    ensures multiset(a + b) == multiset(b + a)
  {
  }

  /** Thinning loses no packet that is to be kept and invents none. */
  lemma ThinnedKeeps(max: nat, q: seq<Packet>)
    requires 84 <= max <= |q| + 84
    ensures multiset(Keep(Thinned(max, q))) == multiset(Keep(q))
    ensures multiset(Thinned(max, q)) <= multiset(q)
  {
    hide Keep;
    assert q == q[..max - 84] + q[max - 84..];
    PartsKept(q[..max - 84], q[max - 84..]);
  }

  lemma PartsKept(front: seq<Packet>, back: seq<Packet>)
    ensures multiset(Keep(back + Keep(front))) == multiset(Keep(front + back))
    ensures multiset(back + Keep(front)) <= multiset(front + back)
  {
    hide Keep;
    KeepBoth(front, back);
    KeepBoth(back, Keep(front));
    KeepAgain(front);
    Swapped(Keep(front), Keep(back));
    Swapped(front, back);
    Both(back, Keep(front), back, front);
  }

  /** Over any run the queue stays 24 below its capacity, every packet to be kept that was accepted is
      sent or still waits, exactly as often as it was accepted, and nothing else is sent. */
  lemma {:induction false} AcceptedIsSentOrWaits(max: nat, es: seq<Event>)
    requires max >= 84
    ensures var s := Run(max, es);
      && |s.waiting| + 24 <= max
      && multiset(Keep(s.sent + s.waiting)) == multiset(Keep(s.accepted))
      && multiset(s.sent + s.waiting) <= multiset(s.accepted)
  {
    if es != [] {
      var s, e := Run(max, es[..|es| - 1]), es[|es| - 1];
      AcceptedIsSentOrWaits(max, es[..|es| - 1]);
      hide Run, Keep;
      StepKeeps(max, s, e);
    }
  }

  lemma StepKeeps(max: nat, s: State, e: Event)
    requires max >= 84 && |s.waiting| + 24 <= max
    requires multiset(Keep(s.sent + s.waiting)) == multiset(Keep(s.accepted))
    requires multiset(s.sent + s.waiting) <= multiset(s.accepted)
    ensures var t := Next(max, s, e);
      && |t.waiting| + 24 <= max
      && multiset(Keep(t.sent + t.waiting)) == multiset(Keep(t.accepted))
      && multiset(t.sent + t.waiting) <= multiset(t.accepted)
  {
    hide Keep;
    if e.Taken? {
      if s.waiting != [] {
        assert s.sent + [s.waiting[0]] + s.waiting[1..] == s.sent + s.waiting;
      }
    } else if |s.waiting| + 24 >= max {
      KeepBoth(s.sent, s.waiting);
      KeepBoth(s.sent, Thinned(max, s.waiting));
      ThinnedKeeps(max, s.waiting);
    } else {
      Regroup(s.sent, s.waiting, [e.p]);
      KeepBoth(s.sent + s.waiting, [e.p]);
      KeepBoth(s.accepted, [e.p]);
    }
  }

  /** A packet to be kept that is offered is lost if and only if the queue is full: otherwise there is
      one more of it than before. */
  lemma OfferedIsLostExactlyWhenFull(max: nat, s: State, p: Packet)
    requires max >= 84 && Kept(p)
    ensures var t := Next(max, s, Offered(p));
      var before, after := multiset(Keep(s.sent + s.waiting))[p], multiset(Keep(t.sent + t.waiting))[p];
      if |s.waiting| + 24 >= max then after == before else after == before + 1
  {
    hide Keep;
    if |s.waiting| + 24 >= max {
      KeepBoth(s.sent, s.waiting);
      KeepBoth(s.sent, Thinned(max, s.waiting));
      ThinnedKeeps(max, s.waiting);
    } else {
      Regroup(s.sent, s.waiting, [p]);
      KeepAppend(s.sent + s.waiting, p);
    }
  }

  // ----- Order ----------------------------------------------------------------------------------

  /** No packet is there twice. */
  ghost predicate NoRepeats(q: seq<Packet>) {
    forall i, j | 0 <= i < j < |q| :: q[i] != q[j]
  }

  /** Any two packets of r stand in q in the same order. */
  ghost predicate InOrder(r: seq<Packet>, q: seq<Packet>) {
    forall i, j | 0 <= i < j < |r| :: Stand(r[i], r[j], q)
  }

  /** x stands before y. */
  ghost predicate Stand(x: Packet, y: Packet, q: seq<Packet>) {
    exists a, b :: 0 <= a < b < |q| && q[a] == x && q[b] == y
  }

  lemma StandsOneWay(x: Packet, y: Packet, q: seq<Packet>)
    requires NoRepeats(q) && Stand(x, y, q)
    ensures !Stand(y, x, q)
  {
  }

  /** None of the packets that the thinning looks at is to be kept. */
  predicate NoneToKeep(max: nat, q: seq<Packet>)
    requires 84 <= max <= |q| + 84
  {
    forall i | 0 <= i < max - 84 :: !Kept(q[i])
  }

  lemma {:induction false} KeepsNothing(q: seq<Packet>)
    requires forall i | 0 <= i < |q| :: !Kept(q[i])
    ensures Keep(q) == []
  {
    if q != [] {
      KeepsNothing(q[..|q| - 1]);
    }
  }

  /** A kept packet among those the thinning looks at ends up behind all that it does not look at. */
  lemma ThinnedMovesBack(max: nat, q: seq<Packet>, i: nat, j: nat)
    requires 84 <= max <= |q| + 84 && i < max - 84 <= j < |q| && Kept(q[i])
    ensures var r := Thinned(max, q);
      r[j - (max - 84)] == q[j] && exists k :: j - (max - 84) < k < |r| && r[k] == q[i]
  {
    var front, r := q[..max - 84], Thinned(max, q);
    KeepFinds(front, i);
    var m :| 0 <= m < |Keep(front)| && Keep(front)[m] == q[i];
    assert r[|q| - (max - 84) + m] == q[i];
  }

  lemma {:induction false} KeepFinds(q: seq<Packet>, i: nat)
    requires i < |q| && Kept(q[i])
    ensures q[i] in Keep(q)
  {
    if i < |q| - 1 {
      KeepFinds(q[..|q| - 1], i);
    }
  }

  /** Thinning behind packets already sent: with nothing to keep it only takes packets away, so what
      was in order stays so; otherwise a kept packet is now behind a younger one. */
  lemma ThinnedInOrder(max: nat, sent: seq<Packet>, q: seq<Packet>, all: seq<Packet>)
    requires 84 <= max < |q| + 84 && NoRepeats(all) && InOrder(sent + q, all)
    ensures InOrder(sent + Thinned(max, q), all) <==> NoneToKeep(max, q)
  {
    hide Stand, NoRepeats;
    var n := max - 84;
    var before, after := sent + q, sent + Thinned(max, q);
    if NoneToKeep(max, q) {
      KeepsNothing(q[..n]);
      assert Thinned(max, q) == q[n..];
      assert forall i | 0 <= i < |after| :: after[i] == before[if i < |sent| then i else i + n];
    } else {
      var i :| 0 <= i < n && Kept(q[i]);
      ThinnedMovesBack(max, q, i, n);
      var k :| 0 < k < |Thinned(max, q)| && Thinned(max, q)[k] == q[i];
      assert before[|sent| + i] == q[i] && before[|sent| + n] == q[n];
      assert after[|sent|] == q[n] && after[|sent| + k] == q[i];
      StandsOneWay(q[i], q[n], all);
    }
  }

  lemma InOrderWithItself(q: seq<Packet>)
    ensures InOrder(q, q)
  {
    forall i, j | 0 <= i < j < |q| ensures Stand(q[i], q[j], q) {
    }
  }

  /** Of a queue without repeated packets, thinning keeps the order if and only if none of the packets
      it looks at is to be kept. */
  lemma ThinnedKeepsOrderExactly(max: nat, q: seq<Packet>)
    requires 84 <= max < |q| + 84 && NoRepeats(q)
    ensures InOrder(Thinned(max, q), q) <==> NoneToKeep(max, q)
  {
    InOrderWithItself(q);
    assert [] + q == q && [] + Thinned(max, q) == Thinned(max, q);
    ThinnedInOrder(max, [], q, q);
  }

  /** What was sent and what waits, in the order in which it leaves. */
  function Leaving(s: State): seq<Packet> {
    s.sent + s.waiting
  }

  /** If the event thins the queue, there is nothing to keep among the packets it looks at. */
  predicate ThinsCleanly(max: nat, s: State, e: Event)
    requires max >= 84
  {
    e.Offered? && |s.waiting| + 24 >= max ==> NoneToKeep(max, s.waiting)
  }

  lemma AppendInOrder(r: seq<Packet>, q: seq<Packet>, p: Packet)
    requires InOrder(r, q) && forall x | x in r :: x in q
    ensures InOrder(r + [p], q + [p])
  {
    forall i, j | 0 <= i < j < |r + [p]| ensures Stand((r + [p])[i], (r + [p])[j], q + [p]) {
      var x, y := (r + [p])[i], (r + [p])[j];
      if j < |r| {
        assert Stand(r[i], r[j], q);
        var a, b :| 0 <= a < b < |q| && q[a] == x && q[b] == y;
        assert (q + [p])[a] == x && (q + [p])[b] == y;
      } else {
        assert x in q;
        var a :| 0 <= a < |q| && q[a] == x;
        assert (q + [p])[a] == x && (q + [p])[|q|] == y;
      }
    }
  }

  lemma StepInOrder(max: nat, s: State, e: Event)
    requires max >= 84 && |s.waiting| + 24 <= max && NoRepeats(s.accepted)
    requires InOrder(Leaving(s), s.accepted) && forall x | x in Leaving(s) :: x in s.accepted
    ensures var t := Next(max, s, e);
      InOrder(Leaving(t), t.accepted) <==> ThinsCleanly(max, s, e)
  {
    hide InOrder, NoRepeats, NoneToKeep;
    if e.Taken? {
      if s.waiting != [] {
        assert s.sent + [s.waiting[0]] + s.waiting[1..] == s.sent + s.waiting;
      }
    } else if |s.waiting| + 24 >= max {
      ThinnedInOrder(max, s.sent, s.waiting, s.accepted);
    } else {
      Regroup(s.sent, s.waiting, [e.p]);
      AppendInOrder(Leaving(s), s.accepted, e.p);
    }
  }

  /** The packets leave in the order in which they were accepted, at this moment. */
  ghost predicate OrderedAt(max: nat, es: seq<Event>, n: nat)
    requires max >= 84 && n <= |es|
  {
    InOrder(Leaving(Run(max, es[..n])), Run(max, es[..n]).accepted)
  }

  predicate CleanAt(max: nat, es: seq<Event>, n: nat)
    requires max >= 84 && n < |es|
  {
    ThinsCleanly(max, Run(max, es[..n]), es[n])
  }

  lemma RunNext(max: nat, es: seq<Event>, n: nat)
    requires max >= 84 && n < |es|
    ensures Run(max, es[..n + 1]) == Next(max, Run(max, es[..n]), es[n])
  {
    assert es[..n + 1][..n] == es[..n];
  }

  /** Of a run in which no packet is accepted twice, the order of acceptance is the order of leaving at
      every moment if and only if no thinning finds a packet to be kept among those it looks at. The
      sender of the packets can see that before it offers the next one. */
  lemma {:induction false} OrderKeptExactly(max: nat, es: seq<Event>)
    requires max >= 84 && NoRepeats(Run(max, es).accepted)
    ensures (forall n | 0 <= n <= |es| :: OrderedAt(max, es, n))
       <==> (forall n | 0 <= n < |es| :: CleanAt(max, es, n))
    decreases |es|
  {
    hide Run, ThinsCleanly, InOrder, Next, NoRepeats;
    if es == [] {
      NothingInOrder(max, es);
    } else {
      var m := |es| - 1;
      var init := es[..m];
      LastEvent(max, es);
      OrderKeptExactly(max, init);
      forall n | 0 <= n <= m ensures OrderedAt(max, es, n) == OrderedAt(max, init, n) {
        assert es[..n] == init[..n];
      }
      forall n | 0 <= n < m ensures CleanAt(max, es, n) == CleanAt(max, init, n) {
        assert es[..n] == init[..n];
      }
    }
  }

  lemma NothingInOrder(max: nat, es: seq<Event>)
    requires max >= 84 && es == []
    ensures OrderedAt(max, es, 0)
  {
  }

  /** If the order was kept so far, the last event keeps it exactly if it thins cleanly. */
  lemma LastEvent(max: nat, es: seq<Event>)
    requires max >= 84 && es != [] && NoRepeats(Run(max, es).accepted)
    ensures NoRepeats(Run(max, es[..|es| - 1]).accepted)
    ensures OrderedAt(max, es, |es| - 1) ==> (OrderedAt(max, es, |es|) <==> CleanAt(max, es, |es| - 1))
  {
    var m := |es| - 1;
    var s := Run(max, es[..m]);
    RunNext(max, es, m);
    assert es[..|es|] == es;
    assert s.accepted <= Run(max, es).accepted;
    hide Run, ThinsCleanly, InOrder;
    AcceptedIsSentOrWaits(max, es[..m]);
    assert forall x | x in Leaving(s) :: x in multiset(s.sent + s.waiting) && x in multiset(s.accepted);
    if OrderedAt(max, es, m) {
      StepInOrder(max, s, es[m]);
    }
  }
}
