/** The ring of GOPs on values, with index errors and nil slots as panics, and what it is meant to
    hold: the last GOPs of the stream. */
module GopFormat {
  import opened Bytes
  import opened Av

  const MAX_GOP_CAP: nat := 1024

  /** None in a slot is nil. `start` is set from the first key frame on. */
  datatype Ring = Ring(start: bool, num: nat, nextindex: nat, gops: seq<Option<seq<Packet>>>)

  predicate IsKey(p: Packet) {
    p.kind.Video? && p.kind.vh.Some? && p.kind.vh.value.isKeyFrame && !p.kind.vh.value.isSeq
  }

  function Empty(count: nat): Ring {
    Ring(false, 0, 0, seq(count, i => None))
  }

  /** A GOP takes no more than its capacity. */
  function Append(g: seq<Packet>, p: Packet): seq<Packet> {
    if |g| >= MAX_GOP_CAP then g else g + [p]
  }

  function StartGop(r: Ring, p: Packet): Option<Ring> {
    if r.nextindex >= |r.gops| then None
    else
      Some(r.(num := if r.gops[r.nextindex].None? then r.num + 1 else r.num,
              gops := r.gops[r.nextindex := Some([p])],
              nextindex := (r.nextindex + 1) % |r.gops|))
  }

  function ContinueGop(r: Ring, p: Packet): Option<Ring> {
    if |r.gops| == 0 then None
    else
      var i := (r.nextindex + 1) % |r.gops|;
      if r.gops[i].None? then None else Some(r.(gops := r.gops[i := Some(Append(r.gops[i].value, p))]))
  }

  /** None is a panic. */
  function Write(r: Ring, p: Packet): Option<Ring> {
    if p.kind.Video? && p.kind.vh.Some? && p.kind.vh.value.isKeyFrame && !p.kind.vh.value.isSeq then
      StartGop(r.(start := true), p)
    else if r.start then ContinueGop(r, p)
    else Some(r)
  }

  /** The slot that is sent in round i. */
  function SlotOf(r: Ring, i: nat): int
    requires |r.gops| > 0
  {
    var pos := (r.nextindex + 1) % |r.gops|;
    var index := (pos - r.num + 1) + i;
    if index < 0 then index + |r.gops| else index
  }

  /** Rounds i and later. */
  function SendFrom(r: Ring, i: nat): Option<seq<Packet>>
    requires |r.gops| > 0 && i <= r.num
    decreases r.num - i
  {
    if i == r.num then Some([])
    else
      var index := SlotOf(r, i);
      if index < 0 || index >= |r.gops| || r.gops[index].None? then None
      else
        var more := SendFrom(r, i + 1);
        if more.None? then None else Some(r.gops[index].value + more.value)
  }

  function Send(r: Ring): Option<seq<Packet>> {
    if |r.gops| == 0 then None else SendFrom(r, 0)
  }

  function Run(count: nat, ps: seq<Packet>): Option<Ring> {
    if ps == [] then Some(Empty(count))
    else
      var r := Run(count, ps[..|ps| - 1]);
      if r.None? then None else Write(r.value, ps[|ps| - 1])
  }

  // ----- What it is meant to hold ---------------------------------------------------------------

  /** All GOPs of the stream, from the first key frame on, uncut. */
  function Gops(ps: seq<Packet>): seq<seq<Packet>> {
    if ps == [] then []
    else
      var p, gs := ps[|ps| - 1], Gops(ps[..|ps| - 1]);
      if IsKey(p) then gs + [[p]]
      else if gs == [] then []
      else gs[|gs| - 1 := gs[|gs| - 1] + [p]]
  }

  function First(g: seq<Packet>): seq<Packet> {
    g[..Min(1024, |g|)]
  }

  /** The GOPs from number i on, each cut to its capacity, one behind the other. */
  function Replay(gs: seq<seq<Packet>>, i: nat): seq<Packet>
    requires i <= |gs|
    decreases |gs| - i
  {
    if i == |gs| then [] else First(gs[i]) + Replay(gs, i + 1)
  }

  function Kept(count: nat, gs: seq<seq<Packet>>): nat {
    Min(count, |gs|)
  }

  /** The slots hold the last GOPs, number j in slot j modulo count. */
  ghost predicate Holds(count: nat, r: Ring, gs: seq<seq<Packet>>)
    requires count > 0
  {
    && |r.gops| == count && r.num == Kept(count, gs) && r.nextindex == |gs| % count
    && r.start == (gs != [])
    && (forall j | |gs| - r.num <= j < |gs| :: r.gops[j % count] == Some(First(gs[j])))
    && forall k | |gs| <= k < count :: r.gops[k] == None
  }

  lemma AppendIsFirst(g: seq<Packet>, p: Packet)
    ensures Append(First(g), p) == First(g + [p])
  {
    if |g| >= MAX_GOP_CAP {
      assert (g + [p])[..MAX_GOP_CAP] == g[..MAX_GOP_CAP];
    } else {
      assert g[..|g|] == g && (g + [p])[..|g| + 1] == g + [p];
    }
  }

  lemma KeyHolds(count: nat, r: Ring, gs: seq<seq<Packet>>, p: Packet)
    requires 1 <= count <= 2 && Holds(count, r, gs) && IsKey(p)
    ensures Write(r, p).Some? && Holds(count, Write(r, p).value, gs + [[p]])
  {
    hide First;
    var n, gs' := |gs|, gs + [[p]];
    JustStarted(p);
    assert r.gops[n % count].Some? <==> n >= count by {
      if n >= count {
        SameSlot(count, n);
        assert r.gops[(n - count) % count] == Some(First(gs[n - count]));
      }
    }
    var r' := Write(r, p).value;
    forall j | |gs'| - r'.num <= j < |gs'| ensures r'.gops[j % count] == Some(First(gs'[j])) {
      if j < n {
        assert gs'[j] == gs[j] && r.gops[j % count] == Some(First(gs[j]));
        assert j % count != n % count;
      }
    }
  }

  lemma JustStarted(p: Packet)
    ensures First([p]) == [p]
  {
  }

  lemma SameSlot(count: nat, n: nat)
    requires 1 <= count <= 2 && n >= count
    ensures (n - count) % count == n % count
  {
  }

  lemma ContinueHolds(count: nat, r: Ring, gs: seq<seq<Packet>>, p: Packet)
    requires 1 <= count <= 2 && Holds(count, r, gs) && !IsKey(p) && gs != []
    ensures Write(r, p).Some? && Holds(count, Write(r, p).value, gs[|gs| - 1 := gs[|gs| - 1] + [p]])
  {
    var n := |gs|;
    AppendIsFirst(gs[n - 1], p);
    assert (r.nextindex + 1) % count == (n - 1) % count;
    assert r.gops[(n - 1) % count] == Some(First(gs[n - 1]));
  }

  lemma WriteHolds(count: nat, r: Ring, gs: seq<seq<Packet>>, p: Packet)
    requires 1 <= count <= 2 && Holds(count, r, gs)
    ensures var gs' := if IsKey(p) then gs + [[p]] else if gs == [] then [] else gs[|gs| - 1 := gs[|gs| - 1] + [p]];
      && Write(r, p).Some? && Holds(count, Write(r, p).value, gs')
  {
    if IsKey(p) {
      KeyHolds(count, r, gs, p);
    } else if gs != [] {
      ContinueHolds(count, r, gs, p);
    }
  }

  /** With one or two slots no write ever panics, and the ring holds the last GOPs. */
  lemma {:induction false} RunHolds(count: nat, ps: seq<Packet>)
    requires 1 <= count <= 2
    ensures Run(count, ps).Some? && Holds(count, Run(count, ps).value, Gops(ps))
  {
    if ps != [] {
      RunHolds(count, ps[..|ps| - 1]);
      hide Holds;
      WriteHolds(count, Run(count, ps[..|ps| - 1]).value, Gops(ps[..|ps| - 1]), ps[|ps| - 1]);
    }
  }

  lemma {:induction false} SendsFrom(count: nat, r: Ring, gs: seq<seq<Packet>>, i: nat)
    requires 1 <= count <= 2 && Holds(count, r, gs) && i <= r.num
    ensures SendFrom(r, i) == Some(Replay(gs, |gs| - r.num + i))
    decreases r.num - i
  {
    if i < r.num {
      SendsFrom(count, r, gs, i + 1);
      assert SlotOf(r, i) == (|gs| - r.num + i) % count;
    }
  }

  /** What a late joiner is sent: the last GOPs, oldest first, each its first 1024 packets. */
  lemma SendsLastGops(count: nat, ps: seq<Packet>)
    requires 1 <= count <= 2
    ensures var gs := Gops(ps);
      Run(count, ps).Some? && Send(Run(count, ps).value) == Some(Replay(gs, |gs| - Kept(count, gs)))
  {
    RunHolds(count, ps);
    SendsFrom(count, Run(count, ps).value, Gops(ps), 0);
  }

  /** Every GOP begins with a key frame and has no other. */
  lemma {:induction false} GopsBeginWithKeys(ps: seq<Packet>)
    ensures forall j | 0 <= j < |Gops(ps)| :: Gops(ps)[j] != [] && IsKey(Gops(ps)[j][0])
    ensures forall j, k | 0 <= j < |Gops(ps)| && 1 <= k < |Gops(ps)[j]| :: !IsKey(Gops(ps)[j][k])
  {
    if ps != [] {
      GopsBeginWithKeys(ps[..|ps| - 1]);
    }
  }

  function FromFirstKey(ps: seq<Packet>): seq<Packet> {
    if ps == [] then []
    else
      var before, p := FromFirstKey(ps[..|ps| - 1]), ps[|ps| - 1];
      if before == [] && !IsKey(p) then [] else before + [p]
  }

  function Joined(gs: seq<seq<Packet>>): seq<Packet> {
    if gs == [] then [] else Joined(gs[..|gs| - 1]) + gs[|gs| - 1]
  }

  /** The GOPs are all packets from the first key frame on. */
  lemma {:induction false} GopsPartition(ps: seq<Packet>)
    ensures Joined(Gops(ps)) == FromFirstKey(ps)
    ensures Gops(ps) == [] <==> FromFirstKey(ps) == []
  {
    if ps != [] {
      var p, gs := ps[|ps| - 1], Gops(ps[..|ps| - 1]);
      GopsPartition(ps[..|ps| - 1]);
      if IsKey(p) {
        assert (gs + [[p]])[..|gs|] == gs;
      } else if gs != [] {
        var n := |gs| - 1;
        var gs' := gs[n := gs[n] + [p]];
        assert gs'[..n] == gs[..n];
        Regroup(Joined(gs[..n]), gs[n], [p]);
      }
    }
  }

  /** The first packet that is replayed is a key frame. */
  lemma StartsWithKey(count: nat, ps: seq<Packet>)
    requires 1 <= count <= 2
    ensures Run(count, ps).Some? && Send(Run(count, ps).value).Some?
    ensures var sent := Send(Run(count, ps).value).value;
      && (sent != [] ==> IsKey(sent[0])) && (sent == [] <==> FromFirstKey(ps) == [])
  {
    SendsLastGops(count, ps);
    GopsBeginWithKeys(ps);
    GopsPartition(ps);
  }

  /** With any other number of slots the first key frame leads to a panic, in writing or sending. */
  lemma OtherCountsPanic(count: nat, key: Packet)
    requires IsKey(key) && !(1 <= count <= 2)
    ensures Run(count, [key]).None? || Send(Run(count, [key]).value).None?
  {
    assert [key][..0] == [];
    assert Run(count, []) == Some(Empty(count));
    if count >= 3 {
      var r := Run(count, [key]).value;
      assert r.num == 1 && r.nextindex == 1;
      assert SlotOf(r, 0) == 2 && r.gops[2] == None;
    }
  }

  /** The cache works on every stream if and only if it has one or two slots. */
  lemma WorksExactlyForOneOrTwo(count: nat)
    ensures 1 <= count <= 2 <==>
            forall ps :: Run(count, ps).Some? && Send(Run(count, ps).value) ==
                         Some(Replay(Gops(ps), |Gops(ps)| - Kept(count, Gops(ps))))
  {
    if 1 <= count <= 2 {
      forall ps
        ensures Run(count, ps).Some? && Send(Run(count, ps).value) ==
                Some(Replay(Gops(ps), |Gops(ps)| - Kept(count, Gops(ps))))
      {
        SendsLastGops(count, ps);
      }
    } else {
      var key := Packet(Video(Some(VideoHeader(false, true))), 0, []);
      OtherCountsPanic(count, key);
    }
  }
}
