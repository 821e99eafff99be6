/** The window of segments a playlist shows: a list that keeps their order and a map that finds
    them by name. */
module Playlist {
  import opened Bytes

  type Name = string

  datatype Item = Item(name: Name, seqNum: int, duration: int, data: seq<byte>)

  const MAX_ITEMS: nat := 3

  datatype Window = Window(ll: seq<Name>, lm: map<Name, Item>)

  /** Evicts the oldest name when the list is full, then appends the new one. */
  function Set(w: Window, key: Name, item: Item): Window {
    var w' := if |w.ll| == MAX_ITEMS then Window(w.ll[1..], w.lm - {w.ll[0]}) else w;
    Window(w'.ll + [key], w'.lm[key := item])
  }

  /** The names that are left when a new segment comes. */
  function Staying(w: Window): seq<Name> {
    if |w.ll| == MAX_ITEMS then w.ll[1..] else w.ll
  }

  /** List and map agree: every name is listed once and stored. */
  ghost predicate Agree(w: Window) {
    && |w.ll| <= MAX_ITEMS
    && (forall i, j | 0 <= i < j < |w.ll| :: w.ll[i] != w.ll[j])
    && forall k :: k in w.ll <==> k in w.lm
  }

  /** They still agree after a new segment if and only if its name is none of those that stay. */
  lemma AgreeExactlyWhenFresh(w: Window, key: Name, item: Item)
    requires Agree(w)
    ensures Agree(Set(w, key, item)) <==> key !in Staying(w)
  {
    var w' := Set(w, key, item);
    var stay := Staying(w);
    assert w'.ll == stay + [key];
    if key in stay {
      var i :| 0 <= i < |stay| && stay[i] == key;
      assert w'.ll[i] == w'.ll[|stay|];
    } else {
      forall k ensures k in w'.ll <==> k in w'.lm {
        assert k in w'.ll <==> k in stay || k == key;
        if |w.ll| == MAX_ITEMS {
          assert w.ll == [w.ll[0]] + stay;
        }
      }
    }
  }

  /** A run of segments, each under its own name. */
  function Run(items: seq<Item>): Window {
    if items == [] then Window([], map[])
    else
      var last := items[|items| - 1];
      Set(Run(items[..|items| - 1]), last.name, last)
  }

  /** The names of segments at most two apart differ. */
  predicate NearbyNamesDiffer(items: seq<Item>) {
    forall i, j | 0 <= i < j < |items| && j - i < 3 :: items[i].name != items[j].name
  }

  function LastItems(items: seq<Item>): (s: seq<Item>)
    ensures |s| == Min(3, |items|)
  {
    items[|items| - Min(3, |items|)..]
  }

  /** The window holds exactly these segments in this order. */
  ghost predicate Shows(w: Window, items: seq<Item>) {
    && |w.ll| == |items|
    && (forall i | 0 <= i < |items| :: w.ll[i] == items[i].name)
    && (forall i | 0 <= i < |items| :: items[i].name in w.lm && w.lm[items[i].name] == items[i])
    && forall k | k in w.lm :: exists i :: 0 <= i < |items| && items[i].name == k
  }

  /** The window holds exactly the last three segments, or all of them while there are fewer. */
  lemma {:induction false} RunShowsLast(items: seq<Item>)
    requires NearbyNamesDiffer(items)
    ensures Shows(Run(items), LastItems(items)) && Agree(Run(items))
  {
    if items != [] {
      var n := |items| - 1;
      var w, last := Run(items[..n]), items[n];
      RunShowsLast(items[..n]);
      ShowsNext(w, items, LastItems(items[..n]));
      AgreeExactlyWhenFresh(w, last.name, last);
    }
  }

  lemma ShowsNext(w: Window, items: seq<Item>, shown: seq<Item>)
    requires items != [] && NearbyNamesDiffer(items) && shown == LastItems(items[..|items| - 1])
    requires Shows(w, shown) && Agree(w)
    ensures items[|items| - 1].name !in Staying(w)
    ensures Shows(Set(w, items[|items| - 1].name, items[|items| - 1]), LastItems(items))
  {
    hide NearbyNamesDiffer, LastItems, Shows, Agree, Set;
    LastItemsNext(items);
    SetShows(w, shown, items[|items| - 1]);
  }

  /** What is left of the shown segments when there are already as many as fit. */
  function Remaining(shown: seq<Item>): seq<Item> {
    if |shown| == MAX_ITEMS then shown[1..] else shown
  }

  /** One more segment, under a name that none of the remaining ones has. */
  lemma SetShows(w: Window, shown: seq<Item>, item: Item)
    requires Shows(w, shown) && Agree(w)
    requires var kept := Remaining(shown); forall i | 0 <= i < |kept| :: kept[i].name != item.name
    ensures item.name !in Staying(w) && Shows(Set(w, item.name, item), Remaining(shown) + [item])
  {
    hide Shows, Agree;
    AsMany(w, shown);
    var kept := Remaining(shown);
    if |shown| == MAX_ITEMS {
      Evicted(w, shown);
      Appended(Window(w.ll[1..], w.lm - {w.ll[0]}), kept, item);
    } else {
      Appended(w, kept, item);
    }
  }

  lemma AsMany(w: Window, shown: seq<Item>)
    requires Shows(w, shown)
    ensures |w.ll| == |shown|
  {
  }

  lemma LastItemsNext(items: seq<Item>)
    requires items != [] && NearbyNamesDiffer(items)
    ensures var n, kept := |items| - 1, Remaining(LastItems(items[..|items| - 1]));
      && LastItems(items) == kept + [items[n]]
      && forall i | 0 <= i < |kept| :: kept[i].name != items[n].name
  {
    hide NearbyNamesDiffer;
    var n := |items| - 1;
    var m := Min(MAX_ITEMS - 1, n);
    var kept := Remaining(LastItems(items[..n]));
    assert LastItems(items) == items[n - m..n] + [items[n]];
    assert |kept| == m && forall i | 0 <= i < m :: kept[i] == items[n - m + i];
    assert kept == items[n - m..n];
    forall i | 0 <= i < m ensures kept[i].name != items[n].name {
      Differ(items, n - m + i, n);
    }
  }

  lemma Differ(items: seq<Item>, i: nat, j: nat)
    requires NearbyNamesDiffer(items) && i < j < |items| && j - i < MAX_ITEMS
    ensures items[i].name != items[j].name
  {
  }

  lemma Evicted(w: Window, shown: seq<Item>)
    requires Shows(w, shown) && Agree(w) && shown != []
    ensures |w.ll| == |shown| && Shows(Window(w.ll[1..], w.lm - {w.ll[0]}), shown[1..])
  {
    var w', rest := Window(w.ll[1..], w.lm - {w.ll[0]}), shown[1..];
    forall k | k in w'.lm ensures exists i :: 0 <= i < |rest| && rest[i].name == k {
      var i :| 0 <= i < |shown| && shown[i].name == k;
      assert w.ll[i] == k && i > 0;
      assert rest[i - 1].name == k;
    }
  }

  lemma Appended(w: Window, shown: seq<Item>, item: Item)
    requires Shows(w, shown) && forall i | 0 <= i < |shown| :: shown[i].name != item.name
    ensures item.name !in w.ll && |w.ll| == |shown|
    ensures Shows(Window(w.ll + [item.name], w.lm[item.name := item]), shown + [item])
  {
    var w', all := Window(w.ll + [item.name], w.lm[item.name := item]), shown + [item];
    forall k | k in w'.lm ensures exists i :: 0 <= i < |all| && all[i].name == k {
      if k == item.name {
        assert all[|shown|].name == k;
      } else {
        var i :| 0 <= i < |shown| && shown[i].name == k;
        assert all[i].name == k;
      }
    }
  }

  /** The first name that repeats one of the two before it breaks the agreement. */
  lemma RepeatedNameDisagrees(items: seq<Item>, item: Item)
    requires NearbyNamesDiffer(items) && !NearbyNamesDiffer(items + [item])
    ensures !Agree(Run(items + [item]))
  {
    RunShowsLast(items);
    RepeatsNearby(items, item);
    hide NearbyNamesDiffer, LastItems, Agree, Shows;
    var w := Run(items);
    ShownStays(w, LastItems(items), item.name);
    AgreeExactlyWhenFresh(w, item.name, item);
    assert (items + [item])[..|items|] == items;
  }

  /** The name repeats one of the segments that will stay. */
  lemma RepeatsNearby(items: seq<Item>, item: Item)
    requires NearbyNamesDiffer(items) && !NearbyNamesDiffer(items + [item])
    ensures var shown := LastItems(items);
      exists k :: |shown| + 1 - MAX_ITEMS <= k < |shown| && 0 <= k && shown[k].name == item.name
  {
    var all, shown := items + [item], LastItems(items);
    var i, j :| 0 <= i < j < |all| && j - i < MAX_ITEMS && all[i].name == all[j].name;
    assert j == |items|;
    assert shown[|shown| - (|items| - i)] == items[i];
  }

  lemma ShownStays(w: Window, shown: seq<Item>, name: Name)
    requires Shows(w, shown) && |shown| <= MAX_ITEMS
    requires exists k :: |shown| + 1 - MAX_ITEMS <= k < |shown| && 0 <= k && shown[k].name == name
    ensures name in Staying(w)
  {
    var k :| |shown| + 1 - MAX_ITEMS <= k < |shown| && 0 <= k && shown[k].name == name;
    assert w.ll[k] == name;
    if |w.ll| == MAX_ITEMS {
      assert Staying(w)[k - 1] == name;
    }
  }

  /** The segments that a walk along the list finds. */
  function Found(ll: seq<Name>, lm: map<Name, Item>): seq<Item> {
    if ll == [] then []
    else
      var n := |ll| - 1;
      Found(ll[..n], lm) + if ll[n] in lm then [lm[ll[n]]] else []
  }

  /** A walk finds exactly what the window shows. */
  lemma {:induction false} FindsWhatIsShown(ll: seq<Name>, lm: map<Name, Item>, items: seq<Item>)
    requires |ll| == |items|
    requires forall i | 0 <= i < |items| :: ll[i] == items[i].name && ll[i] in lm && lm[ll[i]] == items[i]
    ensures Found(ll, lm) == items
  {
    if ll != [] {
      var n := |ll| - 1;
      FindsWhatIsShown(ll[..n], lm, items[..n]);
      assert items == items[..n] + [items[n]];
    }
  }

  // ----- The playlist ---------------------------------------------------------------------------

  datatype Entry = Entry(duration: int, name: Name)

  datatype M3u8 = M3u8(targetDuration: int, mediaSequence: int, entries: seq<Entry>)

  function Entries(items: seq<Item>): (s: seq<Entry>)
    ensures |s| == |items|
  {
    seq(|items|, i requires 0 <= i < |items| => Entry(items[i].duration, items[i].name))
  }

  function MaxDuration(items: seq<Item>): (d: int)
    ensures d >= 0 && forall i | 0 <= i < |items| :: items[i].duration <= d
    ensures d == 0 || exists i :: 0 <= i < |items| && items[i].duration == d
  {
    if items == [] then 0
    else
      var n := |items| - 1;
      var d := MaxDuration(items[..n]);
      if items[n].duration > d then items[n].duration else
        assert d == 0 || exists i :: 0 <= i < n && items[..n][i].duration == d && items[i].duration == d;
        d
  }

  /** What is printed for the segments of a window. */
  function Printed(items: seq<Item>): M3u8 {
    M3u8(MaxDuration(items) / 1000 + 1, if items == [] then 0 else items[0].seqNum, Entries(items))
  }

  predicate PrintedSoFar(found: seq<Item>, entries: seq<Entry>, maxDuration: int, getSeq: bool, seqNum: int) {
    && entries == Entries(found) && maxDuration == MaxDuration(found)
    && getSeq == (found != []) && seqNum == if found == [] then 0 else found[0].seqNum
  }

  lemma PrintedNext(found: seq<Item>, v: Item, entries: seq<Entry>, maxDuration: int, getSeq: bool, seqNum: int)
    requires PrintedSoFar(found, entries, maxDuration, getSeq, seqNum)
    ensures PrintedSoFar(found + [v], entries + [Entry(v.duration, v.name)],
                         if v.duration > maxDuration then v.duration else maxDuration,
                         true, if getSeq then seqNum else v.seqNum)
  {
    assert (found + [v])[..|found|] == found;
  }

  lemma PrintedNothing(lm: map<Name, Item>)
    ensures PrintedSoFar(Found([], lm), [], 0, false, 0)
  {
  }

  lemma PrintedAll(found: seq<Item>, entries: seq<Entry>, maxDuration: int, getSeq: bool, seqNum: int)
    requires PrintedSoFar(found, entries, maxDuration, getSeq, seqNum)
    ensures Printed(found) == M3u8(maxDuration / 1000 + 1, seqNum, entries)
  {
    hide MaxDuration, Entries;
  }

  lemma FoundNext(ll: seq<Name>, lm: map<Name, Item>, i: nat)
    requires i < |ll|
    ensures Found(ll[..i + 1], lm) == if ll[i] in lm then Found(ll[..i], lm) + [lm[ll[i]]] else Found(ll[..i], lm)
  {
    assert ll[..i + 1][..i] == ll[..i];
  }

  /** Section 4.3.3.1 of RFC 8216: every duration, rounded to the nearest second, is at most the
      target duration. */
  lemma TargetCoversEveryDuration(items: seq<Item>, i: nat)
    requires i < |items| && items[i].duration >= 0
    ensures (items[i].duration + 500) / 1000 <= Printed(items).targetDuration
    ensures Printed(items).entries[i] == Entry(items[i].duration, items[i].name)
  {
    assert items[i].duration <= MaxDuration(items);
  }

  lemma WalkFindsShown(w: Window, items: seq<Item>)
    requires Shows(w, items)
    ensures Found(w.ll, w.lm) == items
  {
    FindsWhatIsShown(w.ll, w.lm, items);
  }

  /** What is printed after any run of segments is the last three: their names and durations, a target
      that covers each of them, and a media sequence number that counts the segments gone. */
  lemma PrintsLastItems(items: seq<Item>)
    requires NearbyNamesDiffer(items) && items != [] && Numbered(items)
    requires forall i | 0 <= i < |items| :: items[i].duration >= 0
    ensures var w, last := Run(items), LastItems(items);
      var p := Printed(Found(w.ll, w.lm));
      && |last| == |p.entries| == Min(3, |items|) && p.mediaSequence == 1 + |items| - |last|
      && (forall i | 0 <= i < |last| ::
            && last[i] == items[|items| - |last| + i] && p.entries[i] == Entry(last[i].duration, last[i].name)
            && (last[i].duration + 500) / 1000 <= p.targetDuration)
      && exists i :: 0 <= i < |last| && p.targetDuration == last[i].duration / 1000 + 1
  {
    var w, last := Run(items), LastItems(items);
    hide Run, Shows, Found, NearbyNamesDiffer, Printed, LastItems, Agree;
    RunShowsLast(items);
    WalkFindsShown(w, last);
    MediaSequence(items);
    LastAre(items);
    PrintsEach(last);
    TargetIsReached(last);
  }

  lemma PrintsEach(items: seq<Item>)
    requires forall i | 0 <= i < |items| :: items[i].duration >= 0
    ensures var p := Printed(items);
      && |p.entries| == |items|
      && forall i | 0 <= i < |items| ::
           && p.entries[i] == Entry(items[i].duration, items[i].name)
           && (items[i].duration + 500) / 1000 <= p.targetDuration
  {
    hide MaxDuration, Printed;
    EntriesAreAsMany(items);
    forall i | 0 <= i < |items|
      ensures Printed(items).entries[i] == Entry(items[i].duration, items[i].name)
      ensures (items[i].duration + 500) / 1000 <= Printed(items).targetDuration
    {
      TargetCoversEveryDuration(items, i);
    }
  }

  lemma LastAre(items: seq<Item>)
    ensures var last := LastItems(items);
      && |last| == Min(3, |items|) && forall i | 0 <= i < |last| :: last[i] == items[|items| - |last| + i]
  {
  }

  lemma EntriesAreAsMany(items: seq<Item>)
    ensures |Printed(items).entries| == |items|
  {
    hide MaxDuration;
  }

  /** The target is the whole seconds of the longest duration and one more. */
  lemma TargetIsReached(items: seq<Item>)
    requires items != [] && forall i | 0 <= i < |items| :: items[i].duration >= 0
    ensures exists i :: 0 <= i < |items| && Printed(items).targetDuration == items[i].duration / 1000 + 1
  {
    var d := MaxDuration(items);
    assert d == 0 ==> items[0].duration == d;
  }

  predicate Numbered(items: seq<Item>) {
    forall i | 0 <= i < |items| :: items[i].seqNum == i + 1
  }

  /** Section 6.2.2 of RFC 8216: the media sequence number counts the segments that were removed. */
  lemma MediaSequence(items: seq<Item>)
    requires Numbered(items) && items != []
    ensures Printed(LastItems(items)).mediaSequence == 1 + |items| - |LastItems(items)|
  {
  }

  class TSCacheItem {
    var ll: seq<Name>
    var lm: map<Name, Item>

    function State(): Window
      reads this
    {
      Window(ll, lm)
    }

    constructor ()
      ensures State() == Run([])
    {
      ll, lm := [], map[];
    }

    method SetItem(key: Name, item: Item)
      modifies this
      ensures State() == Set(old(State()), key, item)
    {
      if |ll| == MAX_ITEMS {
        var k := ll[0];
        ll := ll[1..];
        lm := lm - {k};
      }
      lm := lm[key := item];
      ll := ll + [key];
    }

    /** The stored segment, or nothing. */
    method GetItem(key: Name) returns (item: Option<Item>)
      ensures item == if key in lm then Some(lm[key]) else None
      ensures forall items: seq<Item> :: Shows(State(), items) && item.Some? ==> item.value in items
    {
      item := if key in lm then Some(lm[key]) else None;
      if item.Some? {
        forall items: seq<Item> | Shows(State(), items)
          ensures item.value in items
        {
          assert key in State().lm;
          var i :| 0 <= i < |items| && items[i].name == key;
          assert items[i] == lm[key];
        }
      }
    }

    /** Walks the list and looks every name up. */
    method GenM3U8PlayList() returns (p: M3u8)
      ensures p == Printed(Found(ll, lm))
      ensures forall items: seq<Item> :: Shows(State(), items) ==> p == Printed(items)
    {
      hide PrintedSoFar, Found, Printed, Shows;
      var seqNum, getSeq, maxDuration, entries := 0, false, 0, [];
      PrintedNothing(lm);
      for i := 0 to |ll|
        invariant PrintedSoFar(Found(ll[..i], lm), entries, maxDuration, getSeq, seqNum)
      {
        var key := ll[i];
        FoundNext(ll, lm, i);
        if key in lm {
          var v := lm[key];
          PrintedNext(Found(ll[..i], lm), v, entries, maxDuration, getSeq, seqNum);
          if v.duration > maxDuration {
            maxDuration := v.duration;
          }
          if !getSeq {
            getSeq := true;
            seqNum := v.seqNum;
          }
          entries := entries + [Entry(v.duration, v.name)];
        }
      }
      assert ll[..|ll|] == ll;
      PrintedAll(Found(ll, lm), entries, maxDuration, getSeq, seqNum);
      p := M3u8(maxDuration / 1000 + 1, seqNum, entries);
      forall items: seq<Item> | Shows(State(), items)
        ensures p == Printed(items)
      {
        WalkFindsShown(State(), items);
      }
    }
  }
}
