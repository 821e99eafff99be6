/** Pictures in the two framings of H.264: units behind their lengths, as in files and RTMP, and
    units behind start codes, as in a transport stream. */
module AnnexBFormat {
  import opened Bytes

  type NalUnit = seq<byte>

  datatype Error =
    | VideoDataInvalid | DataSizeNotMatch | NaluBodyLenError
    | DecDataNil | SpsDataError | PpsHeaderError | PpsDataError

  const START_CODE: seq<byte> := [0x00, 0x00, 0x00, 0x01]
  const AUD: NalUnit := [0x09, 0xf0]

  const SLICE: nat := 1
  const IDR: nat := 5
  const SEI: nat := 6
  const SPS: nat := 7
  const PPS: nat := 8

  function Type(u: NalUnit): nat {
    if u == [] then 0 else (u[0] as int) % 32
  }

  // ----- Units behind lengths -------------------------------------------------------------------

  /** The units that could be cut off, and why that ended before the end of the input. */
  datatype Split = Split(units: seq<NalUnit>, error: Option<Error>)

  function SplitUnits(src: seq<byte>): (r: Split)
    ensures forall u | u in r.units :: u != []
    decreases |src|
  {
    if src == [] then Split([], None)
    else if |src| < 4 then Split([], Some(DataSizeNotMatch))
    else
      var n := FromBE(src[..4]);
      if n == 0 || |src| - 4 < n then Split([], Some(NaluBodyLenError))
      else Before([src[4..4 + n]], SplitUnits(src[4 + n..]))
  }

  function Before(units: seq<NalUnit>, s: Split): Split {
    s.(units := units + s.units)
  }

  function Framed(units: seq<NalUnit>): seq<byte> {
    if units == [] then [] else BE(|units[0]|, 4) + (units[0] + Framed(units[1..]))
  }

  predicate Frameable(units: seq<NalUnit>) {
    forall i | 0 <= i < |units| :: 0 < |units[i]| < 0x1_0000_0000
  }

  lemma {:induction false} FramedSplits(units: seq<NalUnit>)
    requires Frameable(units)
    ensures SplitUnits(Framed(units)) == Split(units, None)
  {
    hide BE, FromBE;
    if units != [] {
      var u, more := units[0], Framed(units[1..]);
      FramedSplits(units[1..]);
      Pow256Values();
      FromBEInvertsBE(|u|, 4);
      Unjoin(BE(|u|, 4), u + more);
      Unjoin(u, more);
      CutOut(BE(|u|, 4), u, more);
      assert units == [u] + units[1..];
    }
  }

  lemma CutOut(a: seq<byte>, u: seq<byte>, more: seq<byte>)
    ensures var s := a + (u + more);
      s[|a|..|a| + |u|] == u && s[|a| + |u|..] == more
  {
  }

  lemma {:induction false} SplitIsFramed(src: seq<byte>)
    requires SplitUnits(src).error.None?
    ensures Frameable(SplitUnits(src).units) && Framed(SplitUnits(src).units) == src
    decreases |src|
  {
    if src != [] {
      FirstUnit(src);
      var n := FromBE(src[..4]);
      var head, u, rest := src[..4], src[4..4 + n], src[4 + n..];
      hide Framed, Frameable, FromBE, SplitUnits;
      SplitIsFramed(rest);
      FramedFirst(head, u, SplitUnits(rest).units);
      Pieces(src, n);
    }
  }

  lemma FirstUnit(src: seq<byte>)
    requires SplitUnits(src).error.None? && src != []
    ensures |src| >= 4 && 0 < FromBE(src[..4]) <= |src| - 4
    ensures var n := FromBE(src[..4]);
      SplitUnits(src) == Before([src[4..4 + n]], SplitUnits(src[4 + n..]))
  {
    hide FromBE;
  }

  lemma Pieces(src: seq<byte>, n: nat)
    requires 4 + n <= |src|
    ensures src == src[..4] + (src[4..4 + n] + src[4 + n..])
  {
  }

  lemma FramedFirst(head: seq<byte>, u: NalUnit, units: seq<NalUnit>)
    requires |head| == 4 && |u| == FromBE(head) > 0 && Frameable(units)
    ensures Frameable([u] + units) && Framed([u] + units) == head + (u + Framed(units))
  {
    hide BE, FromBE;
    assert ([u] + units)[1..] == units;
    Pow256Values();
    BEInvertsFromBE(head);
  }

  /** Cutting succeeds exactly on the concatenations of non-empty units with four-byte lengths, and
      gives those units. */
  lemma SplitsExactlyFramed(src: seq<byte>, units: seq<NalUnit>)
    ensures SplitUnits(src) == Split(units, None) <==> Frameable(units) && src == Framed(units)
  {
    if SplitUnits(src) == Split(units, None) {
      SplitIsFramed(src);
    }
    if Frameable(units) && src == Framed(units) {
      FramedSplits(units);
    }
  }

  /** Bytes that no unit can be cut from: less than a length, a length of zero or one beyond the end. */
  predicate NoUnit(tail: seq<byte>) {
    tail != [] && (|tail| < 4 || FromBE(tail[..4]) == 0 || FromBE(tail[..4]) > |tail| - 4)
  }

  /** Of units with something else behind them the units are cut off, and the error says whether a whole
      length was there. */
  lemma {:induction false} BrokenSplits(units: seq<NalUnit>, tail: seq<byte>)
    requires Frameable(units) && NoUnit(tail)
    ensures SplitUnits(Framed(units) + tail)
         == Split(units, Some(if |tail| < 4 then DataSizeNotMatch else NaluBodyLenError))
  {
    hide BE, FromBE;
    if units == [] {
      assert [] + tail == tail;
    } else {
      var u, more := units[0], Framed(units[1..]) + tail;
      BrokenSplits(units[1..], tail);
      Pow256Values();
      FromBEInvertsBE(|u|, 4);
      Regroup(BE(|u|, 4), u + Framed(units[1..]), tail);
      Regroup(u, Framed(units[1..]), tail);
      Unjoin(BE(|u|, 4), u + more);
      Unjoin(u, more);
      CutOut(BE(|u|, 4), u, more);
      assert units == [u] + units[1..];
    }
  }

  // ----- Units behind start codes ---------------------------------------------------------------

  function AnnexB(units: seq<NalUnit>): seq<byte> {
    if units == [] then [] else AnnexB(units[..|units| - 1]) + (START_CODE + units[|units| - 1])
  }

  /** Pictures and what belongs to them. */
  function Visible(units: seq<NalUnit>): seq<NalUnit> {
    if units == [] then []
    else
      Visible(units[..|units| - 1]) + Shown(units[|units| - 1])
  }

  function Shown(u: NalUnit): seq<NalUnit> {
    if Type(u) in {SLICE, IDR, SEI} then [u] else []
  }

  function ParameterSets(units: seq<NalUnit>): seq<NalUnit> {
    if units == [] then []
    else
      var u := units[|units| - 1];
      ParameterSets(units[..|units| - 1]) + if Type(u) in {SPS, PPS} then [u] else []
  }

  /** The number of units before the first one that begins a new sequence. */
  function FirstIdr(units: seq<NalUnit>): (k: nat)
    ensures k <= |units|
  {
    if units == [] then 0
    else
      var n := |units| - 1;
      var k := FirstIdr(units[..n]);
      if k < n then k else if Type(units[n]) == IDR then n else n + 1
  }

  /** The parameter sets that stand before the first such unit, or else the stored ones. */
  function Params(before: seq<NalUnit>, info: seq<NalUnit>): seq<NalUnit> {
    if ParameterSets(before) == [] then info else ParameterSets(before)
  }

  /** What the picture is rewritten to: the visible units in order, with parameter sets once, just
      before the first unit that begins a new sequence. */
  function Rewritten(units: seq<NalUnit>, info: seq<NalUnit>): seq<NalUnit> {
    var k := FirstIdr(units);
    if k == |units| then Visible(units)
    else Visible(units[..k]) + Params(units[..k], info) + Visible(units[k..])
  }

  lemma FiltersNext(units: seq<NalUnit>, u: NalUnit)
    ensures Visible(units + [u]) == Visible(units) + Shown(u)
    ensures ParameterSets(units + [u])
         == if Type(u) in {SPS, PPS} then ParameterSets(units) + [u] else ParameterSets(units)
    ensures FirstIdr(units + [u])
         == if FirstIdr(units) < |units| then FirstIdr(units)
            else if Type(u) == IDR then |units| else |units| + 1
  {
    assert (units + [u])[..|units|] == units;
  }

  lemma RewrittenNext(units: seq<NalUnit>, u: NalUnit, info: seq<NalUnit>)
    ensures Rewritten(units + [u], info)
         == if Type(u) == IDR && FirstIdr(units) == |units| then Rewritten(units, info) + Params(units, info) + [u]
            else Rewritten(units, info) + Shown(u)
  {
    hide Visible, FirstIdr, Params, Shown;
    var all, k := units + [u], FirstIdr(units);
    FiltersNext(units, u);
    if k < |units| {
      Halves(units, k, u);
      FiltersNext(units[k..], u);
      Regroup(Visible(units[..k]) + Params(units[..k], info), Visible(units[k..]), Shown(u));
    } else if Type(u) == IDR {
      Unjoin(units, [u]);
      FiltersNext([], u);
      NothingVisible(u);
    }
  }

  lemma Halves(units: seq<NalUnit>, k: nat, u: NalUnit)
    requires k <= |units|
    ensures (units + [u])[..k] == units[..k] && (units + [u])[k..] == units[k..] + [u]
  {
  }

  lemma NothingVisible(u: NalUnit)
    ensures Visible([]) == [] && [] + [u] == [u] && [] + Shown(u) == Shown(u)
    ensures Type(u) == IDR ==> Shown(u) == [u]
  {
  }

  lemma AnnexBNext(units: seq<NalUnit>, u: NalUnit)
    ensures AnnexB(units + [u]) == AnnexB(units) + (START_CODE + u)
  {
    assert (units + [u])[..|units|] == units;
  }

  lemma {:induction false} AnnexBBoth(a: seq<NalUnit>, b: seq<NalUnit>)
    ensures AnnexB(a + b) == AnnexB(a) + AnnexB(b)
  {
    if b == [] {
      assert a + b == a && AnnexB(a) + [] == AnnexB(a);
    } else {
      var n := |b| - 1;
      AnnexBBoth(a, b[..n]);
      assert b == b[..n] + [b[n]];
      hide AnnexB;
      Regroup(a, b[..n], [b[n]]);
      AnnexBNext(a + b[..n], b[n]);
      AnnexBNext(b[..n], b[n]);
      Regroup(AnnexB(a), AnnexB(b[..n]), START_CODE + b[n]);
    }
  }

  // ----- Reading units behind start codes -------------------------------------------------------

  predicate StartsAt(s: seq<byte>, i: nat) {
    i + 4 <= |s| && s[i..i + 4] == START_CODE
  }

  /** The three bytes that begin a unit. */
  predicate PrefixAt(s: seq<byte>, i: nat) {
    i + 3 <= |s| && s[i] == 0 && s[i + 1] == 0 && s[i + 2] == 1
  }

  /** Three bytes that end a unit: those that begin the next, or zeros before them. */
  predicate EndAt(s: seq<byte>, i: nat) {
    i + 3 <= |s| && s[i] == 0 && s[i + 1] == 0 && s[i + 2] <= 1
  }

  /** The next beginning of a unit from index i on, or the end. */
  function NextPrefix(s: seq<byte>, i: nat): (j: nat)
    requires i <= |s|
    ensures i <= j <= |s| && (j < |s| ==> PrefixAt(s, j))
    decreases |s| - i
  {
    if i == |s| || PrefixAt(s, i) then i else NextPrefix(s, i + 1)
  }

  /** The next end of a unit from index i on. */
  function NextEnd(s: seq<byte>, i: nat): (j: nat)
    requires i <= |s|
    ensures i <= j <= |s|
    decreases |s| - i
  {
    if i == |s| || EndAt(s, i) then i else NextEnd(s, i + 1)
  }

  /** A decoder's view, as section B.1 of ISO/IEC 14496-10 describes it: a unit goes from a start code
      prefix to the next one or to zeros before it; zeros between units are skipped. */
  function ReadAnnexB(s: seq<byte>): seq<NalUnit>
    decreases |s|
  {
    var i := NextPrefix(s, 0);
    if i == |s| then []
    else
      var j := NextEnd(s, i + 3);
      [s[i + 3..j]] + ReadAnnexB(s[j..])
  }

  /** As section 7.4.1 of ISO/IEC 14496-10 demands of a unit: it has no three bytes that could be
      taken for the end of a unit, and does not end in zero. */
  predicate Clean(u: NalUnit) {
    && u != [] && u[|u| - 1] != 0
    && forall i | 0 <= i < |u| - 2 :: !EndAt(u, i)
  }

  lemma StartBytes(s: seq<byte>, k: nat)
    ensures StartsAt(s, k) <==> k + 4 <= |s| && s[k] == 0 && s[k + 1] == 0 && s[k + 2] == 0 && s[k + 3] == 1
  {
    if k + 4 <= |s| {
      var w := s[k..k + 4];
      assert w[0] == s[k] && w[1] == s[k + 1] && w[2] == s[k + 2] && w[3] == s[k + 3];
    }
  }

  /** Nothing in a unit is taken for its end; a unit with another one behind it does not end in zero. */
  predicate Whole(u: NalUnit, more: bool) {
    && (forall i | 0 <= i < |u| - 2 :: !EndAt(u, i))
    && (more && u != [] ==> u[|u| - 1] != 0)
  }

  predicate AllWhole(units: seq<NalUnit>) {
    forall i | 0 <= i < |units| :: Whole(units[i], i + 1 < |units|)
  }

  /** Where the end of a unit is found: within it, behind it, or across both. */
  lemma EndOfUnit(u: NalUnit, rest: seq<byte>, i: nat)
    requires (rest == [] || StartsAt(rest, 0)) && i <= |u|
    ensures var s := START_CODE + u + rest;
      EndAt(s, 4 + i) <==> if i == |u| then rest != []
                           else if i + 2 < |u| then EndAt(u, i)
                           else if i + 1 == |u| then u[i] == 0 && rest != []
                           else u[i] == 0 && u[i + 1] == 0 && rest != []
  {
    var s := START_CODE + u + rest;
    StartBytes(rest, 0);
    if i + 2 < |u| {
      assert s[4 + i] == u[i] && s[4 + i + 1] == u[i + 1] && s[4 + i + 2] == u[i + 2];
    } else if i + 1 < |u| {
      assert s[4 + i] == u[i] && s[4 + i + 1] == u[i + 1] && (rest != [] ==> s[4 + i + 2] == rest[0]);
    } else if i < |u| {
      assert s[4 + i] == u[i] && (rest != [] ==> s[4 + i + 1] == rest[0] && s[4 + i + 2] == rest[1]);
    } else {
      assert rest != [] ==> s[4 + i] == rest[0] && s[4 + i + 1] == rest[1] && s[4 + i + 2] == rest[2];
    }
  }

  lemma EndsEarlyExactly(u: NalUnit, rest: seq<byte>)
    requires rest == [] || StartsAt(rest, 0)
    ensures Whole(u, rest != []) <==> forall p | 4 <= p < 4 + |u| :: !EndAt(START_CODE + u + rest, p)
  {
    hide EndAt, StartsAt;
    var s := START_CODE + u + rest;
    forall p | 4 <= p < 4 + |u| ensures Whole(u, rest != []) ==> !EndAt(s, p) {
      EndOfUnit(u, rest, p - 4);
    }
    if forall p | 4 <= p < 4 + |u| :: !EndAt(s, p) {
      forall i | 0 <= i < |u| - 2 ensures !EndAt(u, i) {
        EndOfUnit(u, rest, i);
      }
      if u != [] {
        EndOfUnit(u, rest, |u| - 1);
      }
    }
  }

  /** The search for an end gets to n, where there is one, exactly if it meets none before. */
  lemma {:induction false} SearchEnds(s: seq<byte>, i: nat, n: nat)
    requires i <= n <= |s| && (n == |s| || EndAt(s, n))
    ensures NextEnd(s, i) <= n
    ensures NextEnd(s, i) == n <==> forall p | i <= p < n :: !EndAt(s, p)
    decreases n - i
  {
    hide EndAt;
    if i < n {
      SearchEnds(s, i + 1, n);
    }
  }

  lemma AnnexBFirst(units: seq<NalUnit>)
    requires units != []
    ensures AnnexB(units) == START_CODE + units[0] + AnnexB(units[1..])
    ensures StartsAt(AnnexB(units), 0)
  {
    assert units == [units[0]] + units[1..];
    AnnexBBoth([units[0]], units[1..]);
    assert [units[0]] == [] + [units[0]];
    AnnexBNext([], units[0]);
  }

  /** A decoder finds exactly the units that were written if and only if nothing in them is taken for
      the end of a unit. */
  lemma {:induction false} ReadsExactlyWhole(units: seq<NalUnit>)
    ensures ReadAnnexB(AnnexB(units)) == units <==> AllWhole(units)
    decreases |units|
  {
    hide Whole, AllWhole, ReadAnnexB, AnnexB;
    if units == [] {
      NothingRead();
    } else {
      var u, rest := units[0], AnnexB(units[1..]);
      ReadsExactlyWhole(units[1..]);
      AnnexBFirst(units);
      StartOrEnd(units[1..]);
      ReadFirst(u, rest);
      FirstWhole(units);
      FirstAndRest(u, ReadAnnexB(rest), units);
    }
  }

  lemma NothingRead()
    ensures ReadAnnexB(AnnexB([])) == [] && AllWhole([])
  {
  }

  lemma FirstAndRest(u: NalUnit, rest: seq<NalUnit>, units: seq<NalUnit>)
    requires units != [] && u == units[0]
    ensures [u] + rest == units <==> rest == units[1..]
  {
    assert units == [u] + units[1..];
    Unjoin([u], rest);
  }

  lemma FirstWhole(units: seq<NalUnit>)
    requires units != []
    ensures AllWhole(units) <==> Whole(units[0], AnnexB(units[1..]) != []) && AllWhole(units[1..])
  {
    hide Whole, AnnexB;
    StartOrEnd(units[1..]);
    var more := units[1..];
    assert AnnexB(more) == [] <==> more == [] by { NothingWritten(more); }
    if AllWhole(units) {
      forall i | 0 <= i < |more| ensures Whole(more[i], i + 1 < |more|) {
        assert Whole(units[i + 1], i + 2 < |units|);
      }
    }
    if Whole(units[0], more != []) && AllWhole(more) {
      forall i | 0 <= i < |units| ensures Whole(units[i], i + 1 < |units|) {
        assert i > 0 ==> Whole(more[i - 1], i < |more|) && more[i - 1] == units[i];
      }
    }
  }

  lemma NothingWritten(units: seq<NalUnit>)
    ensures AnnexB(units) == [] <==> units == []
  {
  }

  lemma CleanIsWhole(units: seq<NalUnit>)
    requires forall u | u in units :: Clean(u)
    ensures AllWhole(units)
  {
    forall i | 0 <= i < |units| ensures Whole(units[i], i + 1 < |units|) {
      assert units[i] in units;
    }
  }

  /** Of valid units a decoder finds exactly those that were written. */
  lemma ReadsWhatWasWritten(units: seq<NalUnit>)
    requires forall u | u in units :: Clean(u)
    ensures ReadAnnexB(AnnexB(units)) == units
  {
    CleanIsWhole(units);
    ReadsExactlyWhole(units);
  }

  lemma StartOrEnd(units: seq<NalUnit>)
    ensures AnnexB(units) == [] || StartsAt(AnnexB(units), 0)
  {
    if units != [] {
      AnnexBFirst(units);
    }
  }

  lemma ReadFirst(u: NalUnit, rest: seq<byte>)
    requires rest == [] || StartsAt(rest, 0)
    ensures var r := ReadAnnexB(START_CODE + u + rest);
      && (Whole(u, rest != []) ==> r == [u] + ReadAnnexB(rest))
      && (!Whole(u, rest != []) ==> r != [] && |r[0]| < |u|)
  {
    var s := START_CODE + u + rest;
    assert s[0] == 0 && s[1] == 0 && s[2] == 0 && s[3] == 1;
    hide StartsAt, Whole;
    assert NextPrefix(s, 0) == 1;
    EndOfUnit(u, rest, |u|);
    SearchEnds(s, 4, 4 + |u|);
    EndsEarlyExactly(u, rest);
    var j := NextEnd(s, 4);
    assert ReadAnnexB(s) == [s[4..j]] + ReadAnnexB(s[j..]);
    if Whole(u, rest != []) {
      assert s[4..4 + |u|] == u && s[4 + |u|..] == rest;
    }
  }

  // ----- Meaning --------------------------------------------------------------------------------

  lemma {:induction false} VisibleBoth(a: seq<NalUnit>, b: seq<NalUnit>)
    ensures Visible(a + b) == Visible(a) + Visible(b)
  {
    if b == [] {
      assert a + b == a;
    } else {
      var n := |b| - 1;
      VisibleBoth(a, b[..n]);
      assert b == b[..n] + [b[n]];
      hide Visible, Shown;
      Regroup(a, b[..n], [b[n]]);
      FiltersNext(a + b[..n], b[n]);
      FiltersNext(b[..n], b[n]);
      Regroup(Visible(a), Visible(b[..n]), Shown(b[n]));
    }
  }

  lemma NothingToSelect()
    ensures Visible([]) == [] && ParameterSets([]) == []
  {
  }

  lemma {:induction false} VisibleAgain(units: seq<NalUnit>)
    ensures Visible(Visible(units)) == Visible(units)
  {
    hide Visible;
    NothingToSelect();
    if units != [] {
      var n := |units| - 1;
      assert units == units[..n] + [units[n]];
      FiltersNext(units[..n], units[n]);
      VisibleAgain(units[..n]);
      FiltersNext(Visible(units[..n]), units[n]);
      assert Shown(units[n]) == [] ==> Visible(units) == Visible(units[..n]);
    }
  }

  lemma {:induction false} SetsInvisible(units: seq<NalUnit>)
    ensures Visible(ParameterSets(units)) == []
  {
    hide Visible, ParameterSets;
    NothingToSelect();
    if units != [] {
      var n := |units| - 1;
      assert units == units[..n] + [units[n]];
      FiltersNext(units[..n], units[n]);
      SetsInvisible(units[..n]);
      FiltersNext(ParameterSets(units[..n]), units[n]);
    }
  }

  lemma ThreeParts(a: seq<NalUnit>, p: seq<NalUnit>, b: seq<NalUnit>)
    requires Visible(p) == []
    ensures Visible(Visible(a) + p + Visible(b)) == Visible(a + b)
  {
    hide Visible;
    VisibleAgain(a);
    VisibleAgain(b);
    VisibleBoth(a, b);
    VisibleBoth(Visible(a), p);
    VisibleBoth(Visible(a) + p, Visible(b));
  }

  /** The pictures are those of the input, in order. */
  lemma PicturesPreserved(units: seq<NalUnit>, info: seq<NalUnit>)
    requires Visible(info) == []
    ensures Visible(Rewritten(units, info)) == Visible(units)
  {
    hide Visible, FirstIdr;
    var k := FirstIdr(units);
    if k < |units| {
      SetsInvisible(units[..k]);
      ThreeParts(units[..k], Params(units[..k], info), units[k..]);
      assert units == units[..k] + units[k..];
    } else {
      VisibleAgain(units);
    }
  }

  lemma {:induction false} FiltersSelect(units: seq<NalUnit>)
    ensures forall u | u in Visible(units) :: u in units
    ensures forall u | u in ParameterSets(units) :: u in units
  {
    if units != [] {
      FiltersSelect(units[..|units| - 1]);
    }
  }

  lemma RewrittenClean(units: seq<NalUnit>, info: seq<NalUnit>)
    requires forall u | u in units + info :: Clean(u)
    ensures forall u | u in Rewritten(units, info) :: Clean(u)
  {
    hide Clean, Visible, ParameterSets, FirstIdr;
    var k := FirstIdr(units);
    FiltersSelect(units);
    FiltersSelect(units[..k]);
    FiltersSelect(units[k..]);
    forall u | u in Rewritten(units, info) ensures u in units + info {
      if k < |units| {
        assert u in Visible(units[..k]) || u in Params(units[..k], info) || u in Visible(units[k..]);
      }
    }
  }

  // ----- What a picture is meant to be rewritten to -----------------------------------------------

  /** The units of some types, in order (table 7-1 of ISO/IEC 14496-10). */
  function Only(units: seq<NalUnit>, types: set<nat>): seq<NalUnit> {
    if units == [] then []
    else
      var u := units[|units| - 1];
      Only(units[..|units| - 1], types) + if u != [] && (u[0] as int) % 32 in types then [u] else []
  }

  /** The index of the first unit of type 5, or the number of units. */
  function FirstOfType5(units: seq<NalUnit>, from: nat): (k: nat)
    requires from <= |units|
    ensures from <= k <= |units|
    decreases |units| - from
  {
    if from == |units| || (units[from] != [] && (units[from][0] as int) % 32 == 5) then from
    else FirstOfType5(units, from + 1)
  }

  /** The delimiter, the units of pictures in order, and just before the first of type 5 the parameter
      sets that stand before it, or else the stored ones. */
  function Meant(units: seq<NalUnit>, info: seq<NalUnit>): seq<NalUnit> {
    var k := FirstOfType5(units, 0);
    var sets := Only(units[..k], {7, 8});
    [[0x09, 0xf0]]
    + if k == |units| then Only(units, {1, 5, 6})
      else Only(units[..k], {1, 5, 6}) + (if sets == [] then info else sets) + Only(units[k..], {1, 5, 6})
  }

  lemma {:induction false} OnlyIs(units: seq<NalUnit>)
    ensures Visible(units) == Only(units, {1, 5, 6}) && ParameterSets(units) == Only(units, {7, 8})
  {
    if units != [] {
      OnlyIs(units[..|units| - 1]);
      assert Type([]) == 0;
    }
  }

  lemma {:induction false} FirstIs(units: seq<NalUnit>, from: nat)
    requires from <= |units| && forall i | 0 <= i < from :: Type(units[i]) != 5
    ensures FirstOfType5(units, from) == FirstIdr(units)
    decreases |units| - from
  {
    assert Type([]) == 0;
    if from == |units| || Type(units[from]) == 5 {
      FirstIdrIs(units, from);
    } else {
      FirstIs(units, from + 1);
    }
  }

  lemma {:induction false} FirstIdrIs(units: seq<NalUnit>, k: nat)
    requires k <= |units| && (forall i | 0 <= i < k :: Type(units[i]) != 5) && (k < |units| ==> Type(units[k]) == 5)
    ensures FirstIdr(units) == k
    decreases |units|
  {
    hide Type;
    if units != [] {
      var n := |units| - 1;
      FirstIdrIs(units[..n], if k <= n then k else n);
    }
  }

  lemma RewrittenIsMeant(units: seq<NalUnit>, info: seq<NalUnit>)
    ensures [AUD] + Rewritten(units, info) == Meant(units, info)
  {
    hide Visible, ParameterSets, Only, FirstIdr, FirstOfType5;
    var k := FirstIdr(units);
    FirstIs(units, 0);
    OnlyIs(units);
    OnlyIs(units[..k]);
    OnlyIs(units[k..]);
  }

  // ----- A picture from end to end ----------------------------------------------------------------

  /** What is written for a picture, and the error it ends with. */
  function Parsed(b: seq<byte>, info: seq<NalUnit>): (seq<byte>, Option<Error>) {
    if StartsAt(b, 0) then (b, None)
    else if |b| < 4 then ([], Some(VideoDataInvalid))
    else (AnnexB([AUD] + Rewritten(SplitUnits(b).units, info)), SplitUnits(b).error)
  }

  /** From a framed picture whose first unit has more than a byte a decoder of the output gets the
      delimiter, the pictures in order, and the parameter sets just before the first picture that needs
      them, if and only if nothing in what is written is taken for the end of a unit. */
  lemma DecoderSeesExactly(units: seq<NalUnit>, info: seq<NalUnit>)
    requires Frameable(units) && units != [] && |units[0]| != 1
    ensures var (out, err), meant := Parsed(Framed(units), info), Meant(units, info);
      && err == None
      && (ReadAnnexB(out) == meant <==> AllWhole(meant))
  {
    hide AllWhole, ReadAnnexB, AnnexB, Rewritten, SplitUnits, BE, StartsAt, Meant;
    FramedSplits(units);
    FirstFramed(units);
    LooksLikeAnnexBExactly(units);
    ReadsExactlyWhole([AUD] + Rewritten(units, info));
    RewrittenIsMeant(units, info);
  }

  /** Of a picture that breaks off everything up to there is written; what has a start code already is
      passed on. */
  lemma BrokenIsWritten(units: seq<NalUnit>, tail: seq<byte>, info: seq<NalUnit>)
    requires Frameable(units) && units != [] && |units[0]| != 1 && NoUnit(tail)
    ensures Parsed(Framed(units) + tail, info)
         == (AnnexB(Meant(units, info)), Some(if |tail| < 4 then DataSizeNotMatch else NaluBodyLenError))
    ensures Parsed([0, 0, 0, 1] + tail, info) == ([0, 0, 0, 1] + tail, None)
  {
    hide AnnexB, Rewritten, SplitUnits, BE, Meant, FromBE;
    BrokenSplits(units, tail);
    FirstFramed(units);
    LooksLikeAnnexBExactly(units);
    StartBytes(Framed(units), 0);
    StartBytes(Framed(units) + tail, 0);
    StartBytes([0, 0, 0, 1] + tail, 0);
    RewrittenIsMeant(units, info);
  }

  /** Of valid units it always gets them, and of them the pictures of the input. */
  lemma DecoderSeesRewritten(units: seq<NalUnit>, info: seq<NalUnit>)
    requires Frameable(units) && units != [] && |units[0]| != 1
    requires forall u | u in units + info :: Clean(u)
    ensures Parsed(Framed(units), info).1 == None
    ensures var seen := ReadAnnexB(Parsed(Framed(units), info).0);
      && seen == Meant(units, info)
      && (Only(info, {1, 5, 6}) == [] ==> Only(seen, {1, 5, 6}) == Only(units, {1, 5, 6}))
  {
    hide AllWhole, ReadAnnexB, AnnexB, Rewritten, SplitUnits, BE, StartsAt, Visible, Clean, Meant, Only;
    RewrittenClean(units, info);
    AudClean();
    CleanIsWhole([AUD] + Rewritten(units, info));
    DecoderSeesExactly(units, info);
    RewrittenIsMeant(units, info);
    OnlyIs(info);
    OnlyIs(units);
    OnlyIs(Meant(units, info));
    if Visible(info) == [] {
      PicturesPreserved(units, info);
      VisibleBoth([AUD], Rewritten(units, info));
    }
  }

  lemma AudClean()
    ensures Clean(AUD) && Visible([AUD]) == []
  {
    assert [AUD][..0] == [] && Type(AUD) == 9;
  }

  /** A framed picture is taken for one with start codes if and only if its first unit has a single
      byte. */
  lemma LooksLikeAnnexBExactly(units: seq<NalUnit>)
    requires Frameable(units) && units != []
    ensures StartsAt(Framed(units), 0) <==> |units[0]| == 1
  {
    hide BE, FromBE, Pow256, Framed;
    var code, rest := BE(|units[0]|, 4), units[0] + Framed(units[1..]);
    assert Framed(units) == code + rest by { FirstFramed(units); }
    assert Framed(units)[0..4] == code;
    Pow256Values();
    FromBEInvertsBE(|units[0]|, 4);
    One();
    FromBEInvertsBE(1, 4);
  }

  lemma FirstFramed(units: seq<NalUnit>)
    requires units != []
    ensures Framed(units) == BE(|units[0]|, 4) + (units[0] + Framed(units[1..]))
  {
  }

  lemma One()
    ensures BE(1, 4) == START_CODE
  {
    assert BE(0, 1) == BE(0, 0) + [0] && BE(0, 2) == BE(0, 1) + [0] && BE(0, 3) == BE(0, 2) + [0];
    assert BE(1, 4) == BE(0, 3) + [1];
  }
}
