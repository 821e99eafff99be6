/** The parser that turns RTMP pictures into what a transport stream carries. */
module AnnexBs {
  import opened Bytes
  import opened Buffers
  import opened AnnexBFormat

  /** The stored parameter sets after a sequence header: the first sequence parameter set and all
      that stands behind the length of the first picture parameter set. */
  function ReadSpecificInfo(src: seq<byte>): (seq<NalUnit>, Option<Error>) {
    if |src| < 9 then ([], Some(DecDataNil))
    else
      var spsLen := (src[6] as int) * 256 + src[7];
      if |src| - 8 < spsLen || spsLen == 0 then ([], Some(SpsDataError))
      else
        var tmp := src[8 + spsLen..];
        if |tmp| < 4 then ([], Some(PpsHeaderError))
        else
          var ppsLen := (tmp[1] as int) * 256 + tmp[2];
          if |tmp| - 3 < ppsLen || ppsLen == 0 then ([], Some(PpsDataError))
          else ([src[8..8 + spsLen], tmp[3..]], None)
  }

  // ----- Sequence headers as they are written ---------------------------------------------------

  /** Parameter sets behind their lengths. */
  function Sets(units: seq<NalUnit>): seq<byte> {
    if units == [] then [] else BE(|units[0]|, 2) + (units[0] + Sets(units[1..]))
  }

  predicate IsSet(u: NalUnit, t: nat) {
    0 < |u| < 0x1_0000 && Type(u) == t
  }

  predicate AreSets(spss: seq<NalUnit>, ppss: seq<NalUnit>) {
    && |spss| < 32 && |ppss| < 256
    && (forall i | 0 <= i < |spss| :: IsSet(spss[i], SPS)) && forall i | 0 <= i < |ppss| :: IsSet(ppss[i], PPS)
  }

  /** What stands behind the sequence parameter sets. */
  function PictureSets(ppss: seq<NalUnit>, more: seq<byte>): seq<byte>
    requires |ppss| < 256
  {
    [|ppss|] + (Sets(ppss) + more)
  }

  /** The decoder configuration of section 5.3.3.1 of ISO/IEC 14496-15: five bytes, the sequence and
      the picture parameter sets behind their numbers, and the fields of the high profiles. */
  function SequenceHeader(head: seq<byte>, spss: seq<NalUnit>, ppss: seq<NalUnit>, more: seq<byte>): seq<byte>
    requires AreSets(spss, ppss)
  {
    head + [0xe0 + |spss|] + (Sets(spss) + PictureSets(ppss, more))
  }

  /** What the parser makes of what follows the first set. */
  function SecondRead(sps: NalUnit, tmp: seq<byte>): (seq<NalUnit>, Option<Error>) {
    if |tmp| < 4 then ([], Some(PpsHeaderError))
    else
      var ppsLen := (tmp[1] as int) * 256 + tmp[2];
      if |tmp| - 3 < ppsLen || ppsLen == 0 then ([], Some(PpsDataError)) else ([sps, tmp[3..]], None)
  }

  lemma FirstSetRead(head: seq<byte>, sps: NalUnit, tmp: seq<byte>)
    requires |head| == 6 && 0 < |sps| < 0x1_0000
    ensures ReadSpecificInfo(head + (BE(|sps|, 2) + (sps + tmp))) == SecondRead(sps, tmp)
  {
    hide BE;
    TwoBytes(|sps|);
    FieldsAt(head, BE(|sps|, 2), sps, tmp);
    FieldsRead(head + (BE(|sps|, 2) + (sps + tmp)), sps, tmp);
  }

  lemma FieldsAt(head: seq<byte>, length: seq<byte>, sps: NalUnit, tmp: seq<byte>)
    requires |head| == 6 && |length| == 2
    ensures var src := head + (length + (sps + tmp));
      && |src| == 8 + |sps| + |tmp| && src[6] == length[0] && src[7] == length[1]
      && src[8..8 + |sps|] == sps && src[8 + |sps|..] == tmp
  {
  }

  lemma FieldsRead(src: seq<byte>, sps: NalUnit, tmp: seq<byte>)
    requires 0 < |sps| < 0x1_0000 && |src| == 8 + |sps| + |tmp|
    requires src[6] == |sps| / 256 && src[7] == |sps| % 256
    requires src[8..8 + |sps|] == sps && src[8 + |sps|..] == tmp
    ensures ReadSpecificInfo(src) == SecondRead(sps, tmp)
  {
    assert (src[6] as int) * 256 + src[7] == |sps|;
  }

  lemma HeaderSplit(head: seq<byte>, spss: seq<NalUnit>, ppss: seq<NalUnit>, more: seq<byte>)
    requires AreSets(spss, ppss) && |head| == 5 && spss != []
    ensures var tmp := Sets(spss[1..]) + PictureSets(ppss, more);
      ReadSpecificInfo(SequenceHeader(head, spss, ppss, more)) == SecondRead(spss[0], tmp)
  {
    hide BE, ReadSpecificInfo, SecondRead, PictureSets;
    var tmp := Sets(spss[1..]) + PictureSets(ppss, more);
    var all := PictureSets(ppss, more);
    assert IsSet(spss[0], SPS);
    Regroup(BE(|spss[0]|, 2), spss[0] + Sets(spss[1..]), all);
    Regroup(spss[0], Sets(spss[1..]), all);
    FirstSetRead(head + [0xe0 + |spss|], spss[0], tmp);
  }

  /** Of a header with one sequence parameter set, the first picture parameter set is stored with all
      that follows it: further sets behind their lengths, and the fields of the high profiles. */
  lemma ReadsSequenceHeader(head: seq<byte>, sps: NalUnit, ppss: seq<NalUnit>, more: seq<byte>)
    requires AreSets([sps], ppss) && |head| == 5 && ppss != []
    ensures ReadSpecificInfo(SequenceHeader(head, [sps], ppss, more)) == ([sps, ppss[0] + (Sets(ppss[1..]) + more)], None)
  {
    hide ReadSpecificInfo, SequenceHeader, SecondRead, PictureSets, Sets;
    HeaderSplit(head, [sps], ppss, more);
    FirstPictureSet(ppss, more);
    PictureSetRead(sps, ppss[0], Sets(ppss[1..]) + more, |ppss|);
    assert [sps][1..] == [];
  }

  lemma FirstPictureSet(ppss: seq<NalUnit>, more: seq<byte>)
    requires 0 < |ppss| < 256
    ensures Sets([]) + PictureSets(ppss, more)
         == [|ppss|] + (BE(|ppss[0]|, 2) + (ppss[0] + (Sets(ppss[1..]) + more)))
  {
    hide BE;
    var pps, rest := ppss[0], Sets(ppss[1..]);
    Regroup(BE(|pps|, 2), pps + rest, more);
    Regroup(pps, rest, more);
    assert Sets([]) + PictureSets(ppss, more) == PictureSets(ppss, more);
  }

  lemma PictureSetRead(sps: NalUnit, pps: NalUnit, rest: seq<byte>, number: byte)
    requires IsSet(pps, PPS)
    ensures SecondRead(sps, [number] + (BE(|pps|, 2) + (pps + rest))) == ([sps, pps + rest], None)
  {
    TwoBytes(|pps|);
    hide BE;
    var tmp := [number] + (BE(|pps|, 2) + (pps + rest));
    assert tmp[1] == BE(|pps|, 2)[0] && tmp[2] == BE(|pps|, 2)[1] && tmp[3..] == pps + rest;
  }

  /** Of a header with more sequence parameter sets, the length of the second one is taken for the
      number of picture parameter sets and a part of their length: either that is an error, or the
      second set is stored without its first byte and with all that follows it. */
  lemma SecondSetMisread(head: seq<byte>, spss: seq<NalUnit>, ppss: seq<NalUnit>, more: seq<byte>)
    requires AreSets(spss, ppss) && |head| == 5 && |spss| >= 2
    ensures var rest := spss[1] + (Sets(spss[2..]) + PictureSets(ppss, more));
      ReadSpecificInfo(SequenceHeader(head, spss, ppss, more)) ==
        if |spss[1]| % 256 * 256 + spss[1][0] >= |rest| then ([], Some(PpsDataError)) else ([spss[0], rest[1..]], None)
  {
    hide ReadSpecificInfo, SequenceHeader;
    HeaderSplit(head, spss, ppss, more);
    var sps, tail := spss[1], PictureSets(ppss, more);
    var rest := sps + (Sets(spss[2..]) + tail);
    assert IsSet(sps, SPS) && |tail| > 0;
    TwoBytes(|sps|);
    hide BE, PictureSets;
    var tmp := BE(|sps|, 2) + rest;
    assert Sets(spss[1..]) + tail == tmp by {
      assert spss[1..][1..] == spss[2..];
      Regroup(BE(|sps|, 2), sps + Sets(spss[2..]), tail);
      Regroup(sps, Sets(spss[2..]), tail);
    }
    assert tmp[1] == |sps| % 256 && tmp[2] == sps[0] && tmp[3..] == rest[1..];
    assert sps[0] != 0;
  }

  /** A sequence header is stored exactly if and only if it has one set of each kind and nothing
      behind them. */
  lemma StoresExactly(head: seq<byte>, spss: seq<NalUnit>, ppss: seq<NalUnit>, more: seq<byte>)
    requires AreSets(spss, ppss) && |head| == 5
    ensures ReadSpecificInfo(SequenceHeader(head, spss, ppss, more)) == (spss + ppss, None)
            <==> |spss| == 1 && |ppss| == 1 && more == []
  {
    hide ReadSpecificInfo, SequenceHeader, IsSet;
    var r := ReadSpecificInfo(SequenceHeader(head, spss, ppss, more));
    TwoOrNone(SequenceHeader(head, spss, ppss, more));
    if |spss| == 0 && |ppss| == 2 {
      NoSequenceSet(head, ppss, more);
      assert (spss + ppss)[0] == ppss[0];
    } else if |spss| == 1 && |ppss| == 1 {
      assert spss == [spss[0]] && ppss == [ppss[0]];
      ReadsSequenceHeader(head, spss[0], ppss, more);
      OneOfEach(spss[0], ppss[0], more);
    } else if |spss| == 2 && |ppss| == 0 {
      SecondSetMisread(head, spss, ppss, more);
      assert IsSet(spss[1], SPS);
      Shifted(spss[1], more);
      assert (spss + ppss)[1] == spss[1];
    } else {
      assert |spss + ppss| != 2;
    }
  }

  /** A header that breaks off stores nothing, and the error says where. */
  lemma TruncatedHeader(head: seq<byte>, sps: NalUnit, pps: NalUnit, n: nat)
    requires AreSets([sps], [pps]) && |head| == 5 && n < 11 + |sps| + |pps|
    ensures |SequenceHeader(head, [sps], [pps], [])| == 11 + |sps| + |pps|
    ensures ReadSpecificInfo(SequenceHeader(head, [sps], [pps], [])[..n]) ==
              ([], Some(if n < 9 then DecDataNil else if n < 8 + |sps| then SpsDataError
                        else if n < 12 + |sps| then PpsHeaderError else PpsDataError))
  {
    hide ReadSpecificInfo, Type;
    var whole := SequenceHeader(head, [sps], [pps], []);
    HeaderFields(head, sps, pps);
    CutShort(whole, |sps|, |pps|, n);
  }

  /** The two lengths, by their places. */
  lemma HeaderFields(head: seq<byte>, sps: NalUnit, pps: NalUnit)
    requires AreSets([sps], [pps]) && |head| == 5
    ensures var s := SequenceHeader(head, [sps], [pps], []);
      && |s| == 11 + |sps| + |pps| && s[6] == |sps| / 256 && s[7] == |sps| % 256
      && s[9 + |sps|] == |pps| / 256 && s[10 + |sps|] == |pps| % 256
    ensures 0 < |sps| < 0x1_0000 && 0 < |pps| < 0x1_0000
  {
    hide BE, Type, Sets;
    assert IsSet([sps][0], SPS) && IsSet([pps][0], PPS);
    TwoBytes(|sps|);
    TwoBytes(|pps|);
    OneSet(sps);
    OneSet(pps);
    var s, tail := SequenceHeader(head, [sps], [pps], []), [1] + (BE(|pps|, 2) + pps + []);
    assert s == head + [0xe1] + (BE(|sps|, 2) + sps + tail);
    assert s[8 + |sps|..] == tail;
    assert s[9 + |sps|] == tail[1] == BE(|pps|, 2)[0] && s[10 + |sps|] == tail[2] == BE(|pps|, 2)[1];
    assert s[6] == BE(|sps|, 2)[0] && s[7] == BE(|sps|, 2)[1];
  }

  lemma OneSet(u: NalUnit)
    ensures Sets([u]) == BE(|u|, 2) + u
  {
    hide BE;
    assert [u][1..] == [] && u + [] == u;
  }

  lemma CutShort(s: seq<byte>, m: nat, k: nat, n: nat)
    requires 0 < m < 0x1_0000 && 0 < k < 0x1_0000 && |s| == 11 + m + k && n < |s|
    requires s[6] == m / 256 && s[7] == m % 256 && s[9 + m] == k / 256 && s[10 + m] == k % 256
    ensures ReadSpecificInfo(s[..n]) ==
              ([], Some(if n < 9 then DecDataNil else if n < 8 + m then SpsDataError
                        else if n < 12 + m then PpsHeaderError else PpsDataError))
  {
    if n >= 9 {
      assert (s[..n][6] as int) * 256 + s[..n][7] == m;
      if n >= 12 + m {
        var tmp := s[..n][8 + m..];
        assert (tmp[1] as int) * 256 + tmp[2] == k;
      }
    }
  }

  lemma TwoOrNone(src: seq<byte>)
    ensures var (units, err) := ReadSpecificInfo(src);
      if err.None? then |units| == 2 && |units[0]| == (src[6] as int) * 256 + src[7] && units[0][0] == src[8] else units == []
  {
  }

  lemma OneOfEach(sps: NalUnit, pps: NalUnit, more: seq<byte>)
    ensures [sps, pps + (Sets([]) + more)] == [sps] + [pps] <==> more == []
  {
    assert [sps] + [pps] == [sps, pps] && Sets([]) + more == more;
    if [sps, pps + more] == [sps, pps] {
      assert [sps, pps + more][1] == [sps, pps][1];
      assert |pps + more| == |pps| + |more|;
    } else {
      assert more == [] ==> pps + more == pps;
    }
  }

  lemma NoSequenceSet(head: seq<byte>, ppss: seq<NalUnit>, more: seq<byte>)
    requires AreSets([], ppss) && |head| == 5 && |ppss| == 2
    ensures var (units, err) := ReadSpecificInfo(SequenceHeader(head, [], ppss, more));
      err.None? ==> units[0] != ppss[0]
  {
    var src, pps := SequenceHeader(head, [], ppss, more), ppss[0];
    assert IsSet(pps, PPS);
    TwoBytes(|pps|);
    TwoOrNone(src);
    hide BE, ReadSpecificInfo;
    assert src[6] == 2 && src[7] == BE(|pps|, 2)[0] && src[8] == BE(|pps|, 2)[1];
  }

  lemma {:induction false} AllZero(u: seq<byte>, i: nat)
    requires i < |u| && u == u[1..] + [0]
    ensures u[i] == 0
    decreases |u| - i
  {
    if i + 1 < |u| {
      AllZero(u, i + 1);
      assert u[i] == (u[1..] + [0])[i];
    } else {
      assert u[i] == (u[1..] + [0])[i];
    }
  }

  lemma Shifted(sps: NalUnit, more: seq<byte>)
    requires IsSet(sps, SPS)
    ensures (sps + (Sets([]) + PictureSets([], more)))[1..] != sps
  {
    var all := sps + (Sets([]) + PictureSets([], more));
    assert |all[1..]| == |sps| + |more|;
    if all[1..] == sps {
      assert all[1..] == sps[1..] + [0];
      AllZero(sps, 0);
    }
  }

  /** What is stored after several sequence headers. */
  function StoredAfter(headers: seq<seq<byte>>): seq<NalUnit> {
    if headers == [] then []
    else StoredAfter(headers[..|headers| - 1]) + ReadSpecificInfo(headers[|headers| - 1]).0
  }

  /** A header replaces nothing: once it is accepted, its sets are what is stored if and only if it is
      the first one that was accepted. */
  lemma LatestHeaderExactly(headers: seq<seq<byte>>, latest: seq<byte>)
    requires ReadSpecificInfo(latest).1.None?
    ensures StoredAfter(headers + [latest]) == StoredAfter(headers) + ReadSpecificInfo(latest).0
    ensures StoredAfter(headers + [latest]) == ReadSpecificInfo(latest).0
            <==> forall h | h in headers :: ReadSpecificInfo(h).1.Some?
  {
    hide ReadSpecificInfo;
    assert (headers + [latest])[..|headers|] == headers;
    NothingStored(headers);
    var before, sets := StoredAfter(headers), ReadSpecificInfo(latest).0;
    assert |before + sets| == |before| + |sets|;
    assert before == [] ==> before + sets == sets;
  }

  lemma {:induction false} NothingStored(headers: seq<seq<byte>>)
    ensures StoredAfter(headers) == [] <==> forall h | h in headers :: ReadSpecificInfo(h).1.Some?
  {
    hide ReadSpecificInfo;
    if headers != [] {
      var n := |headers| - 1;
      NothingStored(headers[..n]);
      TwoOrNone(headers[n]);
      assert headers == headers[..n] + [headers[n]];
      assert forall h | h in headers :: h in headers[..n] || h == headers[n];
    }
  }

  lemma TwoBytes(n: nat)
    requires n < 0x1_0000
    ensures BE(n, 2) == [n / 256, n % 256]
  {
    assert BE(n / 256, 1) == BE(n / 256 / 256, 0) + [n / 256 % 256] == [n / 256];
  }

  class Parser {
    var specificInfo: seq<byte>
    const pps: Buffer
    /** The stored units. */
    ghost var info: seq<NalUnit>

    ghost predicate Valid()
      reads this
    {
      specificInfo == AnnexB(info)
    }

    constructor ()
      ensures Valid() && info == [] && fresh(pps)
    {
      specificInfo, info := [], [];
      pps := new Buffer([]);
    }

    /** Adds to what is stored; what an earlier header stored stays in front. */
    method ParseSpecificInfo(src: seq<byte>) returns (err: Option<Error>)
      requires Valid()
      modifies this`specificInfo, this`info
      ensures Valid() && err == ReadSpecificInfo(src).1
      ensures info == old(info) + ReadSpecificInfo(src).0
    {
      assert info + [] == info;
      if |src| < 9 {
        return Some(DecDataNil);
      }
      var spsLen := (src[6] as int) * 256 + src[7];
      if |src[8..]| < spsLen || spsLen <= 0 {
        return Some(SpsDataError);
      }
      var sps := START_CODE + src[8..8 + spsLen];
      var tmpBuf := src[8 + spsLen..];
      if |tmpBuf| < 4 {
        return Some(PpsHeaderError);
      }
      var ppsLen := (tmpBuf[1] as int) * 256 + tmpBuf[2];
      if |tmpBuf[3..]| < ppsLen || ppsLen <= 0 {
        return Some(PpsDataError);
      }
      var pps := START_CODE + tmpBuf[3..];
      hide AnnexB;
      AnnexBNext(info, src[8..8 + spsLen]);
      AnnexBNext(info + [src[8..8 + spsLen]], tmpBuf[3..]);
      Regroup(info, [src[8..8 + spsLen]], [tmpBuf[3..]]);
      assert [src[8..8 + spsLen]] + [tmpBuf[3..]] == [src[8..8 + spsLen], tmpBuf[3..]];
      specificInfo := specificInfo + sps;
      specificInfo := specificInfo + pps;
      info := info + [src[8..8 + spsLen], tmpBuf[3..]];
      err := None;
    }

    method IsNaluHeader(src: seq<byte>) returns (r: bool)
      ensures r == StartsAt(src, 0)
    {
      StartBytes(src, 0);
      if |src| < 4 {
        return false;
      }
      r := src[0] == 0x00 && src[1] == 0x00 && src[2] == 0x00 && src[3] == 0x01;
    }

    method NaluSize(src: seq<byte>) returns (size: Option<nat>)
      ensures size == if |src| < 4 then None else Some(FromBE(src[..4]))
    {
      if |src| < 4 {
        return None;
      }
      var n: nat := 0;
      for i := 0 to 4
        invariant n == FromBE(src[..i])
      {
        assert src[..i + 1][..i] == src[..i];
        n := n * 256 + src[i];
      }
      size := Some(n);
    }

    /** One unit: pictures are written, parameter sets are collected, and before the first picture of
        a new sequence the parameter sets are written. */
    method WriteUnit(u: NalUnit, w: Buffer, hasSpsPps: bool, hasWriteSpsPps: bool, ghost units: seq<NalUnit>)
        returns (hasSpsPps': bool, hasWriteSpsPps': bool)
      requires Valid() && u != [] && w != pps
      requires hasSpsPps == (ParameterSets(units) != []) && pps.data == AnnexB(ParameterSets(units))
      requires hasWriteSpsPps == (FirstIdr(units) < |units|)
      modifies w, pps
      ensures w.data == old(w.data) + AnnexB(Added(units, u, info))
      ensures hasSpsPps' == (ParameterSets(units + [u]) != []) && pps.data == AnnexB(ParameterSets(units + [u]))
      ensures hasWriteSpsPps' == (FirstIdr(units + [u]) < |units + [u]|)
    {
      hide AnnexB, FirstIdr, ParameterSets;
      hasSpsPps', hasWriteSpsPps' := hasSpsPps, hasWriteSpsPps;
      hide Shown, Added;
      FiltersNext(units, u);
      AddedBytes(units, u, info);
      AnnexBNext(ParameterSets(units), u);
      var nalType := Type(u);
      if nalType == IDR && !hasWriteSpsPps {
        hasWriteSpsPps' := true;
        if !hasSpsPps {
          w.Write(specificInfo);
        } else {
          w.Write(pps.data);
        }
      }
      if nalType == IDR || nalType == SLICE || nalType == SEI {
        ghost var before := w.data;
        w.Write(START_CODE);
        w.Write(u);
        Regroup(before, START_CODE, u);
      } else if nalType == SPS || nalType == PPS {
        hasSpsPps' := true;
        ghost var before := pps.data;
        pps.Write(START_CODE);
        pps.Write(u);
        Regroup(before, START_CODE, u);
      }
    }

    /** Rewrites a picture. On an error the units before it are written. */
    method GetAnnexbH264(src: seq<byte>, w: Buffer) returns (err: Option<Error>)
      requires Valid() && w != pps
      modifies w, pps
      ensures if |src| < 4 then err == Some(VideoDataInvalid) && w.data == old(w.data)
              else
                && err == SplitUnits(src).error
                && w.data == old(w.data) + AnnexB([AUD] + Rewritten(SplitUnits(src).units, info))
    {
      hide AnnexB, Rewritten, FirstIdr, ParameterSets, FromBE;
      var dataSize := |src|;
      if dataSize < 4 {
        return Some(VideoDataInvalid);
      }
      pps.Reset();
      w.Write([0x00, 0x00, 0x00, 0x01, 0x09, 0xf0]);
      ghost var units: seq<NalUnit> := [];
      Start(src, info);
      var index := 0;
      var hasSpsPps, hasWriteSpsPps := false, false;
      while dataSize > 0
        invariant 0 <= index <= |src| && dataSize == |src| - index
        invariant SplitUnits(src) == Before(units, SplitUnits(src[index..]))
        invariant w.data == old(w.data) + AnnexB([AUD] + Rewritten(units, info))
        invariant hasSpsPps == (ParameterSets(units) != []) && pps.data == AnnexB(ParameterSets(units))
        invariant hasWriteSpsPps == (FirstIdr(units) < |units|)
      {
        var rest := src[index..];
        var nalLen := NaluSize(rest);
        if nalLen.None? {
          NoMore(units, rest);
          return Some(DataSizeNotMatch);
        }
        index := index + 4;
        dataSize := dataSize - 4;
        if dataSize >= nalLen.value && |src[index..]| >= nalLen.value && nalLen.value > 0 {
          var u := src[index..index + nalLen.value];
          assert u == rest[4..4 + nalLen.value] && src[index + nalLen.value..] == rest[4 + nalLen.value..];
          hasSpsPps, hasWriteSpsPps := WriteUnit(u, w, hasSpsPps, hasWriteSpsPps, units);
          OneMore(units, rest, info);
          Regroup(old(w.data), AnnexB([AUD] + Rewritten(units, info)), AnnexB(Added(units, u, info)));
          units := units + [u];
          index := index + nalLen.value;
          dataSize := dataSize - nalLen.value;
        } else {
          NoMore(units, rest);
          return Some(NaluBodyLenError);
        }
      }
      assert src[index..] == [];
      NoMore(units, []);
      err := None;
    }

    /** A sequence header is stored; a picture that already has start codes is passed on as it is. */
    method Parse(b: seq<byte>, isSeq: bool, w: Buffer) returns (err: Option<Error>)
      requires Valid() && w != pps
      modifies this`specificInfo, this`info, w, pps
      ensures Valid()
      ensures if isSeq then
                info == old(info) + ReadSpecificInfo(b).0 && err == ReadSpecificInfo(b).1 && w.data == old(w.data)
              else
                && info == old(info) && err == Parsed(b, info).1
                && w.data == old(w.data) + Parsed(b, info).0
    {
      hide AnnexB, Rewritten, SplitUnits, ReadSpecificInfo;
      if isSeq {
        err := ParseSpecificInfo(b);
      } else {
        var annexb := IsNaluHeader(b);
        if annexb {
          w.Write(b);
          err := None;
        } else {
          err := GetAnnexbH264(b, w);
        }
      }
    }
  }

  /** What a unit adds to the output. */
  function Added(units: seq<NalUnit>, u: NalUnit, info: seq<NalUnit>): seq<NalUnit> {
    (if Type(u) == IDR && FirstIdr(units) == |units| then Params(units, info) else []) + Shown(u)
  }

  lemma AddedBytes(units: seq<NalUnit>, u: NalUnit, info: seq<NalUnit>)
    ensures AnnexB(Added(units, u, info))
         == (if Type(u) == IDR && FirstIdr(units) == |units| then
               if ParameterSets(units) == [] then AnnexB(info) else AnnexB(ParameterSets(units))
             else [])
            + (if Type(u) in {SLICE, IDR, SEI} then START_CODE + u else [])
  {
    hide AnnexB, FirstIdr, ParameterSets;
    var before := if Type(u) == IDR && FirstIdr(units) == |units| then Params(units, info) else [];
    AnnexBBoth(before, Shown(u));
    Empty(info);
    AnnexBNext([], u);
    assert [] + [u] == [u] && [] + (START_CODE + u) == START_CODE + u;
  }

  lemma Empty(info: seq<NalUnit>)
    ensures AnnexB([]) == [] && ParameterSets([]) == [] && FirstIdr([]) == 0 && Rewritten([], info) == []
  {
  }

  lemma Start(src: seq<byte>, info: seq<NalUnit>)
    ensures Before([], SplitUnits(src[0..])) == SplitUnits(src)
    ensures AnnexB([]) == [] && ParameterSets([]) == [] && FirstIdr([]) == 0
    ensures AnnexB([AUD] + Rewritten([], info)) == [0x00, 0x00, 0x00, 0x01, 0x09, 0xf0]
  {
    hide AnnexB, Rewritten, ParameterSets, FirstIdr;
    assert src[0..] == src && [] + SplitUnits(src).units == SplitUnits(src).units;
    Empty(info);
    AnnexBNext([], AUD);
    assert [AUD] + [] == [] + [AUD];
    assert [] + (START_CODE + AUD) == [0x00, 0x00, 0x00, 0x01, 0x09, 0xf0];
  }

  lemma OneMore(units: seq<NalUnit>, rest: seq<byte>, info: seq<NalUnit>)
    requires |rest| >= 4 && 0 < FromBE(rest[..4]) <= |rest| - 4
    ensures var n := FromBE(rest[..4]);
      var u := rest[4..4 + n];
      && Before(units, SplitUnits(rest)) == Before(units + [u], SplitUnits(rest[4 + n..]))
      && AnnexB([AUD] + Rewritten(units + [u], info))
         == AnnexB([AUD] + Rewritten(units, info)) + AnnexB(Added(units, u, info))
  {
    hide AnnexB, Rewritten, FromBE, Added;
    var n := FromBE(rest[..4]);
    var u := rest[4..4 + n];
    Regroup(units, [u], SplitUnits(rest[4 + n..]).units);
    hide SplitUnits;
    RewrittenAdds(units, u, info);
    Regroup([AUD], Rewritten(units, info), Added(units, u, info));
    AnnexBBoth([AUD] + Rewritten(units, info), Added(units, u, info));
  }

  lemma RewrittenAdds(units: seq<NalUnit>, u: NalUnit, info: seq<NalUnit>)
    ensures Rewritten(units + [u], info) == Rewritten(units, info) + Added(units, u, info)
  {
    hide Rewritten, FirstIdr, Params, Shown;
    RewrittenNext(units, u, info);
    ShownIdr(u);
    if Type(u) == IDR && FirstIdr(units) == |units| {
      Regroup(Rewritten(units, info), Params(units, info), [u]);
    } else {
      assert [] + Shown(u) == Shown(u);
    }
  }

  lemma ShownIdr(u: NalUnit)
    ensures Type(u) == IDR ==> Shown(u) == [u]
  {
  }

  lemma NoMore(units: seq<NalUnit>, rest: seq<byte>)
    requires |rest| < 4 || FromBE(rest[..4]) == 0 || |rest| - 4 < FromBE(rest[..4])
    ensures Before(units, SplitUnits(rest))
         == Split(units, if rest == [] then None else if |rest| < 4 then Some(DataSizeNotMatch) else Some(NaluBodyLenError))
  {
    hide FromBE;
    assert units + [] == units;
  }
}
