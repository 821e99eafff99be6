/** The transport stream muxer: one packet buffer filled in place and written out again and again,
    continuity counters that live as long as the muxer, and the program tables. */
module TsMuxers {
  import opened Bytes
  import opened Buffers
  import opened TsFormat
  import opened TsPackets
  import opened TsTables
  import Crc

  /** Copies s into a from index i on. */
  method Copy(a: array<byte>, i: nat, s: seq<byte>)
    requires i + |s| <= a.Length
    modifies a
    ensures a[..] == old(a[..i]) + s + old(a[i + |s|..])
  {
    forall k | 0 <= k < |s| {
      a[i + k] := s[k];
    }
  }

  /** The five bytes of a time stamp. */
  lemma StampBytes(fb: nat, ts: int)
    requires fb < 16
    ensures var t, s := Reduced(ts), TimeStamp(fb, ts);
      var high, mid, low := fb * 16 + (t / 0x4000_0000) % 8 * 2 + 1, (t / 0x8000) % 0x8000 * 2 + 1, t % 0x8000 * 2 + 1;
      && s[0] == high % 256 && s[1] == mid / 256 && s[2] == mid % 256 && s[3] == low / 256 && s[4] == low % 256
  {
  }

  class PesHeaderBuffer {
    var len: byte
    const data: array<byte>

    constructor ()
      ensures fresh(data) && data.Length == PACKET_LEN && fresh(this)
    {
      len := 0;
      data := new byte[PACKET_LEN](_ => 0);
    }

    /** Five bytes of time stamp at index i. */
    method WriteTs(i: nat, fb: nat, ts: int)
      requires fb < 16 && i + 5 <= data.Length
      modifies data
      ensures data[..] == old(data[..i]) + TimeStamp(fb, ts) + old(data[i + 5..])
    {
      hide TimeStamp;
      ghost var stamp := TimeStamp(fb, ts);
      StampBytes(fb, ts);
      var t := ts;
      if t > 0x1_ffff_ffff {
        t := t - 0x1_ffff_ffff;
      }
      var val := fb * 16 + (t / 0x4000_0000) % 8 * 2 + 1;
      data[i] := val % 256;
      val := (t / 0x8000) % 0x8000 * 2 + 1;
      data[i + 1] := val / 256;
      data[i + 2] := val % 256;
      val := t % 0x8000 * 2 + 1;
      data[i + 3] := val / 256;
      data[i + 4] := val % 256;
    }

    method Packet(p: Frame, pts: int, dts: int)
      requires data.Length == PACKET_LEN && pts == Pts(p) && dts == Dts(p)
      modifies this, data
      ensures len == |PesHeader(p)| && data[..len] == PesHeader(p)
    {
      hide TimeStamp;
      var flag, headerSize := 0x80, 5;
      if p.isVideo && pts != dts {
        flag := flag + 0x40;
        headerSize := headerSize + 5;
      }
      var size := |p.data| + headerSize + 3;
      if size > 0xffff {
        size := 0;
      }
      var i := Fixed(if p.isVideo then VIDEO_SID else AUDIO_SID, size, flag, headerSize);
      ghost var fixed := data[..9];
      WriteTs(i, flag / 64, pts);
      i := i + 5;
      assert data[..14] == fixed + TimeStamp(flag / 64, pts);
      if p.isVideo && pts != dts {
        WriteTs(i, 1, dts);
        i := i + 5;
        assert data[..19] == fixed + TimeStamp(flag / 64, pts) + TimeStamp(1, dts);
      }
      len := i;
    }

    /** Everything before the time stamps. */
    method Fixed(sid: byte, size: nat, flag: byte, headerSize: byte) returns (i: nat)
      requires data.Length == PACKET_LEN && size <= 0xffff
      modifies data
      ensures i == 9 && data[..9] == [0, 0, 1, sid, size / 256, size % 256, 0x80, flag, headerSize]
    {
      i := 0;
      data[i] := 0x00;
      i := i + 1;
      data[i] := 0x00;
      i := i + 1;
      data[i] := 0x01;
      i := i + 1;
      data[i] := sid;
      i := i + 1;
      data[i] := size / 256;
      i := i + 1;
      data[i] := size % 256;
      i := i + 1;
      data[i] := 0x80;
      i := i + 1;
      data[i] := flag;
      i := i + 1;
      data[i] := headerSize;
      i := i + 1;
    }
  }

  class Muxer {
    var videoCc: byte
    var audioCc: byte
    var patCc: byte
    var pmtCc: byte
    const pat: array<byte>
    const pmt: array<byte>
    const tsPacket: array<byte>

    ghost predicate Valid()
      reads this
    {
      && videoCc < 16 && audioCc < 16 && patCc <= 16 && pmtCc <= 16
      && pat.Length == pmt.Length == tsPacket.Length == PACKET_LEN
      && pat != pmt && pat != tsPacket && pmt != tsPacket
    }

    constructor ()
      ensures Valid() && fresh(pat) && fresh(pmt) && fresh(tsPacket)
      ensures videoCc == audioCc == patCc == pmtCc == 0
    {
      videoCc, audioCc, patCc, pmtCc := 0, 0, 0, 0;
      pat := new byte[PACKET_LEN](_ => 0);
      pmt := new byte[PACKET_LEN](_ => 0);
      tsPacket := new byte[PACKET_LEN](_ => 0);
    }

    function Cc(isVideo: bool): byte
      reads this
    {
      if isVideo then videoCc else audioCc
    }

    /** The next counter value of the frame's stream. */
    method Count(isVideo: bool)
      requires Valid()
      modifies this`videoCc, this`audioCc
      ensures Valid() && Cc(isVideo) == NextCc(old(Cc(isVideo)))
      ensures Cc(!isVideo) == old(Cc(!isVideo))
    {
      if isVideo {
        videoCc := videoCc + 1;
        if videoCc > 0xf {
          videoCc := 0;
        }
      } else {
        audioCc := audioCc + 1;
        if audioCc > 0xf {
          audioCc := 0;
        }
      }
    }

    method WritePcr(i: nat, pcr: int)
      requires i + 6 <= tsPacket.Length
      modifies tsPacket
      ensures tsPacket[..] == old(tsPacket[..i]) + Pcr(pcr) + old(tsPacket[i + 6..])
    {
      tsPacket[i] := pcr / 0x200_0000 % 256;
      tsPacket[i + 1] := pcr / 0x2_0000 % 256;
      tsPacket[i + 2] := pcr / 0x200 % 256;
      tsPacket[i + 3] := pcr / 2 % 256;
      tsPacket[i + 4] := pcr % 2 * 128 + 0x7e;
      tsPacket[i + 5] := 0x00;
    }

    /** Sync byte, unit start, stream and counter; for a key frame's first packet also the
        clock reference. */
    method WriteHeader(p: Frame, first: bool, dts: int) returns (i: byte)
      requires Valid() && dts == Dts(p)
      modifies tsPacket
      ensures i as int == |Prefix(p, first, Cc(p.isVideo), DEFAULT_DATA_LEN)|
      ensures tsPacket[..i] == Prefix(p, first, Cc(p.isVideo), DEFAULT_DATA_LEN)
    {
      hide Pcr;
      var pid := if p.isVideo then VIDEO_PID else AUDIO_PID;
      tsPacket[0] := 0x47;
      tsPacket[1] := pid / 256;
      if first {
        tsPacket[1] := tsPacket[1] + 0x40;
      }
      tsPacket[2] := pid % 256;
      tsPacket[3] := 0x10 + (if p.isVideo then videoCc else audioCc);
      i := 4;
      if first && p.isVideo && p.keyFrame {
        tsPacket[3] := tsPacket[3] + 0x20;
        tsPacket[4] := 7;
        tsPacket[5] := 0x50;
        ghost var head := tsPacket[..6];
        WritePcr(6, dts);
        i := 12;
        assert tsPacket[..12] == head + Pcr(dts);
      }
    }

    /** An adaptation field of `remain` bytes at index i; all the packet behind it is filled. */
    method AdaptationBufInit(i: nat, remain: byte)
      requires i + 2 <= tsPacket.Length
      modifies tsPacket
      ensures |Stuffing(tsPacket.Length - i, remain)| <= tsPacket.Length - i
      ensures tsPacket[..i + |Stuffing(tsPacket.Length - i, remain)|]
           == old(tsPacket[..i]) + Stuffing(tsPacket.Length - i, remain)
    {
      tsPacket[i] := (remain + 255) % 256;
      if remain != 1 {
        tsPacket[i + 1] := 0x00;
        forall k | i + 2 <= k < tsPacket.Length {
          tsPacket[k] := 0xff;
        }
      }
    }

    /** Header and stuffing: everything before the payload, which then fits exactly. All lengths
        are bytes and wrap. */
    method Layout(p: Frame, first: bool, dts: int, packetBytesLen: nat) returns (i: byte, dataLen: byte)
      requires Valid() && dts == Dts(p) && packetBytesLen > 0
      modifies tsPacket
      ensures dataLen as int == Carried(p, first, packetBytesLen) == PACKET_LEN - i
      ensures tsPacket[..i] == Before(p, first, Cc(p.isVideo), packetBytesLen)
    {
      hide Prefix, Stuffing;
      i := WriteHeader(p, first, dts);
      if packetBytesLen >= DEFAULT_DATA_LEN {
        PrefixOfFull(p, first, Cc(p.isVideo), packetBytesLen);
        dataLen := DEFAULT_DATA_LEN;
        if first {
          dataLen := dataLen - (i - 4);
        }
      } else {
        dataLen := packetBytesLen;
        i := Stuff(p, first, i, dataLen);
      }
    }

    /** The adaptation field of a packet that the payload does not fill. */
    method Stuff(p: Frame, first: bool, i: byte, n: byte) returns (i': byte)
      requires Valid() && 0 < n < DEFAULT_DATA_LEN
      requires i as int == |Prefix(p, first, Cc(p.isVideo), DEFAULT_DATA_LEN)| && (!first ==> i == 4)
      requires tsPacket[..i] == Prefix(p, first, Cc(p.isVideo), DEFAULT_DATA_LEN)
      modifies tsPacket
      ensures i' == PACKET_LEN - n && tsPacket[..i'] == Before(p, first, Cc(p.isVideo), n)
    {
      hide Prefix, Stuffing, Before;
      PrefixLength(p, first, Cc(p.isVideo), n);
      Wraps(i, n);
      AdaptationFlag(p, first, i, n);
      var remain: byte := (DEFAULT_DATA_LEN - n - (if first then i - 4 else 0)) % 256;
      AdaptationBufInit(i, remain);
      i' := (i + remain) % 256;
      Stuffed(p, first, Cc(p.isVideo), n, tsPacket[..]);
    }

    /** Marks the packet as having an adaptation field. */
    method AdaptationFlag(p: Frame, first: bool, i: byte, n: nat)
      requires Valid() && 0 < n < DEFAULT_DATA_LEN
      requires i as int == |Prefix(p, first, Cc(p.isVideo), DEFAULT_DATA_LEN)|
      requires tsPacket[..i] == Prefix(p, first, Cc(p.isVideo), DEFAULT_DATA_LEN)
      modifies tsPacket
      ensures tsPacket[..i] == Prefix(p, first, Cc(p.isVideo), n)
    {
      hide Pcr;
      ghost var before := tsPacket[..i];
      assert tsPacket[3] == before[3];
      if tsPacket[3] / 0x20 % 2 == 0 {
        tsPacket[3] := tsPacket[3] + 0x20;
      }
      assert tsPacket[..i] == before[3 := 0x30 + Cc(p.isVideo)];
    }

    /** Fills the packet buffer: the first packet takes the PES header and the start of the data,
        the others go on with the data. Returns how much data was taken. */
    method FillPacket(p: Frame, first: bool, dts: int, pes: PesHeaderBuffer, wBytes: nat, packetBytesLen: nat)
        returns (taken: nat)
      requires Valid() && dts == Dts(p)
      requires pes.data.Length == PACKET_LEN && pes.data != tsPacket
      requires pes.len == |PesHeader(p)| && pes.data[..pes.len] == PesHeader(p)
      requires wBytes <= |p.data| && (first ==> wBytes == 0)
      requires packetBytesLen == |p.data| - wBytes + (if first then |PesHeader(p)| else 0) > 0
      modifies tsPacket
      ensures wBytes + taken <= |p.data|
      ensures taken + (if first then |PesHeader(p)| else 0) == Carried(p, first, packetBytesLen)
      ensures tsPacket[..] == Packet(p, first, Cc(p.isVideo), if first then Pes(p) else p.data[wBytes..])
    {
      hide PesHeader, Before, Packet, Pes;
      var i, dataLen := Layout(p, first, dts, packetBytesLen);
      ghost var before := tsPacket[..i];
      if first && i < PACKET_LEN && pes.len > 0 {
        var tmpLen := PACKET_LEN - i;
        if pes.len <= tmpLen {
          tmpLen := pes.len;
        }
        assert tmpLen == pes.len;
        Copy(tsPacket, i, pes.data[..tmpLen]);
        i := i + tmpLen;
        dataLen := dataLen - tmpLen;
        assert tsPacket[..i] == before + PesHeader(p);
      }
      taken := 0;
      if i < PACKET_LEN {
        var tmpLen := PACKET_LEN - i;
        if tmpLen <= dataLen {
          dataLen := tmpLen;
        }
        ghost var all := tsPacket[..i];
        Copy(tsPacket, i, p.data[wBytes..wBytes + dataLen]);
        taken := dataLen;
        assert tsPacket[..] == all + p.data[wBytes..wBytes + taken];
      }
      PacketParts(p, first, Cc(p.isVideo), packetBytesLen, wBytes, taken);
    }

    /** What is left of the PES packet. */
    ghost function Rest(p: Frame, first: bool, wBytes: nat): seq<byte>
      requires wBytes <= |p.data|
    {
      if first then Pes(p) else p.data[wBytes..]
    }

    lemma RestStart(p: Frame)
      ensures Rest(p, true, 0) == Pes(p) && |Pes(p)| == |PesHeader(p)| + |p.data|
    {
      hide PesHeader;
    }

    /** One round of the loop: counts, fills a packet and writes it out. */
    method MuxPacket(p: Frame, first: bool, dts: int, pes: PesHeaderBuffer, wBytes: nat, packetBytesLen: nat,
                     w: Buffer)
        returns (taken: nat)
      requires Valid() && dts == Dts(p)
      requires pes.data.Length == PACKET_LEN && pes.data != tsPacket
      requires pes.len == |PesHeader(p)| && pes.data[..pes.len] == PesHeader(p)
      requires wBytes <= |p.data| && (first ==> wBytes == 0)
      requires packetBytesLen == |Rest(p, first, wBytes)| > 0
      modifies this`videoCc, this`audioCc, tsPacket, w
      ensures Valid() && Cc(p.isVideo) == NextCc(old(Cc(p.isVideo))) && Cc(!p.isVideo) == old(Cc(!p.isVideo))
      ensures wBytes + taken <= |p.data| && (!first ==> taken > 0)
      ensures |Rest(p, false, wBytes + taken)| == packetBytesLen - taken - (if first then pes.len as int else 0)
      ensures Rest(p, false, wBytes + taken)
           == Rest(p, first, wBytes)[Carried(p, first, packetBytesLen)..]
      ensures w.data == old(w.data) + Packet(p, first, Cc(p.isVideo), Rest(p, first, wBytes))
    {
      hide Packet, PesHeader, NextCc;
      Count(p.isVideo);
      taken := FillPacket(p, first, dts, pes, wBytes, packetBytesLen);
      w.Write(tsPacket[..]);
      RestAfter(PesHeader(p), p.data, first, wBytes, taken);
    }

    /** Cuts a frame's PES packet into packets and writes them out. */
    method Mux(p: Frame, w: Buffer)
      requires Valid()
      modifies this`videoCc, this`audioCc, tsPacket, w
      ensures Valid()
      ensures w.data == old(w.data) + Concat(Packets(p, true, old(Cc(p.isVideo)), Pes(p)))
      ensures Cc(p.isVideo) == LastCc(p, true, old(Cc(p.isVideo)), Pes(p)) && Cc(!p.isVideo) == old(Cc(!p.isVideo))
    {
      hide Packet, PesHeader, NextCc, MuxSoFar, Packets, LastCc, Concat, Carried, Rest, Pes;
      var first := true;
      var wBytes: nat := 0;
      var dts := p.timeStamp * DEFAULT_HZ;
      var pts := dts;
      if p.isVideo {
        pts := dts + p.compositionTime * DEFAULT_HZ;
      }
      var pes := new PesHeaderBuffer();
      pes.Packet(p, pts, dts);
      var packetBytesLen := |p.data| + pes.len;
      ghost var sofar, cc := [], Cc(p.isVideo);
      MuxStart(p, cc);
      RestStart(p);
      assert w.data + [] == w.data;
      while packetBytesLen > 0
        invariant Valid() && wBytes <= |p.data| && (first ==> wBytes == 0)
        invariant packetBytesLen == |Rest(p, first, wBytes)|
        invariant pes.len == |PesHeader(p)| && pes.data[..pes.len] == PesHeader(p)
        invariant w.data == old(w.data) + sofar
        invariant MuxSoFar(p, cc, first, Cc(p.isVideo), Rest(p, first, wBytes), sofar)
        invariant Cc(!p.isVideo) == old(Cc(!p.isVideo))
        decreases first, packetBytesLen
      {
        ghost var cc' := Cc(p.isVideo);
        var taken := MuxPacket(p, first, dts, pes, wBytes, packetBytesLen, w);
        MuxNext(p, cc, first, cc', Rest(p, first, wBytes), sofar);
        Regroup(old(w.data), sofar, Packet(p, first, Cc(p.isVideo), Rest(p, first, wBytes)));
        sofar := sofar + Packet(p, first, Cc(p.isVideo), Rest(p, first, wBytes));
        packetBytesLen := packetBytesLen - taken - (if first then pes.len else 0);
        wBytes := wBytes + taken;
        first := false;
      }
      assert Rest(p, first, wBytes) == [];
      MuxEnd(p, cc, first, Cc(p.isVideo), sofar);
    }

    /** The program association packet, in the muxer's own buffer. */
    method PAT() returns (r: array<byte>)
      requires Valid()
      modifies this`patCc, pat
      ensures Valid() && r == pat && pat[..] == PatPacket(TableCc(old(patCc)))
      ensures patCc == TableCc(old(patCc)) + 1
    {
      hide TablePacket, PatPacket, PatHeader;
      if patCc > 0xf {
        patCc := 0;
      }
      patCc := patCc + 1;
      var head, section := PatParts(patCc - 1);
      WriteTable(pat, head, patCc - 1, section);
      r := pat;
    }

    /** The program map packet, in the muxer's own buffer. */
    method PMT(soundFormat: byte, hasVideo: bool) returns (r: array<byte>)
      requires Valid()
      modifies this`pmtCc, pmt
      ensures Valid() && r == pmt && pmt[..] == PmtPacket(TableCc(old(pmtCc)), soundFormat, hasVideo)
      ensures pmtCc == TableCc(old(pmtCc)) + 1
    {
      if pmtCc > 0xf {
        pmtCc := 0;
      }
      pmtCc := pmtCc + 1;
      hide TablePacket, ProgInfo, PmtHeader;
      WriteTable(pmt, [0x47, 0x50, 0x01], pmtCc - 1, PmtHeader(hasVideo) + ProgInfo(soundFormat, hasVideo));
      r := pmt;
    }
  }

  /** Writes the four checksum bytes at index i and fills up the packet behind them. */
  method WriteCrc(a: array<byte>, i: nat, crc: bv32)
    requires i + 4 <= a.Length
    modifies a
    ensures a[..] == old(a[..i]) + Crc.CrcBytes(crc) + seq(a.Length - i - 4, k => 0xff)
  {
    ghost var before := a[..i];
    var check: seq<byte> := [Crc.Byte(crc >> 24), Crc.Byte(crc >> 16), Crc.Byte(crc >> 8), Crc.Byte(crc)];
    assert check == Crc.CrcBytes(crc);
    hide *;
    a[i] := check[0];
    a[i + 1] := check[1];
    a[i + 2] := check[2];
    a[i + 3] := check[3];
    assert a[..i + 4] == before + check;
    forall k | i + 4 <= k < a.Length {
      a[k] := 0xff;
    }
  }

  /** The fixed parts of the program association packet. */
  method PatParts(cc: nat) returns (head: seq<byte>, section: seq<byte>)
    requires cc < 16
    ensures |head| == 3 && |section| <= 22 && PatPacket(cc) == TablePacket(head, cc, section)
  {
    hide TablePacket;
    head, section := [0x47, 0x40, 0x00], PatHeader();
  }

  /** One packet with one section and its checksum. */
  method WriteTable(a: array<byte>, head: seq<byte>, cc: byte, section: seq<byte>)
    requires a.Length == PACKET_LEN && |head| == 3 && cc < 16 && |section| <= 22
    modifies a
    ensures a[..] == TablePacket(head, cc, section)
  {
    hide TablePacket, Crc.Crc, Crc.CrcBytes, Crc.Divide, Crc.MessageBits;
    var tsHeader := head + [0x10 + cc, 0x00];
    var end := 5 + |section|;
    Copy(a, 0, tsHeader);
    assert a[..5] == tsHeader;
    Copy(a, 5, section);
    assert a[..end] == tsHeader + section;
    assert a[5..end] == section;
    var crc := Crc.GenCrc32(a[5..end]);
    WriteCrc(a, end, crc);
    Laid(head, cc, section, crc);
  }

  lemma PrefixOfFull(p: Frame, unit: bool, cc: nat, n: nat)
    requires cc < 16 && n >= DEFAULT_DATA_LEN
    ensures Prefix(p, unit, cc, n) == Prefix(p, unit, cc, DEFAULT_DATA_LEN)
  {
  }

  lemma PrefixLength(p: Frame, unit: bool, cc: nat, n: nat)
    requires cc < 16
    ensures |Prefix(p, unit, cc, n)| == |Prefix(p, unit, cc, DEFAULT_DATA_LEN)| == if WithPcr(p, unit) then 12 else 4
  {
    hide Prefix;
  }

  lemma Wraps(i: byte, n: byte)
    requires i <= 12 && 0 < n < DEFAULT_DATA_LEN
    ensures (i + (PACKET_LEN - i - n) % 256) % 256 == PACKET_LEN - n
  {
  }

  /** Prefix and stuffing, up to where the payload goes. */
  lemma Stuffed(p: Frame, unit: bool, cc: nat, n: nat, s: seq<byte>)
    requires cc < 16 && 0 < n < DEFAULT_DATA_LEN && |s| == PACKET_LEN
    requires var prefix := Prefix(p, unit, cc, n);
      var space := PACKET_LEN - |prefix|;
      var all := prefix + Stuffing(space, (space - n) % 256);
      |all| <= PACKET_LEN && s[..|all|] == all
    ensures s[..PACKET_LEN - n] == Before(p, unit, cc, n)
  {
    hide Prefix, Stuffing;
  }

  lemma Laid(head: seq<byte>, cc: nat, section: seq<byte>, crc: bv32)
    requires |head| == 3 && cc < 16 && |section| <= 22 && crc == Crc.Crc(CRC_INIT, section)
    ensures (head + [0x10 + cc, 0x00]) + section + Crc.CrcBytes(crc) + seq(PACKET_LEN - (5 + |section|) - 4, k => 0xff)
         == TablePacket(head, cc, section)
  {
    hide Crc.Crc, Crc.CrcBytes;
    Regroup(head + [0x10 + cc, 0x00], section, Crc.CrcBytes(crc));
  }

  /** The packet by its parts: what stands before the payload, the PES header in the first one, and
      the next of the data. */
  lemma PacketParts(p: Frame, first: bool, cc: nat, n: nat, wBytes: nat, taken: nat)
    requires cc < 16 && wBytes + taken <= |p.data| && (first ==> wBytes == 0)
    requires n == |p.data| - wBytes + (if first then |PesHeader(p)| else 0) > 0
    requires taken + (if first then |PesHeader(p)| else 0) == Carried(p, first, n)
    ensures Packet(p, first, cc, if first then Pes(p) else p.data[wBytes..])
         == if first then Before(p, first, cc, n) + PesHeader(p) + p.data[..taken]
            else Before(p, first, cc, n) + p.data[wBytes..wBytes + taken]
  {
    hide PesHeader, Before, Carried;
    Filled(Before(p, first, cc, n), PesHeader(p), p.data, first, wBytes, taken);
  }

  lemma Filled(before: seq<byte>, header: seq<byte>, data: seq<byte>, first: bool, wBytes: nat, taken: nat)
    requires wBytes + taken <= |data| && (first ==> wBytes == 0)
    ensures if first then before + header + data[..taken] == before + (header + data)[..|header| + taken]
            else data[wBytes..wBytes + taken] == data[wBytes..][..taken]
  {
    Regroup(before, header, data[..taken]);
    assert header + data[..taken] == (header + data)[..|header| + taken];
  }

  lemma RestAfter(header: seq<byte>, data: seq<byte>, first: bool, wBytes: nat, taken: nat)
    requires wBytes + taken <= |data| && (first ==> wBytes == 0)
    ensures data[wBytes + taken..]
         == if first then (header + data)[|header| + taken..] else data[wBytes..][taken..]
  {
  }

  /** What is written and what is to come make up the packets of the frame. */
  ghost predicate MuxSoFar(p: Frame, cc0: nat, first: bool, cc: nat, rest: seq<byte>, sofar: seq<byte>)
    requires cc0 < 16 && cc < 16
  {
    && sofar + Concat(Packets(p, first, cc, rest)) == Concat(Packets(p, true, cc0, Pes(p)))
    && LastCc(p, first, cc, rest) == LastCc(p, true, cc0, Pes(p))
  }

  lemma MuxStart(p: Frame, cc: nat)
    requires cc < 16
    ensures MuxSoFar(p, cc, true, cc, Pes(p), [])
  {
    var all := Concat(Packets(p, true, cc, Pes(p)));
    assert [] + all == all;
  }

  lemma MuxNext(p: Frame, cc0: nat, unit: bool, cc: nat, rest: seq<byte>, sofar: seq<byte>)
    requires cc0 < 16 && cc < 16 && rest != [] && MuxSoFar(p, cc0, unit, cc, rest, sofar)
    ensures MuxSoFar(p, cc0, false, NextCc(cc), rest[Carried(p, unit, |rest|)..],
                     sofar + Packet(p, unit, NextCc(cc), rest))
  {
    hide Packet;
    var pkt, rest' := Packet(p, unit, NextCc(cc), rest), rest[Carried(p, unit, |rest|)..];
    var pkts := Packets(p, false, NextCc(cc), rest');
    assert ([pkt] + pkts)[1..] == pkts;
    Regroup(sofar, pkt, Concat(pkts));
  }

  lemma MuxEnd(p: Frame, cc0: nat, unit: bool, cc: nat, sofar: seq<byte>)
    requires cc0 < 16 && cc < 16 && MuxSoFar(p, cc0, unit, cc, [], sofar)
    ensures sofar == Concat(Packets(p, true, cc0, Pes(p))) && cc == LastCc(p, true, cc0, Pes(p))
  {
    assert sofar + [] == sofar;
  }
}
