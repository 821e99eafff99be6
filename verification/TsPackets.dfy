/** How the muxer cuts a PES packet into transport stream packets, and when a standard reader gets
    it back. */
module TsPackets {
  import opened Bytes
  import opened TsFormat

  const VIDEO_PID: nat := 0x100
  const AUDIO_PID: nat := 0x101

  function Pid(p: Frame): nat {
    if p.isVideo then VIDEO_PID else AUDIO_PID
  }

  /** The first packet of a key frame carries the clock reference. */
  predicate WithPcr(p: Frame, unit: bool) {
    unit && p.isVideo && p.keyFrame
  }

  // ----- One packet, as written ---------------------------------------------------------------

  /** The packet up to the payload or the stuffing. n is what is left of the PES packet. */
  function Prefix(p: Frame, unit: bool, cc: nat, n: nat): (s: seq<byte>)
    requires cc < 16
    ensures |s| == if WithPcr(p, unit) then 12 else 4
  {
    var flags := if WithPcr(p, unit) || n < DEFAULT_DATA_LEN then 0x30 else 0x10;
    [0x47, Pid(p) / 256 + (if unit then 0x40 else 0), Pid(p) % 256, flags + cc]
    + (if WithPcr(p, unit) then [7, 0x50] + Pcr(Dts(p)) else [])
  }

  /** The adaptation field the muxer writes over the rest of the packet. Its length is computed in
      a byte; of one single byte only the length is written. */
  function Stuffing(len: nat, remain: nat): (s: seq<byte>)
    requires len >= 2 && remain < 256
    ensures |s| == if remain == 1 then 1 else len
  {
    [(remain + 255) % 256] + (if remain == 1 then [] else [0] + seq(len - 2, i => 0xff))
  }

  /** How much of the PES packet goes into this packet. */
  function Carried(p: Frame, unit: bool, n: nat): nat {
    if n < DEFAULT_DATA_LEN then n else if WithPcr(p, unit) then 176 else DEFAULT_DATA_LEN
  }

  /** The packet before its payload. A last payload stands at the very end, over whatever the
      stuffing put there. */
  function Before(p: Frame, unit: bool, cc: nat, n: nat): (s: seq<byte>)
    requires cc < 16 && n > 0
    ensures |s| + Carried(p, unit, n) == PACKET_LEN
  {
    var prefix := Prefix(p, unit, cc, n);
    if n >= DEFAULT_DATA_LEN then prefix
    else
      var space := PACKET_LEN - |prefix|;
      (prefix + Stuffing(space, (space - n) % 256))[..PACKET_LEN - n]
  }

  function Packet(p: Frame, unit: bool, cc: nat, rest: seq<byte>): (s: seq<byte>)
    requires cc < 16 && rest != []
    ensures |s| == PACKET_LEN
  {
    Before(p, unit, cc, |rest|) + rest[..Carried(p, unit, |rest|)]
  }

  function NextCc(cc: nat): nat {
    if cc + 1 > 0xf then 0 else cc + 1
  }

  /** All packets of what is left of a PES packet; cc is the counter of the packet before. */
  function Packets(p: Frame, unit: bool, cc: nat, rest: seq<byte>): seq<seq<byte>>
    requires cc < 16
    decreases |rest|
  {
    if rest == [] then []
    else [Packet(p, unit, NextCc(cc), rest)]
         + Packets(p, false, NextCc(cc), rest[Carried(p, unit, |rest|)..])
  }

  function LastCc(p: Frame, unit: bool, cc: nat, rest: seq<byte>): nat
    requires cc < 16
    ensures LastCc(p, unit, cc, rest) < 16
    decreases |rest|
  {
    if rest == [] then cc else LastCc(p, false, NextCc(cc), rest[Carried(p, unit, |rest|)..])
  }

  function Concat(pkts: seq<seq<byte>>): seq<byte> {
    if pkts == [] then [] else pkts[0] + Concat(pkts[1..])
  }

  // ----- One packet, as read ------------------------------------------------------------------

  /** Whether a stream may be entered here, and the clock reference, if there is one. */
  datatype Field = Field(entry: bool, clock: Option<(int, int)>)

  /** The field is None if it cannot be read. */
  datatype TsPacket = TsPacket(pid: nat, unit: bool, cc: nat, field: Option<Field>, payload: seq<byte>)

  predicate OnlyStuffing(s: seq<byte>) {
    forall i | 0 <= i < |s| :: s[i] == 0xff
  }

  /** An adaptation field behind its length (section 2.4.3.4 of ISO/IEC 13818-1): flags, the clock
      reference if its flag is set, and stuffing. No other part is known here, nor a discontinuity. */
  function ReadField(s: seq<byte>): Option<Field> {
    if s == [] then Some(Field(false, None))
    else
      var clock := (s[0] as int) / 0x10 % 2 == 1;
      var end := if clock then 7 else 1;
      if s[0] >= 0x80 || s[0] % 0x10 != 0 || |s| < end || !OnlyStuffing(s[end..]) then None
      else Some(Field((s[0] as int) / 0x40 % 2 == 1, if clock then Some(ReadPcr(s[1..7])) else None))
  }

  /** A standard reader: no error, not scrambled, a payload, and before it possibly an adaptation
      field of the length it gives. */
  function ReadPacket(s: seq<byte>): Option<TsPacket> {
    if |s| != PACKET_LEN || s[0] != 0x47 || s[1] >= 0x80 || s[3] >= 0x40 then None
    else
      var pid, unit, cc := (s[1] as int) % 32 * 256 + s[2], (s[1] as int) / 0x40 % 2 == 1, (s[3] as int) % 16;
      if s[3] / 16 == 1 then Some(TsPacket(pid, unit, cc, ReadField([]), s[4..]))
      else if s[3] / 16 == 3 && s[4] <= 182 then
        var end := (s[4] as int) + 5;
        Some(TsPacket(pid, unit, cc, ReadField(s[5..end]), s[end..]))
      else None
  }

  /** The payloads of a run of packets of one stream, put together. */
  function Payload(pkts: seq<seq<byte>>): Option<seq<byte>> {
    if pkts == [] then Some([])
    else
      match (ReadPacket(pkts[0]), Payload(pkts[1..]))
      case (Some(t), Some(rest)) => Some(t.payload + rest)
      case _ => None
  }

  // ----- What every packet looks like -----------------------------------------------------------

  /** Clock reference and stuffing do not combine: a small key frame is misplaced, except when it
      happens to fill the packet exactly. */
  predicate Fits(p: Frame, unit: bool, n: nat) {
    WithPcr(p, unit) && n < DEFAULT_DATA_LEN ==> n == 176
  }

  lemma PacketHeader(p: Frame, unit: bool, cc: nat, rest: seq<byte>)
    requires cc < 16 && rest != []
    ensures var s, prefix := Packet(p, unit, cc, rest), Prefix(p, unit, cc, |rest|);
            && s[0] == 0x47 && s[1] == Pid(p) / 256 + (if unit then 0x40 else 0)
            && s[2] == Pid(p) % 256 && s[3] == prefix[3]
            && (WithPcr(p, unit) ==> s[4] == 7)
  {
    hide Stuffing, Pcr, Prefix, Before;
    var prefix := Prefix(p, unit, cc, |rest|);
    PrefixBytes(p, unit, cc, |rest|);
    BeginsWithPrefix(p, unit, cc, |rest|);
    var before := Before(p, unit, cc, |rest|);
    assert forall i | 0 <= i < |prefix| && i < 5 :: Packet(p, unit, cc, rest)[i] == before[i] == prefix[i];
  }

  lemma PrefixBytes(p: Frame, unit: bool, cc: nat, n: nat)
    requires cc < 16
    ensures var prefix := Prefix(p, unit, cc, n);
            && prefix[0] == 0x47 && prefix[1] == Pid(p) / 256 + (if unit then 0x40 else 0)
            && prefix[2] == Pid(p) % 256 && (WithPcr(p, unit) ==> prefix[4] == 7)
  {
    hide Pcr;
  }

  lemma BeginsWithPrefix(p: Frame, unit: bool, cc: nat, n: nat)
    requires cc < 16 && n > 0
    ensures var prefix, before := Prefix(p, unit, cc, n), Before(p, unit, cc, n);
            |prefix| <= |before| + 8 && |before| >= 4
            && forall i | 0 <= i < 5 && i < |prefix| && i < |before| :: before[i] == prefix[i]
  {
    hide Stuffing, Prefix;
  }

  /** What a player must find in front of the payload: in the first packet of a key frame that the
      stream may be entered there and what the clock reads, 90 ticks a millisecond in 33 bits; otherwise
      nothing. */
  function FieldOf(p: Frame, unit: bool): Field {
    if unit && p.isVideo && p.keyFrame then Field(true, Some((p.timeStamp * 90 % 0x2_0000_0000, 0)))
    else Field(false, None)
  }

  /** A packet that fits is read back: stream, unit start, counter, clock reference and exactly its
      payload. */
  lemma PacketReads(p: Frame, unit: bool, cc: nat, rest: seq<byte>)
    requires cc < 16 && rest != [] && Fits(p, unit, |rest|)
    ensures ReadPacket(Packet(p, unit, cc, rest))
         == Some(TsPacket(Pid(p), unit, cc, Some(FieldOf(p, unit)), rest[..Carried(p, unit, |rest|)]))
  {
    hide Packet, Prefix, Before, Stuffing, Pcr, ReadField, FieldOf;
    PacketHeader(p, unit, cc, rest);
    FlagsOf(p, unit, cc, |rest|);
    PayloadAt(p, unit, cc, rest);
    FieldReads(p, unit, cc, rest);
  }

  /** The field of a packet that fits, behind its length. */
  lemma FieldReads(p: Frame, unit: bool, cc: nat, rest: seq<byte>)
    requires cc < 16 && rest != [] && Fits(p, unit, |rest|)
    ensures var s, n := Packet(p, unit, cc, rest), |rest|;
      && (WithPcr(p, unit) ==> ReadField(s[5..12]) == Some(FieldOf(p, unit)))
      && (!WithPcr(p, unit) ==> ReadField([]) == Some(FieldOf(p, unit)))
      && (!WithPcr(p, unit) && n < DEFAULT_DATA_LEN ==> ReadField(s[5..188 - n]) == Some(FieldOf(p, unit)))
  {
    hide Packet, Prefix, Before, Stuffing, Pcr;
    if WithPcr(p, unit) {
      ClockAt(p, unit, cc, rest);
      ClockReads(Dts(p));
    } else if |rest| < DEFAULT_DATA_LEN {
      StuffedUp(p, unit, cc, rest);
    }
  }

  lemma ClockAt(p: Frame, unit: bool, cc: nat, rest: seq<byte>)
    requires cc < 16 && rest != [] && Fits(p, unit, |rest|) && WithPcr(p, unit)
    ensures Packet(p, unit, cc, rest)[5..12] == [0x50] + Pcr(Dts(p))
  {
    hide Stuffing, Pcr;
    var prefix, n := Prefix(p, unit, cc, |rest|), |rest|;
    assert prefix[5..] == [0x50] + Pcr(Dts(p));
    assert Before(p, unit, cc, n) == prefix;
  }

  lemma ClockReads(d: int)
    ensures ReadField([0x50] + Pcr(d)) == Some(Field(true, Some((d % 0x2_0000_0000, 0))))
  {
    hide Pcr, ReadPcr;
    PcrRoundTrip(d);
    var s := [0x50] + Pcr(d);
    assert s[1..7] == Pcr(d) && s[7..] == [];
  }

  lemma StuffedUp(p: Frame, unit: bool, cc: nat, rest: seq<byte>)
    requires cc < 16 && 0 < |rest| < DEFAULT_DATA_LEN && !WithPcr(p, unit)
    ensures ReadField(Packet(p, unit, cc, rest)[5..188 - |rest|]) == Some(Field(false, None))
  {
    hide Prefix;
    var n, prefix := |rest|, Prefix(p, unit, cc, |rest|);
    var s, before := Packet(p, unit, cc, rest), Before(p, unit, cc, n);
    assert s[5..188 - n] == before[5..];
    if n < 183 {
      assert before[5..] == [0x00] + seq(182 - n, i => 0xff);
      var all: seq<byte> := [0x00] + seq(182 - n, i => 0xff);
      assert all[1..] == seq(182 - n, i => 0xff);
    }
  }

  lemma FlagsOf(p: Frame, unit: bool, cc: nat, n: nat)
    requires cc < 16
    ensures Prefix(p, unit, cc, n)[3] == (if WithPcr(p, unit) || n < DEFAULT_DATA_LEN then 0x30 else 0x10) + cc
  {
    hide Pcr;
  }

  /** Where the payload stands, and the length of the stuffing before it. */
  lemma PayloadAt(p: Frame, unit: bool, cc: nat, rest: seq<byte>)
    requires cc < 16 && rest != []
    ensures var s, k := Packet(p, unit, cc, rest), Carried(p, unit, |rest|);
      && s[PACKET_LEN - k..] == rest[..k]
      && (|rest| < DEFAULT_DATA_LEN && !WithPcr(p, unit) ==> s[4] == 183 - |rest|)
  {
    hide Pcr, Prefix, Before;
    Unjoin(Before(p, unit, cc, |rest|), rest[..Carried(p, unit, |rest|)]);
    if |rest| < DEFAULT_DATA_LEN && !WithPcr(p, unit) {
      StuffingAt(p, unit, cc, |rest|);
    }
  }

  lemma StuffingAt(p: Frame, unit: bool, cc: nat, n: nat)
    requires cc < 16 && 0 < n < DEFAULT_DATA_LEN && !WithPcr(p, unit)
    ensures Before(p, unit, cc, n)[4] == 183 - n
  {
    hide Prefix;
  }

  /** A packet that does not fit is read as one of 176 payload bytes. */
  lemma PacketMisread(p: Frame, unit: bool, cc: nat, rest: seq<byte>)
    requires cc < 16 && rest != [] && !Fits(p, unit, |rest|)
    ensures var r := ReadPacket(Packet(p, unit, cc, rest)); r.Some? && |r.value.payload| == 176 != |rest|
  {
    PacketHeader(p, unit, cc, rest);
  }

  // ----- Whole frames -----------------------------------------------------------------------------

  lemma {:induction false} LaterPacketsConserve(p: Frame, cc: nat, rest: seq<byte>)
    requires cc < 16
    ensures Payload(Packets(p, false, cc, rest)) == Some(rest)
    decreases |rest|
  {
    hide Packet, ReadPacket, Before;
    if rest != [] {
      var k := Carried(p, false, |rest|);
      PacketReads(p, false, NextCc(cc), rest);
      LaterPacketsConserve(p, NextCc(cc), rest[k..]);
      FirstAndRest(Packet(p, false, NextCc(cc), rest), Packets(p, false, NextCc(cc), rest[k..]));
      hide Payload;
      Rejoin(rest, k);
    }
  }

  lemma Rejoin(s: seq<byte>, k: nat)
    requires k <= |s|
    ensures s[..k] + s[k..] == s
  {
  }

  lemma FirstAndRest(pkt: seq<byte>, pkts: seq<seq<byte>>)
    ensures Payload([pkt] + pkts) == match (ReadPacket(pkt), Payload(pkts))
                                     case (Some(t), Some(rest)) => Some(t.payload + rest)
                                     case _ => None
  {
    assert ([pkt] + pkts)[1..] == pkts;
  }

  /** Taking the packets of a frame apart gives back exactly its PES packet if and only if the
      frame is not a small key frame: one whose PES packet is below 184 bytes and not 176. */
  lemma PayloadConserved(p: Frame, cc: nat)
    requires cc < 16
    ensures Payload(Packets(p, true, cc, Pes(p))) == Some(Pes(p)) <==> Fits(p, true, |Pes(p)|)
  {
    hide Packet, ReadPacket, Pes;
    var rest, cc' := Pes(p), NextCc(cc);
    assert rest != [] by { NotEmpty(p); }
    var k := Carried(p, true, |rest|);
    FirstAndRest(Packet(p, true, cc', rest), Packets(p, false, cc', rest[k..]));
    LaterPacketsConserve(p, cc', rest[k..]);
    if Fits(p, true, |rest|) {
      PacketReads(p, true, cc', rest);
      assert rest[..k] + rest[k..] == rest;
    } else {
      PacketMisread(p, true, cc', rest);
    }
  }

  lemma NotEmpty(p: Frame)
    ensures |Pes(p)| >= 14
  {
  }

  /** For every frame: whole packets with the sync byte, of the frame's stream, unit start on
      exactly the first, and counters that go up by one modulo 16. */
  lemma {:induction false} PacketsWellFormed(p: Frame, unit: bool, cc: nat, rest: seq<byte>, i: nat)
    requires cc < 16 && i < |Packets(p, unit, cc, rest)|
    ensures var r := ReadPacket(Packets(p, unit, cc, rest)[i]);
      && r.Some? && r.value.pid == Pid(p)
      && r.value.unit == (unit && i == 0)
      && r.value.cc == (cc + 1 + i) % 16
      && (Fits(p, unit, |rest|) ==> r.value.field == Some(FieldOf(p, unit && i == 0)))
    decreases |rest|
  {
    hide Packet, ReadPacket;
    var k, cc' := Carried(p, unit, |rest|), NextCc(cc);
    if i == 0 {
      EveryPacketReads(p, unit, cc', rest);
    } else {
      PacketsWellFormed(p, false, cc', rest[k..], i - 1);
    }
  }

  lemma EveryPacketReads(p: Frame, unit: bool, cc: nat, rest: seq<byte>)
    requires cc < 16 && rest != []
    ensures var r := ReadPacket(Packet(p, unit, cc, rest));
      && r.Some? && r.value.pid == Pid(p) && r.value.unit == unit && r.value.cc == cc
      && (Fits(p, unit, |rest|) ==> r.value.field == Some(FieldOf(p, unit)))
  {
    if Fits(p, unit, |rest|) {
      PacketReads(p, unit, cc, rest);
    } else {
      PacketHeader(p, unit, cc, rest);
    }
  }
}
