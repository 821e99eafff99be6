/** MPEG transport stream packets and packetized elementary streams (sections 2.4.3.2 to 2.4.3.7
    of ISO/IEC 13818-1) as the muxer makes them, and as a standard reader takes them apart. */
module TsFormat {
  import opened Bytes

  const PACKET_LEN: nat := 188
  const DEFAULT_DATA_LEN: nat := 184
  const DEFAULT_HZ: int := 90
  const TWO_33: int := 0x2_0000_0000

  type int32 = x: int | -0x8000_0000 <= x < 0x8000_0000

  /** An audio or video frame. The last three fields only matter for video. */
  datatype Frame = Frame(isVideo: bool, timeStamp: uint32, data: seq<byte>, keyFrame: bool,
                         compositionTime: int32)

  function Dts(p: Frame): int {
    p.timeStamp * DEFAULT_HZ
  }

  function Pts(p: Frame): int {
    if p.isVideo then Dts(p) + p.compositionTime * DEFAULT_HZ else Dts(p)
  }

  // ----- Time stamps ---------------------------------------------------------------------------

  /** Values past 33 bits are reduced by one less than they should be. */
  function Reduced(ts: int): int {
    if ts > 0x1_ffff_ffff then ts - 0x1_ffff_ffff else ts
  }

  /** Three groups of bits, each followed by a marker bit. */
  function Stamp(prefix: nat, high: nat, mid: nat, low: nat): (s: seq<byte>)
    requires prefix < 16 && high < 8 && mid < 0x8000 && low < 0x8000
    ensures |s| == 5
  {
    var m, l := mid * 2 + 1, low * 2 + 1;
    [prefix * 16 + high * 2 + 1, m / 256, m % 256, l / 256, l % 256]
  }

  /** The five bytes of a time stamp with its four-bit prefix. */
  function TimeStamp(prefix: nat, ts: int): (s: seq<byte>)
    requires prefix < 16
    ensures |s| == 5
  {
    var t := Reduced(ts);
    Stamp(prefix, (t / 0x4000_0000) % 8, (t / 0x8000) % 0x8000, t % 0x8000)
  }

  function Word16(high: byte, low: byte): int {
    (high as int) * 256 + low
  }

  lemma Word16OfBytes(w: nat)
    requires w < 0x1_0000
    ensures Word16(w / 256, w % 256) == w
  {
  }

  /** A standard reader: the prefix and marker bits must be as they should. */
  function ReadTimeStamp(prefix: nat, s: seq<byte>): Option<int>
    requires |s| == 5
  {
    if s[0] / 16 == prefix && s[0] % 2 == 1 && s[2] % 2 == 1 && s[4] % 2 == 1 then
      Some((s[0] as int) / 2 % 8 * 0x4000_0000 + Word16(s[1], s[2]) / 2 * 0x8000 + Word16(s[3], s[4]) / 2)
    else None
  }

  lemma SplitBits(t: int)
    ensures (t / 0x4000_0000) % 8 * 0x4000_0000 + (t / 0x8000) % 0x8000 * 0x8000 + t % 0x8000 == t % TWO_33
  {
    assert t / 0x4000_0000 == (t / 0x8000) / 0x8000;
  }

  lemma StampRoundTrip(prefix: nat, high: nat, mid: nat, low: nat)
    requires prefix < 16 && high < 8 && mid < 0x8000 && low < 0x8000
    ensures ReadTimeStamp(prefix, Stamp(prefix, high, mid, low))
         == Some(high * 0x4000_0000 + mid * 0x8000 + low)
  {
    Word16OfBytes(mid * 2 + 1);
    Word16OfBytes(low * 2 + 1);
    Marked(mid);
    Marked(low);
    HighBits(prefix, high);
    hide Word16;
  }

  lemma Marked(v: nat)
    ensures (v * 2 + 1) / 2 == v && (v * 2 + 1) % 256 % 2 == 1
  {
  }

  lemma HighBits(prefix: nat, high: nat)
    requires prefix < 16 && high < 8
    ensures var b := prefix * 16 + high * 2 + 1;
      b / 16 == prefix && b % 2 == 1 && b / 2 % 8 == high
  {
  }

  /** What a reader makes of a written time stamp, for every value. */
  lemma TimeStampRoundTrip(prefix: nat, ts: int)
    requires prefix < 16
    ensures ReadTimeStamp(prefix, TimeStamp(prefix, ts)) == Some(Reduced(ts) % TWO_33)
  {
    var t := Reduced(ts);
    SplitBits(t);
    StampRoundTrip(prefix, (t / 0x4000_0000) % 8, (t / 0x8000) % 0x8000, t % 0x8000);
    hide ReadTimeStamp, Stamp, Reduced;
  }

  /** The time stamp arrives, modulo 2^33, exactly when it is below 2^33. */
  lemma TimeStampExact(prefix: nat, ts: int)
    requires prefix < 16
    ensures ReadTimeStamp(prefix, TimeStamp(prefix, ts)) == Some(ts % TWO_33) <==> ts < TWO_33
  {
    TimeStampRoundTrip(prefix, ts);
  }

  /** The program clock reference: 33 bits of base and nine of extension, which is zero. */
  function Pcr(pcr: int): (s: seq<byte>)
    ensures |s| == 6
  {
    [pcr / 0x200_0000 % 256, pcr / 0x2_0000 % 256, pcr / 0x200 % 256, pcr / 2 % 256,
     pcr % 2 * 128 + 0x7e, 0]
  }

  function ReadPcr(s: seq<byte>): (int, int)
    requires |s| == 6
  {
    ((s[0] as int) * 0x200_0000 + (s[1] as int) * 0x2_0000 + (s[2] as int) * 0x200
     + (s[3] as int) * 2 + (s[4] as int) / 128, (s[4] as int) % 2 * 256 + s[5])
  }

  /** The clock reference carries every clock value modulo 2^33. */
  lemma PcrRoundTrip(pcr: int)
    ensures ReadPcr(Pcr(pcr)) == (pcr % TWO_33, 0)
  {
    assert pcr / 0x200 == (pcr / 2) / 256;
    assert pcr / 0x2_0000 == (pcr / 0x200) / 256;
    assert pcr / 0x200_0000 == (pcr / 0x2_0000) / 256;
    assert pcr / TWO_33 == (pcr / 0x200_0000) / 256;
  }

  // ----- Packetized elementary stream -------------------------------------------------------------

  const VIDEO_SID: byte := 0xe0
  const AUDIO_SID: byte := 0xc0

  /** Decoding time is written only where it differs from presentation time. */
  predicate HasDts(p: Frame) {
    p.isVideo && Pts(p) != Dts(p)
  }

  function PesLength(p: Frame): nat {
    var size := |p.data| + (if HasDts(p) then 10 else 5) + 3;
    if size > 0xffff then 0 else size
  }

  function PesHeader(p: Frame): (s: seq<byte>)
    ensures |s| == if HasDts(p) then 19 else 14
  {
    [0, 0, 1, if p.isVideo then VIDEO_SID else AUDIO_SID,
     PesLength(p) / 256, PesLength(p) % 256, 0x80,
     if HasDts(p) then 0xc0 else 0x80, if HasDts(p) then 10 else 5]
    + TimeStamp(if HasDts(p) then 3 else 2, Pts(p))
    + (if HasDts(p) then TimeStamp(1, Dts(p)) else [])
  }

  function Pes(p: Frame): seq<byte> {
    PesHeader(p) + p.data
  }

  /** What a standard reader finds in a PES packet. */
  datatype PesContent = PesContent(sid: byte, length: nat, pts: int, dts: int, payload: seq<byte>)

  /** With marker bits, not scrambled, no fields but times, and no stuffing behind them. */
  function ReadPes(s: seq<byte>): Option<PesContent> {
    if |s| < 9 || s[..3] != [0, 0, 1] || |s| < (s[8] as int) + 9 || s[6] / 16 != 8 || s[7] % 64 != 0 then None
    else if s[7] / 64 == 2 && s[8] == 5 then
      match ReadTimeStamp(2, s[9..14])
      case Some(pts) => Some(PesContent(s[3], Word16(s[4], s[5]), pts, pts, s[(s[8] as int) + 9..]))
      case None => None
    else if s[7] / 64 == 3 && s[8] == 10 then
      match (ReadTimeStamp(3, s[9..14]), ReadTimeStamp(1, s[14..19]))
      case (Some(pts), Some(dts)) => Some(PesContent(s[3], Word16(s[4], s[5]), pts, dts, s[(s[8] as int) + 9..]))
      case _ => None
    else None
  }

  /** A standard reader recovers the frame from its PES packet: stream id, data, both times modulo
      2^33, and a length that is exact or, beyond 16 bits, zero. */
  lemma PesRoundTrip(p: Frame)
    ensures ReadPes(Pes(p)) == Some(PesContent(
              if p.isVideo then VIDEO_SID else AUDIO_SID,
              if |Pes(p)| - 6 <= 0xffff then |Pes(p)| - 6 else 0,
              Reduced(Pts(p)) % TWO_33, Reduced(Dts(p)) % TWO_33, p.data))
  {
    hide TimeStamp, ReadTimeStamp, Reduced, Pts, Dts;
    var s := Pes(p);
    TimeStampRoundTrip(if HasDts(p) then 3 else 2, Pts(p));
    TimeStampRoundTrip(1, Dts(p));
    assert s[..3] == [0, 0, 1];
    assert s[9..14] == TimeStamp(if HasDts(p) then 3 else 2, Pts(p));
    if HasDts(p) {
      assert s[14..19] == TimeStamp(1, Dts(p));
      assert s[19..] == p.data;
    } else {
      assert s[14..] == p.data;
      SameTimes(p);
    }
  }

  lemma SameTimes(p: Frame)
    requires !HasDts(p)
    ensures Pts(p) == Dts(p)
  {
  }
}
