/** The program tables: a packet that names the program, a packet that names its streams, each a
    section closed by its checksum, and a standard reader of both. */
module TsTables {
  import opened Bytes
  import opened TsFormat
  import opened TsPackets
  import Crc

  const PAT_PID: nat := 0
  const PMT_PID: nat := 0x1001
  const CRC_INIT: bv32 := 0xffffffff

  function PatHeader(): (s: seq<byte>)
    ensures |s| == 12
  {
    [0x00, 0xb0, 0x0d, 0x00, 0x01, 0xc1, 0x00, 0x00, 0x00, 0x01, 0xf0, 0x01]
  }

  /** Sound formats that are announced as MPEG audio rather than AAC. */
  function AudioType(soundFormat: byte): byte {
    if soundFormat == 2 || soundFormat == 14 then 0x04 else 0x0f
  }

  function ProgInfo(soundFormat: byte, hasVideo: bool): seq<byte> {
    if hasVideo then [0x1b, 0xe1, 0x00, 0xf0, 0x00, AudioType(soundFormat), 0xe1, 0x01, 0xf0, 0x00]
    else [AudioType(soundFormat), 0xe1, 0x01, 0xf0, 0x00]
  }

  function PmtHeader(hasVideo: bool): seq<byte> {
    [0x02, 0xb0, (if hasVideo then 10 else 5) + 9 + 4, 0x00, 0x01, 0xc1, 0x00, 0x00, 0xe1,
     if hasVideo then 0x00 else 0x01, 0xf0, 0x00]
  }

  /** A section with its checksum behind it. */
  function Checked(section: seq<byte>): seq<byte> {
    section + Crc.CrcBytes(Crc.Crc(CRC_INIT, section))
  }

  /** One packet with one section, filled up with 0xff. */
  function TablePacket(head: seq<byte>, cc: nat, section: seq<byte>): (s: seq<byte>)
    requires |head| == 3 && cc < 16 && |section| <= 22
    ensures |s| == PACKET_LEN
  {
    head + [0x10 + cc, 0x00] + Checked(section) + seq(PACKET_LEN - 9 - |section|, i => 0xff)
  }

  function PatPacket(cc: nat): (s: seq<byte>)
    requires cc < 16
    ensures |s| == PACKET_LEN
  {
    TablePacket([0x47, 0x40, 0x00], cc, PatHeader())
  }

  function PmtPacket(cc: nat, soundFormat: byte, hasVideo: bool): (s: seq<byte>)
    requires cc < 16
    ensures |s| == PACKET_LEN
  {
    TablePacket([0x47, 0x50, 0x01], cc, PmtHeader(hasVideo) + ProgInfo(soundFormat, hasVideo))
  }

  /** A table's counter is wrapped before it is used. */
  function TableCc(cc: nat): nat {
    if cc > 0xf then 0 else cc
  }

  // ----- A standard reader --------------------------------------------------------------------

  /** A section is of the table, in the long form, in force, and the only one of its table (section
      2.4.4 of ISO/IEC 13818-1). */
  predicate InForce(section: seq<byte>, table: byte) {
    && |section| >= 8 && section[0] == table && section[1] / 0x10 == 0xb
    && section[5] % 2 == 1 && section[6] == 0 && section[7] == 0
  }

  /** The section in a payload: after the pointer, as long as it says, with remainder zero, and nothing
      but stuffing behind it. */
  ghost function ReadSection(payload: seq<byte>, table: byte): Option<seq<byte>> {
    if |payload| < 4 || payload[0] != 0 then None
    else
      var len := (payload[2] as int) % 16 * 256 + payload[3];
      if |payload| < len + 4 || len < 9 then None
      else
        var section := payload[1..len + 4];
        if InForce(section, table) && OnlyStuffing(payload[len + 4..])
           && Crc.Divide(0xffffffff, Crc.MessageBits(section)) == 0 then Some(section[..len - 1])
        else None
  }

  function Pid13(high: byte, low: byte): nat {
    (high as int) % 32 * 256 + low
  }

  datatype Program = Program(number: nat, pid: nat)

  /** The program map stream of each program of a program association section. */
  function ReadPrograms(entries: seq<byte>): seq<Program> {
    if |entries| < 4 then []
    else
      [Program(Word16(entries[0], entries[1]), Pid13(entries[2], entries[3]))] + ReadPrograms(entries[4..])
  }

  datatype StreamInfo = StreamInfo(streamType: byte, pid: nat)

  /** The streams of a program map section. */
  function ReadStreams(entries: seq<byte>): seq<StreamInfo> {
    if |entries| < 5 then []
    else
      var info := (entries[3] as int) % 16 * 256 + entries[4];
      [StreamInfo(entries[0], Pid13(entries[1], entries[2]))]
      + (if info + 5 <= |entries| then ReadStreams(entries[info + 5..]) else [])
  }

  // ----- What the reader finds ------------------------------------------------------------------

  lemma TableReads(head: seq<byte>, cc: nat, section: seq<byte>)
    requires |head| == 3 && cc < 16 && 12 <= |section| <= 22
    requires head[0] == 0x47 && 0x40 <= head[1] < 0x80
    requires section[1] == 0xb0 && section[2] as int == |section| + 1 && InForce(section, section[0])
    ensures var r := ReadPacket(TablePacket(head, cc, section));
      && r.Some? && r.value.pid == Pid13(head[1], head[2]) && r.value.unit && r.value.cc == cc
      && r.value.field == Some(Field(false, None))
      && ReadSection(r.value.payload, section[0]) == Some(section)
  {
    hide Crc.Divide, Crc.MessageBits, Crc.CrcBytes, Crc.Crc;
    var s, checked := TablePacket(head, cc, section), Checked(section);
    assert |checked| == |section| + 4 by { CheckedLength(section); }
    assert s[4..][1..|section| + 5] == checked;
    assert s[4..][0] == 0 && s[4..][2] == checked[1] == section[1] && s[4..][3] == checked[2] == section[2];
    assert checked[..|section|] == section;
    assert s[4..][|section| + 5..] == seq(PACKET_LEN - 9 - |section|, i => 0xff);
    assert InForce(checked, section[0]) by {
      assert forall i | 0 <= i < 8 :: checked[i] == section[i];
    }
    Crc.ResidueIsZero(section);
  }

  lemma CheckedLength(section: seq<byte>)
    ensures |Checked(section)| == |section| + 4
  {
  }

  /** Every program association packet is read back and names the stream of the program map. */
  lemma PatReads(cc: nat)
    requires cc < 16
    ensures var r := ReadPacket(PatPacket(cc));
      && r.Some? && r.value.pid == PAT_PID && r.value.unit && r.value.cc == cc
      && r.value.field == Some(Field(false, None))
      && ReadSection(r.value.payload, 0x00) == Some(PatHeader())
      && ReadPrograms(PatHeader()[8..]) == [Program(1, PMT_PID)]
  {
    hide ReadSection, TablePacket;
    TableReads([0x47, 0x40, 0x00], cc, PatHeader());
    assert PatHeader()[8..] == [0x00, 0x01, 0xf0, 0x01] && PatHeader()[8..][4..] == [];
  }

  /** Every program map packet is read back, on the stream the association names; it names the
      streams the muxer puts frames on, and the clock reference of the one that carries it. */
  lemma PmtReads(cc: nat, soundFormat: byte, hasVideo: bool)
    requires cc < 16
    ensures var r := ReadPacket(PmtPacket(cc, soundFormat, hasVideo));
      && r.Some? && r.value.pid == PMT_PID && r.value.unit && r.value.cc == cc
      && r.value.field == Some(Field(false, None))
      && var section := PmtHeader(hasVideo) + ProgInfo(soundFormat, hasVideo);
      && ReadSection(r.value.payload, 0x02) == Some(section) && Word16(section[3], section[4]) == 1
      && Pid13(section[8], section[9]) == (if hasVideo then VIDEO_PID else AUDIO_PID)
      && ReadStreams(section[12..])
         == (if hasVideo then [StreamInfo(0x1b, VIDEO_PID)] else [])
            + [StreamInfo(if soundFormat in {2, 14} then 0x04 else 0x0f, AUDIO_PID)]
  {
    hide ReadSection, TablePacket, AudioType, ReadStreams;
    var info := ProgInfo(soundFormat, hasVideo);
    var section := PmtHeader(hasVideo) + info;
    TableReads([0x47, 0x50, 0x01], cc, section);
    KnownType(soundFormat);
    assert section[12..] == info;
    StreamsRead(soundFormat, hasVideo);
  }

  lemma KnownType(soundFormat: byte)
    ensures AudioType(soundFormat) == if soundFormat in {2, 14} then 0x04 else 0x0f
  {
  }

  lemma {:induction false} StreamsRead(soundFormat: byte, hasVideo: bool)
    ensures ReadStreams(ProgInfo(soundFormat, hasVideo))
         == (if hasVideo then [StreamInfo(0x1b, VIDEO_PID)] else [])
            + [StreamInfo(AudioType(soundFormat), AUDIO_PID)]
    decreases hasVideo
  {
    hide AudioType;
    var info := ProgInfo(soundFormat, hasVideo);
    if hasVideo {
      assert info[5..] == ProgInfo(soundFormat, false);
      StreamsRead(soundFormat, false);
    } else {
      assert info[5..] == [];
    }
  }
}
