/** Packets as the servers hand them around. */
module Av {
  import opened Bytes

  const SOUND_AAC: byte := 10
  const AAC_SEQHDR: byte := 0

  datatype AudioHeader = AudioHeader(soundFormat: byte, aacPacketType: byte)

  datatype VideoHeader = VideoHeader(isSeq: bool, isKeyFrame: bool)

  datatype Kind = Audio(ah: Option<AudioHeader>) | Video(vh: Option<VideoHeader>) | Metadata

  datatype Packet = Packet(kind: Kind, timeStamp: uint32, data: seq<byte>)
}
