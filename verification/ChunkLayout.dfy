/** The bytes of chunks one by one, as sections 5.3.1.1 to 5.3.1.3 of the RTMP specification lay them
    out, and what a connection writes of a message it cannot send. */
module ChunkLayout {
  import opened Bytes
  import opened ByteLayout
  import opened Wire
  import opened ChunkFormat

  /** Form and id in one, two or three bytes. */
  function Basic(form: nat, csid: nat): seq<byte>
    requires form < 4
  {
    if csid < 64 then [64 * form + csid]
    else if csid < 320 then [64 * form, (csid - 64) % 0x100]
    else [64 * form + 1] + Backwards(Two(csid - 64))
  }

  function Late(timestamp: nat): seq<byte> {
    if timestamp >= 16777215 then Four(timestamp) else []
  }

  /** A full header: the time in three bytes or behind them, length, type, and the stream id with its
      least significant byte first. */
  function Full(m: Message): seq<byte> {
    Basic(0, m.csid) + Three(if m.timestamp >= 16777215 then 16777215 else m.timestamp) + Three(|m.data|)
    + [m.typeID % 0x100] + Backwards(Four(m.streamID)) + Late(m.timestamp)
  }

  lemma BasicIs(form: uint32, csid: uint32)
    requires form < 4 && csid <= 65599
    ensures BasicHeader(form, csid) == Basic(form, csid)
  {
    hide BE, LE, Two, Backwards;
    if csid < 64 {
      OneIs(form * 64 + csid);
    } else if csid < 320 {
      OneIs(form * 64);
      OneIs(csid - 64);
    } else {
      OneIs(form * 64 + 1);
      TwoIs(csid - 64);
    }
  }

  /** The first chunk of a message begins with a full header, every other one with its id and, late in
      a stream, its time. */
  lemma HeadersLaidOut(m: Message)
    requires m.csid <= 65599
    ensures FirstHeader(m) == Full(m)
    ensures NextHeader(m) == Basic(3, m.csid) + Late(m.timestamp)
  {
    hide BasicHeader, Basic, BE, LE, Three, Four, Backwards;
    BasicIs(0, m.csid);
    BasicIs(3, m.csid);
    ThreeIs(Clamp(m.timestamp));
    ThreeIs(|m.data|);
    OneIs(m.typeID);
    FourIs(m.streamID);
    FourIs(m.timestamp);
  }

  /** The two headers between, which a caller may ask for: of the first kind without stream id, of the
      second with the time only. */
  lemma ShortHeadersLaidOut(m: Message)
    requires m.csid <= 65599
    ensures var time := Three(if m.timestamp >= 16777215 then 16777215 else m.timestamp);
      && Header(m, 1) == Basic(1, m.csid) + time + Three(|m.data|) + [m.typeID % 0x100] + Late(m.timestamp)
      && Header(m, 2) == Basic(2, m.csid) + time + Late(m.timestamp)
  {
    hide BasicHeader, Basic, BE, LE, Three, Four, Backwards;
    BasicIs(1, m.csid);
    BasicIs(2, m.csid);
    ThreeIs(Clamp(m.timestamp));
    ThreeIs(|m.data|);
    OneIs(m.typeID);
    FourIs(m.timestamp);
  }

  /** A write panics exactly on a chunk size of zero, be it in force or announced by the message, and on
      a size change without a number; it is refused exactly above 24 bits of length, and then leaves the
      id and the time behind. */
  lemma WritesThatFail(conn: ConnState, m: Message)
    requires m.csid <= 65599
    ensures WriteMessage(conn, m).WritePanics? <==>
              if m.typeID == 1 then |m.data| < 4 || Four(0) == m.data[..4] else conn.chunkSize == 0
    ensures WriteMessage(conn, m).WriteFailed? <==> !WriteMessage(conn, m).WritePanics? && |m.data| > 16777215
    ensures WriteMessage(conn, m).WriteFailed? ==>
              var csid := if m.typeID == 8 then 4 else if m.typeID in {9, 15, 18} then 6 else m.csid;
              WriteMessage(conn, m).conn.output == conn.output + Basic(0, csid)
                + Three(if m.timestamp >= 16777215 then 16777215 else m.timestamp)
  {
    hide BasicHeader, Basic, BE, LE, Three, Backwards, ChunksFrom, FromBE;
    BasicIs(0, FinalCsid(m.csid, m.typeID));
    ThreeIs(Clamp(m.timestamp));
    if |m.data| >= 4 {
      ZeroWord(m.data[..4]);
    }
  }

  lemma ZeroWord(s: seq<byte>)
    requires |s| == 4
    ensures FromBE(s) == 0 <==> s == Four(0)
  {
    hide BE, FromBE;
    FourIs(0);
    BEInvertsFromBE(s);
    Pow256Values();
    FromBEInvertsBE(0, 4);
  }
}
