/** Numbers byte by byte. */
module ByteLayout {
  import opened Bytes

  /** The number in two, three or four bytes, most significant first. */
  function Two(v: nat): seq<byte> {
    [v / 0x100 % 0x100, v % 0x100]
  }

  function Three(v: nat): seq<byte> {
    [v / 0x1_0000 % 0x100, v / 0x100 % 0x100, v % 0x100]
  }

  function Four(v: nat): seq<byte> {
    [v / 0x100_0000 % 0x100, v / 0x1_0000 % 0x100, v / 0x100 % 0x100, v % 0x100]
  }

  function Backwards(s: seq<byte>): seq<byte> {
    seq(|s|, i requires 0 <= i < |s| => s[|s| - 1 - i])
  }

  lemma OneIs(v: nat)
    ensures BE(v, 1) == [v % 0x100] == LE(v, 1)
  {
    assert BE(v / 256, 0) == [] && LE(v / 256, 0) == [];
  }

  lemma TwoIs(v: nat)
    ensures BE(v, 2) == Two(v) && LE(v, 2) == Backwards(Two(v))
  {
    OneIs(v / 256);
    assert BE(v, 2) == BE(v / 256, 1) + [v % 256];
    assert LE(v, 2) == [v % 256] + LE(v / 256, 1);
  }

  lemma ThreeIs(v: nat)
    ensures BE(v, 3) == Three(v) && LE(v, 3) == Backwards(Three(v))
  {
    hide BE, LE;
    TwoIs(v / 256);
    LastByte(v, 3);
  }

  lemma LastByte(v: nat, n: nat)
    requires n > 0
    ensures BE(v, n) == BE(v / 256, n - 1) + [v % 256] && LE(v, n) == [v % 256] + LE(v / 256, n - 1)
  {
  }

  lemma FourIs(v: nat)
    ensures BE(v, 4) == Four(v) && LE(v, 4) == Backwards(Four(v))
  {
    hide BE, LE;
    ThreeIs(v / 256);
    LastByte(v, 4);
  }
}
