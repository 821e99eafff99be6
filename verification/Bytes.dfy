/** Bytes, 32-bit words and the big- and little-endian forms every wire format here uses. */
module Bytes {

  type byte = x: int | 0 <= x < 0x100
  type uint32 = x: int | 0 <= x < 0x1_0000_0000

  datatype Option<+T> = None | Some(value: T)

  function Min(a: int, b: int): int {
    if a <= b then a else b
  }

  /** Concatenation is associative. */
  lemma Regroup<T>(a: seq<T>, b: seq<T>, c: seq<T>)
    ensures a + (b + c) == (a + b) + c
  {
  }

  /** A concatenation falls apart where it was joined. */
  lemma Unjoin<T>(a: seq<T>, b: seq<T>)
    ensures (a + b)[..|a|] == a && (a + b)[|a|..] == b
  {
  }

  /** 256 to the power n: the number of values n bytes can hold. */
  function Pow256(n: nat): (p: nat)
    ensures p > 0
  {
    if n == 0 then 1 else 256 * Pow256(n - 1)
  }

  /** The low n bytes of v, most significant first. */
  function BE(v: nat, n: nat): (s: seq<byte>)
    ensures |s| == n
  {
    if n == 0 then [] else BE(v / 256, n - 1) + [v % 256]
  }

  /** The low n bytes of v, least significant first. */
  function LE(v: nat, n: nat): (s: seq<byte>)
    ensures |s| == n
  {
    if n == 0 then [] else [v % 256] + LE(v / 256, n - 1)
  }

  function FromBE(s: seq<byte>): (v: nat)
    ensures v < Pow256(|s|)
  {
    if |s| == 0 then 0 else 256 * FromBE(s[..|s| - 1]) + s[|s| - 1]
  }

  function FromLE(s: seq<byte>): (v: nat)
    ensures v < Pow256(|s|)
  {
    if |s| == 0 then 0 else s[0] + 256 * FromLE(s[1..])
  }

  lemma {:induction false} FromBEInvertsBE(v: nat, n: nat)
    ensures FromBE(BE(v, n)) == v % Pow256(n)
    ensures v < Pow256(n) ==> FromBE(BE(v, n)) == v
  {
    hide BE, FromBE, Pow256;
    if n == 0 {
      NoBytes(v);
    } else {
      FromBEInvertsBE(v / 256, n - 1);
      BESplits(v, n);
      FromBEAppends(BE(v / 256, n - 1), v % 256);
      SplitMod(v, Pow256(n - 1));
    }
  }

  lemma NoBytes(v: nat)
    ensures FromBE(BE(v, 0)) == 0 == v % Pow256(0) && Pow256(0) == 1
  {
  }

  lemma BESplits(v: nat, n: nat)
    requires n > 0
    ensures BE(v, n) == BE(v / 256, n - 1) + [v % 256] && Pow256(n) == 256 * Pow256(n - 1)
  {
  }

  lemma FromBEAppends(s: seq<byte>, b: byte)
    ensures FromBE(s + [b]) == 256 * FromBE(s) + b
  {
    assert (s + [b])[..|s|] == s;
  }

  lemma {:induction false} BEInvertsFromBE(s: seq<byte>)
    ensures BE(FromBE(s), |s|) == s
  {
    if s != [] {
      var init, last := s[..|s| - 1], s[|s| - 1];
      BEInvertsFromBE(init);
      assert s == init + [last];
      Digits(FromBE(init), last);
      assert FromBE(s) == 256 * FromBE(init) + last;
      hide FromBE;
    }
  }

  lemma Digits(v: nat, b: byte)
    ensures (256 * v + b) / 256 == v && (256 * v + b) % 256 == b
  {
  }

  lemma {:induction false} FromLEInvertsLE(v: nat, n: nat)
    ensures FromLE(LE(v, n)) == v % Pow256(n)
    ensures v < Pow256(n) ==> FromLE(LE(v, n)) == v
  {
    if n == 0 {
    } else {
      FromLEInvertsLE(v / 256, n - 1);
      assert LE(v, n)[1..] == LE(v / 256, n - 1);
      SplitMod(v, Pow256(n - 1));
    }
  }

  /** Dividing by 256 first and by p next is dividing by 256 * p. */
  lemma SplitMod(v: nat, p: nat)
    requires p > 0
    ensures 256 * ((v / 256) % p) + v % 256 == v % (256 * p)
    ensures v < 256 * p ==> v / 256 < p
  {
    var q, r := (v / 256) / p, (v / 256) % p;
    assert v / 256 == p * q + r;
    assert v == (256 * p) * q + (256 * r + v % 256);
    assert 0 <= 256 * r + v % 256 < 256 * p;
    UniqueRemainder(v, 256 * p, q, 256 * r + v % 256);
  }

  lemma UniqueRemainder(v: nat, d: nat, q: nat, r: nat)
    requires d > 0 && r < d && v == d * q + r
    ensures v % d == r && v / d == q
  {
    MultipleApart(d, q - v / d);
  }

  /** A non-zero multiple of d is at least d away from zero. */
  lemma MultipleApart(d: nat, k: int)
    ensures k >= 1 ==> d * k >= d
    ensures k <= -1 ==> d * k <= 0 - d
  {
    if k >= 1 {
      assert d * k == d + d * (k - 1);
    } else if k <= -1 {
      assert d * k == d * (k + 1) - d;
    }
  }

  lemma Pow256Values()
    ensures Pow256(1) == 0x100 && Pow256(2) == 0x1_0000 && Pow256(3) == 0x100_0000
    ensures Pow256(4) == 0x1_0000_0000
  {
    assert Pow256(0) == 1;
    assert Pow256(1) == 256 * Pow256(0);
    assert Pow256(2) == 256 * Pow256(1);
    assert Pow256(3) == 256 * Pow256(2);
    assert Pow256(4) == 256 * Pow256(3);
  }

  /** Byte i of the big-endian form is the shift by the bytes after it. */
  lemma {:induction false} BEIndex(v: nat, n: nat, i: nat)
    requires i < n
    ensures BE(v, n)[i] == (v / Pow256(n - 1 - i)) % 256
  {
    if i < n - 1 {
      BEIndex(v / 256, n - 1, i);
      ShiftShift(v, Pow256(n - 2 - i));
    }
  }

  lemma ShiftShift(v: nat, p: nat)
    requires p > 0
    ensures (v / 256) / p == v / (256 * p)
  {
    var q, r := (v / 256) / p, (v / 256) % p;
    assert v / 256 == p * q + r;
    assert v == (256 * p) * q + (256 * r + v % 256);
    UniqueRemainder(v, 256 * p, q, 256 * r + v % 256);
  }
}
