/** The buffered stream of a connection: reads and writes of whole integers and byte runs,
    with a read error that sticks. `Source` and its functions say what each read does; the
    class is the stateful stream, proved against them. */
module Wire {
  import opened Bytes

  datatype IoError = EOF | UnexpectedEOF

  /** What is left to read, and the first read error met, if any. */
  datatype Source = Source(input: seq<byte>, err: Option<IoError>)

  function TakeBytes(s: Source, n: nat): (r: (Option<seq<byte>>, Source))
    ensures r.0.Some? ==> |r.0.value| == n
    ensures |r.1.input| <= |s.input|
  {
    if s.err.Some? then (None, s)
    else if |s.input| < n then (None, Source([], Some(EOF)))
    else (Some(s.input[..n]), s.(input := s.input[n..]))
  }

  function TakeBE(s: Source, n: nat): (r: (uint32, Source))
    requires n <= 4
    ensures |r.1.input| <= |s.input|
    ensures r.0 < Pow256(n)
  {
    Pow256Values();
    var (b, s') := TakeBytes(s, n);
    if b.Some? then Pow256Small(n); (FromBE(b.value), s') else (0, s')
  }

  function TakeLE(s: Source, n: nat): (r: (uint32, Source))
    requires n <= 4
    ensures |r.1.input| <= |s.input|
    ensures r.0 < Pow256(n)
  {
    Pow256Values();
    var (b, s') := TakeBytes(s, n);
    if b.Some? then Pow256Small(n); (FromLE(b.value), s') else (0, s')
  }

  lemma Pow256Small(n: nat)
    requires n <= 4
    ensures Pow256(n) <= 0x1_0000_0000
  {
    Pow256Values();
    assert Pow256(0) == 1;
  }

  /** Reading exactly n bytes into a buffer: either all of them, or an error that sticks. A
      partial run of bytes counts as consumed. */
  function TakeRun(s: Source, n: nat): (r: (Option<seq<byte>>, Source))
    ensures r.0.Some? ==> |r.0.value| == n && |r.1.input| + n == |s.input|
    ensures r.0.None? ==> r.1.err.Some?
    ensures |r.1.input| <= |s.input|
  {
    if s.err.Some? then (None, s)
    else if |s.input| < n then
      (None, Source([], Some(if |s.input| == 0 then EOF else UnexpectedEOF)))
    else (Some(s.input[..n]), s.(input := s.input[n..]))
  }

  /** An integer followed by anything is read back and the rest is left alone. */
  lemma TakeBEOfBE(v: uint32, n: nat, rest: seq<byte>)
    requires n <= 4 && v < Pow256(n)
    ensures TakeBE(Source(BE(v, n) + rest, None), n) == (v, Source(rest, None))
  {
    var all := BE(v, n) + rest;
    assert all[..n] == BE(v, n) && all[n..] == rest;
    FromBEInvertsBE(v, n);
  }

  /** With too little input an integer is zero and a run of bytes is none; the input is used up, the error
      says whether there was any, and from then on every read ends in that error. */
  lemma ShortInput(s: Source, n: nat)
    requires 0 < n <= 4 && (s.err.Some? || |s.input| < n)
    ensures s.err.None? ==> TakeBE(s, n) == TakeLE(s, n) == (0, Source([], Some(EOF)))
    ensures s.err.None? ==> TakeRun(s, n) == (None, Source([], Some(if s.input == [] then EOF else UnexpectedEOF)))
    ensures s.err.Some? ==> TakeBE(s, n) == TakeLE(s, n) == (0, s) && TakeRun(s, n) == (None, s)
  {
  }

  lemma TakeLEOfLE(v: uint32, n: nat, rest: seq<byte>)
    requires n <= 4 && v < Pow256(n)
    ensures TakeLE(Source(LE(v, n) + rest, None), n) == (v, Source(rest, None))
  {
    var all := LE(v, n) + rest;
    assert all[..n] == LE(v, n) && all[n..] == rest;
    FromLEInvertsLE(v, n);
  }

  class ReadWriter {
    var input: seq<byte>
    var readError: Option<IoError>
    var output: seq<byte>

    constructor (input: seq<byte>)
      ensures this.input == input && readError == None && output == []
    {
      this.input := input;
      readError := None;
      output := [];
    }

    ghost function Unread(): Source
      reads this`input, this`readError
    {
      Source(input, readError)
    }

    method ReadByte() returns (b: Option<byte>)
      modifies this`input
      ensures old(input) == [] ==> b == None && input == []
      ensures old(input) != [] ==> b == Some(old(input)[0]) && input == old(input)[1..]
    {
      if input == [] {
        b := None;
      } else {
        b := Some(input[0]);
        input := input[1..];
      }
    }

    method ReadUintBE(n: nat) returns (v: uint32)
      requires n <= 4
      modifies this`input, this`readError
      ensures (v, Unread()) == TakeBE(old(Unread()), n)
    {
      if readError.Some? {
        return 0;
      }
      ghost var before := input;
      v := 0;
      for i := 0 to n
        invariant i <= |before| && input == before[i..] && readError == None
        invariant v == FromBE(before[..i])
      {
        var b := ReadByte();
        if b.None? {
          readError := Some(EOF);
          return 0;
        }
        assert before[..i + 1][..i] == before[..i];
        Pow256Small(i + 1);
        v := (v * 256 + b.value) % 0x1_0000_0000;
      }
    }

    method ReadUintLE(n: nat) returns (v: uint32)
      requires n <= 4
      modifies this`input, this`readError
      ensures (v, Unread()) == TakeLE(old(Unread()), n)
    {
      if readError.Some? {
        return 0;
      }
      hide FromLE, Pow256;
      OneByte(0);
      ghost var before := input;
      assert before[..0] == [];
      v := 0;
      for i := 0 to n
        invariant i <= |before| && input == before[i..] && readError == None
        invariant v == FromLE(before[..i])
      {
        var b := ReadByte();
        if b.None? {
          readError := Some(EOF);
          return 0;
        }
        OneMoreByte(before, i);
        v := (v + b.value * Pow256(i)) % 0x1_0000_0000;
      }
    }

    /** Fills `len` bytes of `buf` from `off`; on a short stream what there is lands in the buffer. */
    method Read(buf: array<byte>, off: nat, len: nat) returns (ok: bool)
      requires off + len <= buf.Length
      modifies this`input, this`readError, buf
      ensures var (run, src) := TakeRun(old(Unread()), len);
              && Unread() == src && ok == run.Some?
              && (ok ==> buf[off..off + len] == run.value)
      ensures forall i :: 0 <= i < buf.Length && !(off <= i < off + len) ==> buf[i] == old(buf[i])
    {
      if readError.Some? {
        return false;
      }
      var n := Min(len, |input|);
      forall i | 0 <= i < n {
        buf[off + i] := input[i];
      }
      ok := n == len;
      if !ok {
        readError := Some(if n == 0 then EOF else UnexpectedEOF);
      }
      assert buf[off..off + n] == input[..n];
      input := input[n..];
    }

    /** Looks ahead n bytes without consuming them; unlike the reads it ignores the sticky error. */
    method Peek(n: nat) returns (b: Option<seq<byte>>)
      ensures b == if |input| < n then None else Some(input[..n])
    {
      b := if |input| < n then None else Some(input[..n]);
    }

    method Discard(n: nat)
      requires n <= |input|
      modifies this`input
      ensures input == old(input)[n..]
    {
      input := input[n..];
    }

    method WriteUintBE(v: uint32, n: nat)
      modifies this`output
      ensures output == old(output) + BE(v, n)
    {
      for i := 0 to n
        invariant output == old(output) + BE(v, n)[..i]
      {
        BEIndex(v, n, i);
        output := output + [(v / Pow256(n - 1 - i)) % 256];
      }
    }

    method WriteUintLE(v: uint32, n: nat)
      modifies this`output
      ensures output == old(output) + LE(v, n)
    {
      var w: nat := v;
      for i := 0 to n
        invariant output + LE(w, n - i) == old(output) + LE(v, n)
      {
        output := output + [w % 256];
        w := w / 256;
      }
    }

    method Write(data: seq<byte>)
      modifies this`output
      ensures output == old(output) + data
    {
      output := output + data;
    }
  }

  lemma {:induction false} FromLESnoc(s: seq<byte>, b: byte)
    ensures FromLE(s + [b]) == FromLE(s) + b * Pow256(|s|)
  {
    hide FromLE, Pow256;
    if s == [] {
      OneByte(b);
      assert s + [b] == [b];
    } else {
      FromLESnoc(s[1..], b);
      FirstByte(s);
      FirstByte(s + [b]);
      assert (s + [b])[1..] == s[1..] + [b];
      Scaled(FromLE(s[1..]), b, Pow256(|s| - 1));
    }
  }

  /** The shifted byte is added without overflow. */
  lemma OneMoreByte(s: seq<byte>, i: nat)
    requires i < |s| && i < 4
    ensures (FromLE(s[..i]) + s[i] * Pow256(i)) % 0x1_0000_0000 == FromLE(s[..i + 1])
  {
    hide FromLE, Pow256;
    assert s[..i + 1] == s[..i] + [s[i]];
    FromLESnoc(s[..i], s[i]);
    Pow256Small(i + 1);
  }

  lemma OneByte(b: byte)
    ensures FromLE([b]) == b && FromLE([]) == 0 && Pow256(0) == 1
  {
    assert [b][1..] == [];
  }

  lemma FirstByte(s: seq<byte>)
    requires s != []
    ensures FromLE(s) == s[0] + 256 * FromLE(s[1..]) && Pow256(|s|) == 256 * Pow256(|s| - 1)
  {
  }

  lemma Scaled(x: int, b: int, p: int)
    ensures 256 * (x + b * p) == 256 * x + b * (256 * p)
  {
  }
}
