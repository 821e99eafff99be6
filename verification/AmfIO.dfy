/** How both codecs read and write bytes, and how reading can end. */
module AmfIO {
  import opened Bytes
  import opened Buffers

  type Float64 = s: seq<byte> | |s| == 8 witness [0, 0, 0, 0, 0, 0, 0, 0]

  /** Eof is the plain end-of-input error; SwitchToAmf3 hands the rest to the other decoder; Panic
      is an index beyond a table; NotModelled stands for a form that is not part of this model. */
  datatype Error = Eof | Bad | SwitchToAmf3 | Panic | NotModelled

  datatype Outcome<+T> = Done(value: T) | Failed(error: Error)

  /** An outcome and the bytes that are left unread. */
  datatype Result<+T> = Result(out: Outcome<T>, rest: seq<byte>)

  function Take(s: seq<byte>, n: nat): (r: Result<seq<byte>>)
    ensures |r.rest| <= |s| && (r.out.Done? ==> |r.out.value| == n && |r.rest| == |s| - n)
  {
    if |s| >= n then Result(Done(s[..n]), s[n..])
    else Result(Failed(if s == [] then Eof else Bad), [])
  }

  /** The plain end of input in a part is reported as a new error of the whole. */
  function Wrap(error: Error): Error {
    if error == Eof then Bad else error
  }

  /** One read; less than asked for is an error. */
  method ReadBytes(r: Buffer, n: nat) returns (out: Outcome<seq<byte>>)
    modifies r
    ensures Result(out, r.data) == Take(old(r.data), n)
  {
    var s, eof := r.Read(n);
    if eof {
      return Failed(Eof);
    }
    out := if |s| != n then Failed(Bad) else Done(s);
  }

  method ReadByte(r: Buffer) returns (out: Outcome<byte>)
    modifies r
    ensures if old(r.data) == [] then out == Failed(Eof) && r.data == []
            else out == Done(old(r.data)[0]) && r.data == old(r.data)[1..]
  {
    var s := ReadBytes(r, 1);
    out := if s.Failed? then Failed(s.error) else Done(s.value[0]);
  }

  /** Reads on until n bytes are there or none are left. */
  method ReadFull(r: Buffer, n: nat) returns (out: Outcome<seq<byte>>)
    requires n > 0
    modifies r
    ensures Result(out, r.data) == Take(old(r.data), n)
  {
    var buf := [];
    while |buf| < n
      invariant |buf| <= n && old(r.data) == buf + r.data
      decreases n - |buf|
    {
      var s, eof := r.Read(n - |buf|);
      if eof {
        return Failed(if buf == [] then Eof else Bad);
      }
      buf := buf + s;
    }
    out := Done(buf);
  }

  method AssertMarker(r: Buffer, marker: byte) returns (ok: bool)
    modifies r
    ensures ok == (old(r.data) != [] && old(r.data)[0] == marker)
    ensures r.data == old(r.data)[Min(1, |old(r.data)|)..]
  {
    var m := ReadByte(r);
    ok := m.Done? && m.value == marker;
  }

  predicate Extends(a: seq<byte>, b: seq<byte>) {
    |a| <= |b| && b[..|a|] == a
  }

  lemma ExtendsFurther(a: seq<byte>, b: seq<byte>, c: seq<byte>)
    requires Extends(a + b, c)
    ensures Extends(a, c)
  {
    assert a == (a + b)[..|a|] == c[..|a|];
  }

  function Marker(encodeMarker: bool, marker: byte): seq<byte> {
    if encodeMarker then [marker] else []
  }

  /** Writes a marker where one is wanted, and the bytes behind it. */
  method WriteMarked(w: Buffer, encodeMarker: bool, marker: byte, s: seq<byte>) returns (n: nat)
    modifies w
    ensures w.data == old(w.data) + (Marker(encodeMarker, marker) + s)
    ensures n == |Marker(encodeMarker, marker) + s|
  {
    n := 0;
    if encodeMarker {
      w.Write([marker]);
      n := n + 1;
    }
    w.Write(s);
    n := n + |s|;
    Regroup(old(w.data), Marker(encodeMarker, marker), s);
  }
}
