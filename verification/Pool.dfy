/** The bump allocator behind received messages: slices of a large buffer, replaced by a new one
    when it is used up and never handed out twice. */
module Pools {
  import opened Bytes
  import opened ChunkFormat

  /** A slice of a byte array, or none. */
  datatype Slice = Nil | Slice(buf: array<byte>, off: nat, len: nat)

  ghost predicate Fits(s: Slice) {
    s.Slice? ==> s.off + s.len <= s.buf.Length
  }

  ghost function Contents(s: Slice): seq<byte>
    requires Fits(s)
    reads if s.Slice? then {s.buf} else {}
  {
    match s
    case Nil => []
    case Slice(buf, off, len) => buf[off..off + len]
  }

  /** The two slices share no byte. */
  ghost predicate Apart(a: Slice, b: Slice) {
    a.Slice? && b.Slice? && a.buf == b.buf ==> a.off + a.len <= b.off || b.off + b.len <= a.off
  }

  class Pool {
    var pos: nat
    var buf: array<byte>
    ghost var bufs: set<array<byte>>
    ghost var handed: seq<Slice>

    /** All slices ever handed out lie within their buffers, below the bump position of the
        current one, and no two of them share a byte. */
    ghost predicate Valid()
      reads this
    {
      && buf in bufs && pos <= buf.Length == MAX_POOL_SIZE
      && (forall i :: 0 <= i < |handed| ==>
            && handed[i].Slice? && handed[i].buf in bufs && Fits(handed[i])
            && (handed[i].buf == buf ==> handed[i].off + handed[i].len <= pos))
      && (forall i, j :: 0 <= i < j < |handed| ==> Apart(handed[i], handed[j]))
    }

    constructor ()
      ensures Valid() && handed == [] && fresh(bufs)
    {
      pos := 0;
      var b := new byte[MAX_POOL_SIZE](_ => 0);
      buf := b;
      bufs := {b};
      handed := [];
    }

    /** The runtime panics (`ok` is false) exactly when more than a whole buffer is asked for. */
    method Get(size: nat) returns (ok: bool, b: Slice)
      requires Valid()
      modifies this
      ensures Valid()
      ensures forall a :: a in bufs ==> a in old(bufs) || fresh(a)
      ensures old(bufs) <= bufs
      ensures ok == (size <= MAX_POOL_SIZE)
      ensures ok ==> b.Slice? && b.len == size && handed == old(handed) + [b]
      ensures !ok ==> handed == old(handed)
      ensures KeepsOthers(old(Datas(this)), Datas(this), |old(handed)|)
    {
      if MAX_POOL_SIZE - pos < size {
        pos := 0;
        buf := new byte[MAX_POOL_SIZE](_ => 0);
        bufs := bufs + {buf};
      }
      b := Nil;
      ok := pos + size <= buf.Length;
      if ok {
        b := Slice(buf, pos, size);
        pos := pos + size;
        handed := handed + [b];
      }
    }
  }

  /** What the slices handed out hold now, in the order they were handed out. */
  ghost function Datas(pool: Pool): (datas: seq<seq<byte>>)
    requires pool.Valid()
    reads pool, pool.bufs
    ensures |datas| == |pool.handed|
    ensures forall i :: 0 <= i < |datas| ==> datas[i] == Contents(pool.handed[i])
  {
    DatasUpTo(pool, |pool.handed|)
  }

  ghost function DatasUpTo(pool: Pool, n: nat): (datas: seq<seq<byte>>)
    requires pool.Valid() && n <= |pool.handed|
    reads pool, pool.bufs
    ensures |datas| == n
    ensures forall i :: 0 <= i < n ==> datas[i] == Contents(pool.handed[i])
  {
    if n == 0 then [] else DatasUpTo(pool, n - 1) + [Contents(pool.handed[n - 1])]
  }

  /** What was there before is still there, apart from element x. */
  ghost predicate KeepsOthers(a: seq<seq<byte>>, b: seq<seq<byte>>, x: nat) {
    |a| <= |b| && forall k :: 0 <= k < |a| && k != x ==> b[k] == a[k]
  }

  lemma KeptApart(a: seq<seq<byte>>, b: seq<seq<byte>>, x: nat)
    requires KeepsOthers(a, b, x)
    ensures |a| <= |b| && forall k :: 0 <= k < |a| && k != x ==> b[k] == a[k]
  {
  }

  /** First nothing is changed, then at most element x. */
  lemma KeepsBoth(a: seq<seq<byte>>, b: seq<seq<byte>>, c: seq<seq<byte>>, x: nat)
    requires KeepsOthers(a, b, |a|) && KeepsOthers(b, c, x)
    ensures KeepsOthers(a, c, x)
  {
  }

  lemma KeepsAll(a: seq<seq<byte>>, x: nat)
    ensures KeepsOthers(a, a, x)
  {
  }

  lemma KeepsMore(a: seq<seq<byte>>, b: seq<seq<byte>>, x: nat)
    requires KeepsOthers(a, b, |a|)
    ensures KeepsOthers(a, b, x)
  {
  }
}
