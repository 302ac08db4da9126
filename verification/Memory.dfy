/** Blocks of memory as the bit array gets them from its allocator, and copying inside a block. */
module Memory {
  import opened Bytes

  /** A block with at least `n` usable bytes, all zero; the allocator may give more than asked for. */
  method AllocPtr(n: nat) returns (p: array<byte>)
    ensures fresh(p) && p.Length >= n && forall i :: 0 <= i < p.Length ==> p[i] == 0
  {
    var usable :| usable >= n;
    p := new byte[usable](_ => 0);
  }

  /** What fits of the old contents is kept, and what the block gains is zero. */
  method ReAllocPtr(p: array<byte>, n: nat) returns (q: array<byte>)
    ensures fresh(q) && q.Length >= n
    ensures forall i :: 0 <= i < q.Length ==> q[i] == if i < p.Length then p[i] else 0
  {
    var usable :| usable >= n;
    q := new byte[usable](_ => 0);
    forall i | 0 <= i < q.Length && i < p.Length {
      q[i] := p[i];
    }
  }

  /** The bytes after `n` of them were copied from `from` to `to`. */
  function Moved(m: seq<byte>, to: nat, from: nat, n: nat): (r: seq<byte>)
    requires to + n <= |m| && from + n <= |m|
    ensures |r| == |m|
  {
    m[..to] + m[from..from + n] + m[to + n..]
  }

  /** The bytes after `n` of them, from `at` on, were cleared. */
  function Zeroed(m: seq<byte>, at: nat, n: nat): (r: seq<byte>)
    requires at + n <= |m|
    ensures |r| == |m|
  {
    m[..at] + Zeros(n) + m[at + n..]
  }

  method MemMove(a: array<byte>, to: nat, from: nat, n: nat)
    requires to + n <= a.Length && from + n <= a.Length
    modifies a
    ensures a[..] == Moved(old(a[..]), to, from, n)
  {
    forall i | to <= i < to + n {
      a[i] := a[from + (i - to)];
    }
  }

  method MemZero(a: array<byte>, at: nat, n: nat)
    requires at + n <= a.Length
    modifies a
    ensures a[..] == Zeroed(old(a[..]), at, n)
  {
    forall i | at <= i < at + n {
      a[i] := 0;
    }
  }
}
