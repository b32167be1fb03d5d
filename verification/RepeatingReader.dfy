/** The password reader: an endless stream that repeats one line. */
module RepeatingReader {
  import opened Bytes

  function Start(line: bytes, off: nat): nat { if off >= |line| then 0 else off }

  /** The bytes one Read delivers into a buffer of the given size. */
  function Chunk(line: bytes, off: nat, size: nat): bytes {
    line[Start(line, off)..Start(line, off) + Min(size, |line| - Start(line, off))]
  }

  /** The bytes a sequence of Reads delivers, one after the other. */
  function Delivered(line: bytes, off: nat, sizes: seq<nat>): bytes
    decreases |sizes|
  {
    if sizes == [] then []
    else
      var c := Chunk(line, off, sizes[0]);
      c + Delivered(line, Start(line, off) + |c|, sizes[1..])
  }

  lemma ModShift(x: nat, n: nat)
    requires n > 0
    ensures (n + x) % n == x % n
  {
    assert n + x == (x / n + 1) * n + x % n;
    ModUnique(n + x, n, x / n + 1, x % n);
  }

  lemma {:induction false} DeliveredCycles(line: bytes, off: nat, sizes: seq<nat>, k: nat)
    requires line != [] && off <= |line| && k < |Delivered(line, off, sizes)|
    ensures Delivered(line, off, sizes)[k] == line[(off + k) % |line|]
    decreases |sizes|
  {
    var n, s, c := |line|, Start(line, off), Chunk(line, off, sizes[0]);
    if off == n {
      ModShift(k, n);
    }
    assert (off + k) % n == (s + k) % n;
    if k < |c| {
      ModUnique(s + k, n, 0, s + k);
    } else {
      DeliveredCycles(line, s + |c|, sizes[1..], k - |c|);
    }
  }

  /** Over any sequence of buffer sizes, the k-th byte delivered is line[k mod |line|]. */
  lemma StreamRepeatsTheLine(line: bytes, sizes: seq<nat>, k: nat)
    requires line != [] && k < |Delivered(line, 0, sizes)|
    ensures Delivered(line, 0, sizes)[k] == line[k % |line|]
  {
    DeliveredCycles(line, 0, sizes, k);
  }

  /** The built-in copy: as many bytes as both have. */
  method Copy(p: array<byte>, src: bytes) returns (n: nat)
    modifies p
    ensures n == Min(p.Length, |src|) && p[..n] == src[..n] && p[n..] == old(p[n..])
  {
    n := 0;
    while n < p.Length && n < |src|
      invariant n <= p.Length && n <= |src|
      invariant forall i :: 0 <= i < n ==> p[i] == src[i]
      invariant forall i :: n <= i < p.Length ==> p[i] == old(p[i])
    {
      p[n] := src[n];
      n := n + 1;
    }
  }

  class RepeatingReader {
    const line: bytes
    var off: nat

    constructor (line: bytes)
      ensures this.line == line && off == 0
    {
      this.line, off := line, 0;
    }

    /** Fills the front of p with the next chunk, up to the end of p or of the line; with a line to repeat, a non-empty buffer
        always receives something. */
    method Read(p: array<byte>) returns (n: nat)
      modifies this, p
      ensures n <= p.Length && p[..n] == Chunk(line, old(off), p.Length) && p[n..] == old(p[n..])
      ensures off == Start(line, old(off)) + n
      ensures line != [] && p.Length > 0 ==> n > 0
      ensures n == p.Length || off == |line|
    {
      if off >= |line| {
        off := 0;
      }
      var start := off;
      n := Copy(p, line[start..]);
      off := start + n;
    }
  }
}
