/**
 * The byte streams the CRL updater reads from and writes to, after Go's io
 * conventions. A Go slice p[lo:hi] of a caller's buffer is an array with the
 * two bounds; NoErr stands for a nil error.
 */
module Streams {

  /** An octet. */
  newtype byte = b: int | 0 <= b < 256

  function Min(a: int, b: int): int { if a <= b then a else b }
  function Max(a: int, b: int): int { if a >= b then a else b }

  /** What a Read call reports besides its byte count. */
  datatype ReadErr =
    | NoErr          // nil
    | Eof            // io.EOF: the stream ended cleanly
    | UnexpectedEof  // io.ErrUnexpectedEOF from io.ReadFull
    | Transport      // the connection failed or the client timeout fired mid-body
    | TooLarge       // a size limit was reached

  /**
   * A byte stream such as an HTTP response body: the bytes the server sends,
   * ending in io.EOF or, when `broken`, in a transport error. A Read returns
   * as many of the remaining bytes as fit. The end is reported by the Read
   * that finds nothing left or, when `endWithData`, already by the Read that
   * returns the last bytes; io.Reader allows both.
   */
  class BodyReader {
    const data: seq<byte>
    const broken: bool
    const endWithData: bool
    var off: nat

    ghost predicate Valid()
      reads this
    {
      off <= |data|
    }

    /** The error reported at the end of the stream. */
    function EndErr(): (e: ReadErr)
      ensures e != NoErr && e != TooLarge
    {
      if broken then Transport else Eof
    }

    constructor (data: seq<byte>, broken: bool, endWithData: bool)
      ensures Valid() && this.data == data && this.broken == broken && this.endWithData == endWithData && off == 0
    {
      this.data := data;
      this.broken := broken;
      this.endWithData := endWithData;
      off := 0;
    }

    /** The error a Read reports, given where it started: the end, once reached and reportable. */
    function ErrAfter(start: nat): ReadErr
      reads this
    {
      if off == |data| && (start == |data| || endWithData) then EndErr() else NoErr
    }

    /** Read into p[lo:hi]. */
    method Read(p: array<byte>, lo: nat, hi: nat) returns (n: nat, err: ReadErr)
      requires Valid() && lo <= hi <= p.Length
      modifies this, p
      ensures Valid() && off == old(off) + n
      ensures n == if old(off) == |data| then 0 else Min(hi - lo, |data| - old(off))
      ensures err == ErrAfter(old(off))
      ensures p[lo..lo + n] == data[old(off)..off]
      ensures p[..lo] == old(p[..lo]) && p[lo + n..] == old(p[lo + n..])
    {
      if off == |data| {
        return 0, EndErr();
      }
      n := Min(hi - lo, |data| - off);
      forall i | 0 <= i < n {
        p[lo + i] := data[off + i];
      }
      off := off + n;
      err := if off == |data| && endWithData then EndErr() else NoErr;
    }
  }

  /**
   * A writer that keeps every byte it is given, in order: a temporary file,
   * or a SHA-256 state whose sum is the digest of `data`. Writes succeed.
   */
  class Sink {
    var data: seq<byte>

    constructor ()
      ensures data == []
    {
      data := [];
    }

    method Write(chunk: seq<byte>)
      modifies this
      ensures data == old(data) + chunk
    {
      data := data + chunk;
    }
  }

  /** A slice taken from the start of a suffix is a slice of the whole. */
  lemma PrefixOfSuffix(d: seq<byte>, a: nat, b: nat)
    requires a <= b <= |d|
    ensures d[a..b] == d[a..][..b - a]
  {
  }

  /** Concatenation regroups freely. */
  lemma AppendAssoc(a: seq<byte>, b: seq<byte>, c: seq<byte>)
    ensures (a + b) + c == a + (b + c)
  {
  }

  /** Adjacent slices join up. */
  lemma SliceJoin(d: seq<byte>, a: nat, b: nat, c: nat)
    requires a <= b <= c <= |d|
    ensures d[a..c] == d[a..b] + d[b..c]
  {
  }

  /**
   * io.ReadFull: read until p is full. A stream that ends first yields
   * io.ErrUnexpectedEOF after a partial read and its own error otherwise.
   */
  method ReadFull(r: BodyReader, p: array<byte>) returns (n: nat, err: ReadErr)
    requires r.Valid()
    modifies r, p
    ensures r.Valid()
    ensures err == NoErr <==> old(r.off) + p.Length <= |r.data|
    ensures err == NoErr ==> n == p.Length && r.off == old(r.off) + n && p[..] == r.data[old(r.off)..r.off]
    ensures err != NoErr ==> r.off == |r.data| && n < p.Length
    ensures err != NoErr ==> err == if n > 0 && !r.broken then UnexpectedEof else r.EndErr()
  {
    n, err := 0, NoErr;
    while n < p.Length && err == NoErr
      invariant r.Valid() && n <= p.Length && r.off == old(r.off) + n
      invariant p[..n] == r.data[old(r.off)..r.off]
      invariant err != NoErr ==> r.off == |r.data| && err == r.EndErr()
      decreases p.Length - n, if err == NoErr then 1 else 0
    {
      var got;
      ghost var before, at := p[..n], r.off;
      got, err := r.Read(p, n, p.Length);
      assert p[..n] == before == r.data[old(r.off)..at];
      assert p[n..n + got] == r.data[at..r.off];
      assert p[..n + got] == p[..n] + p[n..n + got];
      SliceJoin(r.data, old(r.off), at, r.off);
      n := n + got;
    }
    if n >= p.Length {
      err := NoErr;
      assert p[..] == p[..n];
    } else if n > 0 && err == Eof {
      err := UnexpectedEof;
    }
  }
}
