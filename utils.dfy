/** The bounded reader of pkg/utils. */
module Utils {
  import opened Streams

  /**
   * Whether a LimitedReadCloser with the given budget, over a stream with
   * `remaining` bytes left, reports "too large" before the stream's end: the
   * budget runs out first, or exactly at the last byte when the stream reports
   * its end only on a later Read.
   */
  predicate Overflows(remaining: nat, budget: int, endWithData: bool)
  {
    budget < remaining || (budget == remaining && !(endWithData && 0 < remaining))
  }

  /**
   * Like io.LimitedReader, delivers at most N more bytes of the wrapped
   * reader, but once the budget is spent it reports "input stream too large"
   * (a non-EOF error) instead of io.EOF. The ghost Limit and Start remember
   * the budget and the reader's position at wrapping time.
   */
  class LimitedReadCloser {
    const rc: BodyReader
    var N: int
    ghost const Limit: int
    ghost const Start: nat

    ghost predicate Valid()
      reads this, rc
    {
      rc.Valid() && Start <= rc.off &&
      N == Limit - (rc.off - Start) &&
      (N >= 0 || rc.off == Start)
    }

    /** The bytes handed out so far. */
    ghost function Delivered(): seq<byte>
      reads this, rc
      requires Valid()
    {
      rc.data[Start..rc.off]
    }

    /** NewLimitedReadCloser(rc, l). */
    constructor (rc: BodyReader, l: int)
      requires rc.Valid()
      ensures Valid() && this.rc == rc && N == l && Limit == l && Delivered() == []
    {
      this.rc := rc;
      N := l;
      Limit := l;
      Start := rc.off;
    }

    /** Read into p[lo:hi], asking the wrapped reader for at most N bytes. */
    method Read(p: array<byte>, lo: nat, hi: nat) returns (n: nat, err: ReadErr)
      requires Valid() && lo <= hi <= p.Length
      modifies this, rc, p
      ensures Valid()
      // a spent budget fails without touching the wrapped reader, and never as EOF
      ensures old(N) <= 0 ==> n == 0 && err == TooLarge && N == old(N) && rc.off == old(rc.off)
      // otherwise the wrapped reader's count and error pass through, the request capped at N
      ensures old(N) > 0 ==>
        n == (if old(rc.off) == |rc.data| then 0 else Min(Min(hi - lo, old(N)), |rc.data| - old(rc.off))) &&
        err == rc.ErrAfter(old(rc.off))
      ensures n <= Max(old(N), 0) && N == old(N) - n
      ensures p[lo..lo + n] == rc.data[old(rc.off)..rc.off]
      // the buffer is cut to N first, so nothing outside p[lo:lo+n] is written
      ensures p[..lo] == old(p[..lo]) && p[lo + n..] == old(p[lo + n..])
      ensures Delivered() == old(Delivered()) + p[lo..lo + n]
      ensures |Delivered()| <= Max(Limit, 0)
    {
      if N <= 0 {
        return 0, TooLarge;
      }
      var top := hi;
      if hi - lo > N {
        top := lo + N;
      }
      n, err := rc.Read(p, lo, top);
      N := N - n;
    }
  }
}
