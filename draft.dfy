/**
 * The earlier CRL updater (crl-updater.go): no force flag and no ownership;
 * the body after the head is capped with net/http's MaxBytesReader at
 * limit - 24 bytes, the file is written through a bufio.Writer and flushed,
 * and main's job loop fills in defaults in place.
 */
module Draft {
  import opened Wrappers
  import opened Streams
  import opened CrlFormat
  import opened Platform
  import Updater

  /** A draft CRLJob's configuration fields. The timeout is in nanoseconds. */
  datatype Config = Config(
    id: int, source: string, destination: string, schedule: string,
    sizeLimit: int, timeoutHuman: string, timeout: int)

  /** main's loop body for one job: None when the job is skipped, otherwise the defaulted job. */
  function Defaulted(c: Config, host: Host): (r: Option<Config>)
    ensures r.None? <==> c.source == "" || c.destination == ""
    ensures r.Some? ==> r.value.(schedule := c.schedule, timeout := c.timeout, sizeLimit := c.sizeLimit) == c
    ensures r.Some? ==> (r.value.schedule == c.schedule || r.value.schedule == "@hourly")
    ensures r.Some? ==> (r.value.schedule == "@hourly" <==> !host.cronParses(c.schedule) || c.schedule == "@hourly")
    ensures r.Some? ==> r.value.timeout == host.parseDuration(c.timeoutHuman).GetOr(60 * 1_000_000_000)
    ensures r.Some? ==>
      r.value.sizeLimit > 0 && r.value.sizeLimit == (if c.sizeLimit <= 0 then 10485760 else c.sizeLimit)
  {
    if c.source == "" || c.destination == "" then None
    else Some(c.(schedule := if host.cronParses(c.schedule) then c.schedule else "@hourly",
                 timeout := match host.parseDuration(c.timeoutHuman)
                            case Some(d) => d
                            case None => 60 * 1_000_000_000,
                 sizeLimit := if c.sizeLimit <= 0 then 10485760 else c.sizeLimit))
  }

  /** The draft's CRLJob struct. */
  class CrlJob {
    var id: int
    var source: string
    var destination: string
    var schedule: string
    var sizeLimit: int
    var timeoutHuman: string
    var timeoutDuration: int

    function Snapshot(): Config
      reads this
    {
      Config(id, source, destination, schedule, sizeLimit, timeoutHuman, timeoutDuration)
    }

    constructor (c: Config)
      ensures Snapshot() == c
    {
      id, source, destination, schedule := c.id, c.source, c.destination, c.schedule;
      sizeLimit, timeoutHuman, timeoutDuration := c.sizeLimit, c.timeoutHuman, c.timeout;
    }

    /** One pass of main's loop body over this job; kept is false when it is skipped. */
    method Default(host: Host) returns (kept: bool)
      modifies this
      ensures kept == Defaulted(old(Snapshot()), host).Some?
      ensures Snapshot() == Defaulted(old(Snapshot()), host).GetOr(old(Snapshot()))
    {
      if source == "" || destination == "" {
        return false;
      }
      if !host.cronParses(schedule) {
        schedule := "@hourly";
      }
      match host.parseDuration(timeoutHuman) {
        case Some(d) => timeoutDuration := d;
        case None => timeoutDuration := 60 * 1_000_000_000;
      }
      if sizeLimit <= 0 {
        sizeLimit := 10485760;
      }
      return true;
    }

    /**
     * One scheduled run: temporary file, download, comparison with the
     * destination, atomic replace. Every exit records one metric pair and
     * removes the temporary file.
     */
    method Run(fs: FileSystem, metrics: Metrics, env: Env, digest: DigestFn) returns (outcome: Outcome)
      requires !fs.tempExists
      modifies fs, metrics
      ensures var r := RunSpec(Snapshot(), old(fs.files), env, digest);
        outcome == r.outcome && fs.files == r.files
      ensures !fs.tempExists
      ensures metrics.Snapshot() == Record(old(metrics.Snapshot()), Label(id, destination), !outcome.Failed?)
    {
      var series := Label(id, destination);
      if !env.tempOk {
        metrics.RecordError(series);
        return Failed(TempFileFailed);
      }
      fs.CreateTemp();
      var tempFile := new Sink();
      var tempWriter := new BufferedWriter(tempFile);
      var tempHash := new Sink();
      assert tempWriter.Contents() == [];
      var e := Download(env.response, tempWriter, tempHash, sizeLimit, env.flushOk);
      if e.Some? {
        EndRun(fs, metrics, series, false);
        return Failed(DownloadFailed(e.value));
      }
      ghost var f := DownloadSpec(env.response, sizeLimit, env.flushOk);
      assert tempWriter.buf == [] && tempFile.data + [] == f.written;
      assert tempFile.data == f.written && tempHash.data == f.written;
      outcome := Publish(fs, metrics, env, digest, tempFile.data);
    }

    /** The rest of Run once `content` sits in the temporary file and went through its hash. */
    method Publish(fs: FileSystem, metrics: Metrics, env: Env, digest: DigestFn, content: seq<byte>)
      returns (outcome: Outcome)
      requires fs.tempExists
      modifies fs, metrics
      ensures var r := Settle(Snapshot(), old(fs.files), env, digest, content);
        outcome == r.outcome && fs.files == r.files
      ensures !fs.tempExists
      ensures metrics.Snapshot() == Record(old(metrics.Snapshot()), Label(id, destination), !outcome.Failed?)
    {
      var series := Label(id, destination);
      var c := Updater.CompareDestination(fs.files, destination, env.openOk, env.readOk, digest, content);
      if c == Updater.Unreadable {
        EndRun(fs, metrics, series, false);
        return Failed(CompareFailed);
      }
      if c == Updater.Same {
        EndRun(fs, metrics, series, true);
        return Unchanged;
      }
      if !env.renameOk {
        EndRun(fs, metrics, series, false);
        return Failed(ReplaceFailed);
      }
      fs.Replace(destination, content);
      EndRun(fs, metrics, series, true);
      return Updated;
    }
  }

  /**
   * main's job loop: every job with a source and a destination gets its
   * defaults, in place, and goes on to the scheduler; the others are skipped
   * untouched.
   */
  method PrepareJobs(jobs: seq<CrlJob>, host: Host) returns (scheduled: seq<CrlJob>)
    requires forall a, b :: 0 <= a < b < |jobs| ==> jobs[a] != jobs[b]
    modifies set j | j in jobs
    ensures forall k :: 0 <= k < |jobs| ==>
      jobs[k].Snapshot() == Defaulted(old(jobs[k].Snapshot()), host).GetOr(old(jobs[k].Snapshot()))
    ensures forall j :: j in scheduled ==> j in jobs
    ensures forall k :: 0 <= k < |jobs| ==> (jobs[k] in scheduled <==> Defaulted(old(jobs[k].Snapshot()), host).Some?)
  {
    scheduled := [];
    for i := 0 to |jobs|
      invariant forall k :: 0 <= k < i ==>
        jobs[k].Snapshot() == Defaulted(old(jobs[k].Snapshot()), host).GetOr(old(jobs[k].Snapshot()))
      invariant forall k :: i <= k < |jobs| ==> jobs[k].Snapshot() == old(jobs[k].Snapshot())
      invariant forall j :: j in scheduled ==> j in jobs[..i]
      invariant forall k :: 0 <= k < i ==> (jobs[k] in scheduled <==> Defaulted(old(jobs[k].Snapshot()), host).Some?)
    {
      var kept := jobs[i].Default(host);
      if kept {
        scheduled := scheduled + [jobs[i]];
      }
    }
  }

  /**
   * http.MaxBytesReader(nil, r, n): passes reads through while at most n
   * bytes have gone by, asking for one byte more than is left so that it can
   * tell a body of exactly n bytes from a longer one; past n it reports a
   * non-EOF error, and any error sticks. A negative n counts as 0.
   */
  class MaxBytesReader {
    const r: BodyReader
    var n: int
    var err: ReadErr
    ghost const Cap: int
    ghost const Start: nat

    ghost predicate Valid()
      reads this, r
    {
      r.Valid() && Start <= r.off && 0 <= n &&
      (err == NoErr ==> n == Cap - (r.off - Start))
    }

    constructor (r: BodyReader, n: int)
      requires r.Valid()
      ensures Valid() && this.r == r && this.n == Max(n, 0) && Cap == Max(n, 0) && Start == r.off && err == NoErr
    {
      this.r := r;
      this.n := if n < 0 then 0 else n;
      err := NoErr;
      Cap := Max(n, 0);
      Start := r.off;
    }

    method Read(p: array<byte>, lo: nat, hi: nat) returns (k: nat, e: ReadErr)
      requires Valid() && lo <= hi <= p.Length
      modifies this, r, p
      ensures Valid() && e == err
      // a recorded error repeats, with nothing read
      ensures old(err) != NoErr ==> k == 0 && e == old(err) && r.off == old(r.off)
      ensures old(err) == NoErr && lo == hi ==> k == 0 && e == NoErr && r.off == old(r.off) && n == old(n)
      // too large exactly when the request and the body both reach one byte past the budget
      ensures old(err) == NoErr && lo < hi ==>
        (e == TooLarge <==> old(n) < hi - lo && old(n) < |r.data| - old(r.off))
      ensures old(err) == NoErr && e == TooLarge ==> k == old(n) && n == 0
      // otherwise the body's count and error pass through, and the budget falls by the count
      ensures old(err) == NoErr && lo < hi && e != TooLarge ==>
        k == Min(hi - lo, |r.data| - old(r.off)) && r.off == old(r.off) + k && n == old(n) - k &&
        e == r.ErrAfter(old(r.off))
      ensures old(r.off) + k <= |r.data| && p[lo..lo + k] == r.data[old(r.off)..old(r.off) + k]
    {
      if err != NoErr {
        return 0, err;
      }
      if lo == hi {
        return 0, NoErr;
      }
      var top := hi;
      if hi - lo > n + 1 {
        top := lo + n + 1;
      }
      k, e := r.Read(p, lo, top);
      if k <= n {
        n := n - k;
        err := e;
        return;
      }
      assert p[lo..lo + n] == p[lo..lo + k][..n];
      k := n;
      n := 0;
      err := TooLarge;
      e := err;
    }
  }

  /** A bufio.Writer over the temporary file: writes collect in buf until Flush. */
  class BufferedWriter {
    const file: Sink
    var buf: seq<byte>

    /** What has been handed to the writer: flushed bytes, then buffered ones. */
    function Contents(): seq<byte>
      reads this, file
    {
      file.data + buf
    }

    constructor (file: Sink)
      ensures this.file == file && buf == []
    {
      this.file := file;
      buf := [];
    }

    method Write(chunk: seq<byte>)
      modifies this
      ensures buf == old(buf) + chunk
    {
      buf := buf + chunk;
    }

    /** Flush, whose write to the file succeeds when ok holds. */
    method Flush(ok: bool) returns (flushed: bool)
      modifies this, file
      ensures flushed == ok
      ensures Contents() == old(Contents())
      ensures ok ==> file.data == old(file.data) + old(buf) && buf == []
      ensures !ok ==> file.data == old(file.data) && buf == old(buf)
    {
      if !ok {
        return false;
      }
      file.Write(buf);
      buf := [];
      return true;
    }
  }

  /** What the draft's downloadCRL hands to the buffered writer and to the hash. */
  function DownloadSpec(resp: Response, limit: int, flushOk: bool): (f: Fetched)
    ensures resp.Unreachable? ==> f == Fetched([], [], Some(RequestFailed))
    // the writer and the hash get the same bytes, a prefix of the body
    ensures f.written == f.hashed
    ensures resp.Reply? ==> f.written <= resp.body
    // a short body or a rejected head fails before anything is written
    ensures resp.Reply? && !Updater.Sniffed(resp) ==>
      f.err == Some(if |resp.body| < HeadSize then HeadReadFailed else NotCrl) && f.written == []
    // the head plus at most limit - 24 further bytes, a negative cap counting as none
    ensures |f.written| <= Max(limit, HeadSize)
    ensures Updater.Sniffed(resp) && Max(limit, HeadSize) < |resp.body| ==>
      f.err == Some(CopyFailed(TooLarge)) && f.written == resp.body[..Max(limit, HeadSize)]
    ensures f.err == Some(CopyFailed(TooLarge)) ==> Updater.Sniffed(resp) && Max(limit, HeadSize) < |resp.body|
    // within the cap a broken body is a transport error, and a whole one fails only at the flush
    ensures Updater.Sniffed(resp) && |resp.body| <= Max(limit, HeadSize) && resp.broken ==>
      f.err == Some(CopyFailed(Transport))
    ensures Updater.Sniffed(resp) && |resp.body| <= Max(limit, HeadSize) && !resp.broken && !flushOk ==>
      f.err == Some(FlushFailed)
    // success exactly for a sniffed body within the cap, arrived whole and flushed, however its end was reported
    ensures f.err.None? <==>
      Updater.Sniffed(resp) && |resp.body| <= Max(limit, HeadSize) && !resp.broken && flushOk
    // a failed flush is reported only after a complete copy
    ensures f.err == Some(FlushFailed) ==> resp.Reply? && f.written == resp.body && !flushOk
    ensures f.err.None? ==> resp.Reply? && f.written == resp.body
  {
    match resp
    case Unreachable => Fetched([], [], Some(RequestFailed))
    case Reply(body, broken, _) =>
      if |body| < HeadSize then Fetched([], [], Some(HeadReadFailed))
      else if !IsCRL(body[..HeadSize]) then Fetched([], [], Some(NotCrl))
      else if Max(limit, HeadSize) < |body| then
        Fetched(body[..Max(limit, HeadSize)], body[..Max(limit, HeadSize)], Some(CopyFailed(TooLarge)))
      else if broken then Fetched(body, body, Some(CopyFailed(Transport)))
      else Fetched(body, body, if flushOk then None else Some(FlushFailed))
  }

  /** io.MultiWriter(w, h).Write: the chunk goes to the buffered writer, then to the hash. */
  method Tee(w: BufferedWriter, h: Sink, chunk: seq<byte>)
    modifies w, h
    ensures w.buf == old(w.buf) + chunk && h.data == old(h.data) + chunk
  {
    w.Write(chunk);
    h.Write(chunk);
  }

  /** One round of io.Copy: read a chunk from the capped body into buf and tee it out. */
  method Pump(w: BufferedWriter, h: Sink, src: MaxBytesReader, buf: array<byte>) returns (e: ReadErr)
    requires src.Valid() && src.err == NoErr && buf.Length > 0
    modifies w, h, src, src.r, buf
    ensures src.Valid() && e == src.err
    ensures e != TooLarge ==>
      old(src.r.off) <= src.r.off && src.r.off - old(src.r.off) <= old(src.n) &&
      src.n == old(src.n) - (src.r.off - old(src.r.off)) &&
      w.buf == old(w.buf) + src.r.data[old(src.r.off)..src.r.off] &&
      h.data == old(h.data) + src.r.data[old(src.r.off)..src.r.off]
    ensures e == NoErr ==> old(src.r.off) < src.r.off
    ensures e == TooLarge ==>
      old(src.n) < |src.r.data| - old(src.r.off) &&
      w.buf == old(w.buf) + src.r.data[old(src.r.off)..old(src.r.off) + old(src.n)] &&
      h.data == old(h.data) + src.r.data[old(src.r.off)..old(src.r.off) + old(src.n)]
    ensures e != NoErr && e != TooLarge ==> src.r.off == |src.r.data| && e == src.r.EndErr()
  {
    var n;
    n, e := src.Read(buf, 0, buf.Length);
    assert buf[..n] == buf[0..n];
    Tee(w, h, buf[..n]);
  }

  /** io.Copy(io.MultiWriter(w, h), src) over the capped rest of the body. */
  method CopyCapped(w: BufferedWriter, h: Sink, src: MaxBytesReader) returns (err: ReadErr)
    requires src.Valid() && src.err == NoErr
    modifies w, h, src, src.r
    ensures var s := old(src.r.data[src.r.off..]);
      |s| > old(src.n) ==>
        err == TooLarge && w.buf == old(w.buf) + s[..old(src.n)] && h.data == old(h.data) + s[..old(src.n)]
    ensures var s := old(src.r.data[src.r.off..]);
      |s| <= old(src.n) ==>
        err == (if src.r.broken then Transport else NoErr) && w.buf == old(w.buf) + s && h.data == old(h.data) + s
  {
    var buf := new byte[Updater.CopyBufferSize];
    ghost var off0, w0, h0 := src.r.off, w.buf, h.data;
    while true
      invariant src.Valid() && src.err == NoErr && off0 <= src.r.off
      invariant src.n == old(src.n) - (src.r.off - off0)
      invariant w.buf == w0 + src.r.data[off0..src.r.off]
      invariant h.data == h0 + src.r.data[off0..src.r.off]
      decreases |src.r.data| - src.r.off
    {
      ghost var at := src.r.off;
      ghost var done := src.r.data[off0..at];
      var e := Pump(w, h, src, buf);
      if e == TooLarge {
        ghost var end := off0 + old(src.n);
        SliceJoin(src.r.data, off0, at, end);
        AppendAssoc(w0, done, src.r.data[at..end]);
        AppendAssoc(h0, done, src.r.data[at..end]);
        PrefixOfSuffix(src.r.data, off0, end);
        return TooLarge;
      }
      SliceJoin(src.r.data, off0, at, src.r.off);
      AppendAssoc(w0, done, src.r.data[at..src.r.off]);
      AppendAssoc(h0, done, src.r.data[at..src.r.off]);
      if e != NoErr {
        assert src.r.data[off0..src.r.off] == src.r.data[off0..];
        return if e == Eof then NoErr else e;
      }
    }
  }

  /**
   * downloadCRL: read a 24-byte head, sniff it, copy the head and at most
   * limit - 24 further bytes into the buffered writer and the hash, then flush.
   */
  method Download(resp: Response, w: BufferedWriter, h: Sink, limit: int, flushOk: bool) returns (err: Option<FetchErr>)
    requires w.file != h
    modifies w, w.file, h
    ensures var f := DownloadSpec(resp, limit, flushOk);
      err == f.err && h.data == old(h.data) + f.hashed &&
      w.Contents() == old(w.Contents()) + f.written &&
      (f.err.None? ==> w.buf == [])
  {
    ghost var f := DownloadSpec(resp, limit, flushOk);
    if resp.Unreachable? {
      return Some(RequestFailed);
    }
    var body := new BodyReader(resp.body, resp.broken, resp.endWithData);
    var head;
    head, err := Updater.SniffHead(body);
    if err.Some? {
      return;
    }
    ghost var rest := resp.body[HeadSize..];
    assert resp.body == head + rest;
    err := CopyAndFlush(w, h, head, body, limit, flushOk);
    ghost var over := |rest| > Max(limit - HeadSize, 0);
    ghost var k := if over then Max(limit - HeadSize, 0) else |rest|;
    assert head + rest[..k] == resp.body[..HeadSize + k];
    if over {
      assert HeadSize + k == Max(limit, HeadSize);
    } else {
      assert resp.body[..HeadSize + k] == resp.body;
    }
  }

  /**
   * The rest of downloadCRL once the head is sniffed:
   * io.Copy(dest, io.MultiReader(bytes.NewReader(head), http.MaxBytesReader(nil, body, limit-24)))
   * writes the head and at most limit - 24 bytes of the rest (none when that
   * is negative), then w.Flush().
   */
  method CopyAndFlush(w: BufferedWriter, h: Sink, head: seq<byte>, body: BodyReader, limit: int, flushOk: bool)
    returns (err: Option<FetchErr>)
    requires w.file != h && body.Valid()
    modifies w, w.file, h, body
    ensures
      var rest := old(body.data[body.off..]);
      var over := |rest| > Max(limit - HeadSize, 0);
      var k := if over then Max(limit - HeadSize, 0) else |rest|;
      h.data == old(h.data) + (head + rest[..k]) &&
      w.Contents() == old(w.Contents()) + (head + rest[..k]) &&
      err == (if over then Some(CopyFailed(TooLarge))
              else if body.broken then Some(CopyFailed(Transport))
              else if !flushOk then Some(FlushFailed)
              else None) &&
      (err.None? ==> w.buf == [])
  {
    ghost var rest := body.data[body.off..];
    ghost var k := if |rest| > Max(limit - HeadSize, 0) then Max(limit - HeadSize, 0) else |rest|;
    ghost var f0, b0, h0 := w.file.data, w.buf, h.data;
    Tee(w, h, head);
    var capped := new MaxBytesReader(body, limit - HeadSize);
    var e := CopyCapped(w, h, capped);
    AppendAssoc(b0, head, rest[..k]);
    AppendAssoc(h0, head, rest[..k]);
    AppendAssoc(f0, b0, head + rest[..k]);
    if e != NoErr {
      return Some(CopyFailed(e));
    }
    var flushed := w.Flush(flushOk);
    if !flushed {
      return Some(FlushFailed);
    }
    return None;
  }

  /** The foreign steps of one draft run, each succeeding or not. */
  datatype Env = Env(tempOk: bool, response: Response, flushOk: bool, openOk: bool, readOk: bool, renameOk: bool)

  /** The draft's Run after a successful download of `content`: compare, then replace. */
  function Settle(c: Config, files: Files, env: Env, digest: DigestFn, content: seq<byte>): (r: RunResult)
    ensures r.outcome != Updated ==> r.files == files
    ensures r.outcome == Updated ==> r.files == files[c.destination := content]
    ensures r.outcome == Failed(CompareFailed) <==> c.destination in files && env.openOk && !env.readOk
    ensures r.outcome == Unchanged <==>
      c.destination in files && env.openOk && env.readOk && digest(content) == digest(files[c.destination])
    // past the comparison only the rename decides
    ensures r.outcome == Failed(ReplaceFailed) <==>
      (!(c.destination in files && env.openOk) || (env.readOk && digest(files[c.destination]) != digest(content))) &&
      !env.renameOk
    ensures r.outcome == Updated <==>
      (!(c.destination in files && env.openOk) || (env.readOk && digest(files[c.destination]) != digest(content))) &&
      env.renameOk
  {
    if c.destination in files && env.openOk && !env.readOk then RunResult(Failed(CompareFailed), files)
    else if c.destination in files && env.openOk && digest(content) == digest(files[c.destination]) then
      RunResult(Unchanged, files)
    else if !env.renameOk then RunResult(Failed(ReplaceFailed), files)
    else RunResult(Updated, files[c.destination := content])
  }

  /**
   * The draft's run gets past the comparison with the destination: the
   * download succeeded, and the destination does not open or reads back with
   * a different digest.
   */
  predicate PastComparison(c: Config, files: Files, env: Env, digest: DigestFn)
  {
    env.tempOk && DownloadSpec(env.response, c.sizeLimit, env.flushOk).err.None? &&
    (!(c.destination in files && env.openOk) ||
     (env.readOk && digest(files[c.destination]) != digest(env.response.body)))
  }

  /** What the draft's CRLJob.Run does: its outcome and the filesystem afterwards. */
  function RunSpec(c: Config, files: Files, env: Env, digest: DigestFn): (r: RunResult)
    ensures r.outcome != Updated ==> r.files == files
    ensures r.outcome == Updated ==> env.response.Reply? && r.files == files[c.destination := env.response.body]
    // each step's failure ends the run with that step's error
    ensures r.outcome == Failed(TempFileFailed) <==> !env.tempOk
    ensures r.outcome.Failed? && r.outcome.failure.DownloadFailed? <==>
      env.tempOk && DownloadSpec(env.response, c.sizeLimit, env.flushOk).err.Some?
    ensures r.outcome.Failed? && r.outcome.failure.DownloadFailed? ==>
      Some(r.outcome.failure.cause) == DownloadSpec(env.response, c.sizeLimit, env.flushOk).err
    ensures r.outcome == Failed(CompareFailed) <==>
      env.tempOk && DownloadSpec(env.response, c.sizeLimit, env.flushOk).err.None? &&
      c.destination in files && env.openOk && !env.readOk
    ensures r.outcome == Unchanged <==>
      env.tempOk && DownloadSpec(env.response, c.sizeLimit, env.flushOk).err.None? &&
      c.destination in files && env.openOk && env.readOk &&
      digest(files[c.destination]) == digest(env.response.body)
    // past the comparison only the rename decides
    ensures r.outcome == Failed(ReplaceFailed) <==> PastComparison(c, files, env, digest) && !env.renameOk
    ensures r.outcome == Updated <==> PastComparison(c, files, env, digest) && env.renameOk
    ensures r.outcome.Failed? ==> r.outcome.failure in {TempFileFailed, CompareFailed, ReplaceFailed} || r.outcome.failure.DownloadFailed?
  {
    if !env.tempOk then RunResult(Failed(TempFileFailed), files)
    else
      var f := DownloadSpec(env.response, c.sizeLimit, env.flushOk);
      if f.err.Some? then RunResult(Failed(DownloadFailed(f.err.value)), files)
      else Settle(c, files, env, digest, f.written)
  }

  /** Filling in defaults twice changes nothing more, when "@hourly" itself parses. */
  lemma DefaultedIdempotent(c: Config, host: Host)
    requires host.cronParses("@hourly") && Defaulted(c, host).Some?
    ensures Defaulted(Defaulted(c, host).value, host) == Defaulted(c, host)
  {
  }

  /**
   * A CRL of exactly `limit` bytes, arriving whole: the draft's MaxBytesReader,
   * which asks for one byte past its budget, lets it through however the body
   * reports its end; the current version's strict reader lets it through only
   * when the end comes with the last bytes after the head.
   */
  lemma ExactLimitBody(body: seq<byte>, limit: int, endWithData: bool)
    requires |body| == limit >= HeadSize && IsCRL(body[..HeadSize])
    ensures DownloadSpec(Reply(body, false, endWithData), limit, true).err.None?
    ensures Updater.DownloadSpec(Reply(body, false, endWithData), limit, false).err.None? <==>
      endWithData && HeadSize < limit
  {
  }
}
