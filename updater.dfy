/**
 * The current CRL updater (cmd/crl-updater/main.go): job preparation, the
 * bounded, sniffed download teed into the temporary file and a hash, and the
 * run that decides between failing, keeping and replacing the destination.
 */
module Updater {
  import opened Wrappers
  import opened Streams
  import opened Utils
  import opened CrlFormat
  import opened Platform

  /** time.Minute, in nanoseconds. */
  const DefaultTimeoutDuration: int := 60_000_000_000
  const DefaultSizeLimit: int := 10485760
  const DefaultSchedule: string := "@hourly"
  /** 0644 octal. */
  const DefaultFileMode: int := 0x1A4
  /** The buffer io.Copy allocates. */
  const CopyBufferSize: nat := 32768

  /** A CRLJob's configuration fields, as one value. Mode is a uint32, SizeLimit an int64, the timeout nanoseconds. */
  datatype Job = Job(
    id: int, url: string, destination: string, mode: int,
    owner: string, uid: int, group: string, gid: int,
    force: bool, schedule: string, sizeLimit: int,
    timeoutHuman: string, timeout: int)

  datatype PrepareErr =
    | EmptyParams            // "empty 'url' and/or 'dest' parameters"
    | UserLookupFailed
    | UidConversionFailed
    | GroupLookupFailed
    | GidConversionFailed

  datatype Prepared = Prepared(err: Option<PrepareErr>, job: Job)

  /** Owner, group and mode resolution on a non-Windows host; an Atoi result is stored even when it failed. */
  function ResolveIds(j: Job, host: Host): (r: Prepared)
    // the owner is resolved before the group, and the first failure is the error
    ensures r.err.None? <==> OwnerResolves(j, host) && GroupResolves(j, host)
    ensures r.err == Some(UserLookupFailed) <==> j.owner != "" && host.lookupUser(j.owner).None?
    ensures r.err == Some(UidConversionFailed) <==>
      j.owner != "" && host.lookupUser(j.owner).Some? && !host.atoi(host.lookupUser(j.owner).value).ok
    ensures r.err == Some(GroupLookupFailed) <==> OwnerResolves(j, host) && j.group != "" && host.lookupGroup(j.group).None?
    ensures r.err == Some(GidConversionFailed) <==>
      OwnerResolves(j, host) && j.group != "" && host.lookupGroup(j.group).Some? &&
      !host.atoi(host.lookupGroup(j.group).value).ok
    ensures r.err != Some(EmptyParams)
    // only the ids and the mode change; the mode only once both ids resolved
    ensures r.job.(uid := j.uid, gid := j.gid, mode := j.mode) == j
    // the uid is the process's or the Atoi of the looked-up one, stored even when Atoi fails
    ensures r.err == Some(UserLookupFailed) ==> r.job.uid == j.uid
    ensures r.err != Some(UserLookupFailed) ==>
      r.job.uid == (if j.owner == "" then host.processUid else host.atoi(host.lookupUser(j.owner).value).value)
    // the gid likewise, once the owner resolved
    ensures !OwnerResolves(j, host) || r.err == Some(GroupLookupFailed) ==> r.job.gid == j.gid
    ensures OwnerResolves(j, host) && r.err != Some(GroupLookupFailed) ==>
      r.job.gid == (if j.group == "" then host.processGid else host.atoi(host.lookupGroup(j.group).value).value)
    ensures r.job.mode == (if r.err.None? && j.mode == 0 then DefaultFileMode else j.mode)
  {
    if j.owner != "" && host.lookupUser(j.owner).None? then Prepared(Some(UserLookupFailed), j)
    else
      var u := if j.owner != "" then host.atoi(host.lookupUser(j.owner).value) else Atoi(host.processUid, true);
      var j1 := j.(uid := u.value);
      if !u.ok then Prepared(Some(UidConversionFailed), j1)
      else if j.group != "" && host.lookupGroup(j.group).None? then Prepared(Some(GroupLookupFailed), j1)
      else
        var g := if j.group != "" then host.atoi(host.lookupGroup(j.group).value) else Atoi(host.processGid, true);
        var j2 := j1.(gid := g.value);
        if !g.ok then Prepared(Some(GidConversionFailed), j2)
        else Prepared(None, j2.(mode := if j.mode == 0 then DefaultFileMode else j.mode))
  }

  /** Schedule, timeout and size-limit defaults. */
  function ApplyDefaults(j: Job, host: Host): (r: Job)
    ensures r.(schedule := j.schedule, timeout := j.timeout, sizeLimit := j.sizeLimit) == j
    ensures r.schedule == (if host.cronParses(j.schedule) then j.schedule else DefaultSchedule)
    ensures r.timeout == host.parseDuration(j.timeoutHuman).GetOr(DefaultTimeoutDuration)
    ensures r.sizeLimit == (if j.sizeLimit <= 0 then DefaultSizeLimit else j.sizeLimit) && r.sizeLimit > 0
  {
    j.(schedule := if host.cronParses(j.schedule) then j.schedule else DefaultSchedule,
       timeout := match host.parseDuration(j.timeoutHuman)
                  case Some(d) => d
                  case None => DefaultTimeoutDuration,
       sizeLimit := if j.sizeLimit <= 0 then DefaultSizeLimit else j.sizeLimit)
  }

  /** The owner resolves: none is set, or user.Lookup finds it and its uid string parses. */
  predicate OwnerResolves(j: Job, host: Host)
  {
    j.owner == "" || (host.lookupUser(j.owner).Some? && host.atoi(host.lookupUser(j.owner).value).ok)
  }

  /** The group resolves: none is set, or user.LookupGroup finds it and its gid string parses. */
  predicate GroupResolves(j: Job, host: Host)
  {
    j.group == "" || (host.lookupGroup(j.group).Some? && host.atoi(host.lookupGroup(j.group).value).ok)
  }

  /** What CRLJob.Prepare does to a job. */
  function PrepareSpec(j: Job, host: Host): (r: Prepared)
    // an empty url or destination is an error that changes nothing
    ensures j.url == "" || j.destination == "" ==> r == Prepared(Some(EmptyParams), j)
    // only the resolved and defaulted fields may change
    ensures r.job.(uid := j.uid, gid := j.gid, mode := j.mode, schedule := j.schedule,
                   timeout := j.timeout, sizeLimit := j.sizeLimit) == j
    // success: a positive size limit, the default exactly when none was set
    ensures r.err.None? ==>
      r.job.sizeLimit > 0 && r.job.sizeLimit == (if j.sizeLimit <= 0 then DefaultSizeLimit else j.sizeLimit)
    ensures r.err.None? ==> (r.job.schedule == DefaultSchedule <==> !host.cronParses(j.schedule) || j.schedule == DefaultSchedule)
    ensures r.err.None? ==> (r.job.schedule == j.schedule || r.job.schedule == DefaultSchedule)
    ensures r.err.None? ==> r.job.timeout == host.parseDuration(j.timeoutHuman).GetOr(DefaultTimeoutDuration)
    // ownership on POSIX hosts: looked-up ids, or the process's own
    ensures r.err.None? && !host.windows && j.owner == "" ==> r.job.uid == host.processUid
    ensures r.err.None? && !host.windows && j.owner != "" ==>
      host.lookupUser(j.owner).Some? && host.atoi(host.lookupUser(j.owner).value).ok &&
      r.job.uid == host.atoi(host.lookupUser(j.owner).value).value
    ensures r.err.None? && !host.windows && j.group == "" ==> r.job.gid == host.processGid
    ensures r.err.None? && !host.windows && j.group != "" ==>
      host.lookupGroup(j.group).Some? && host.atoi(host.lookupGroup(j.group).value).ok &&
      r.job.gid == host.atoi(host.lookupGroup(j.group).value).value
    ensures r.err.None? && !host.windows ==> r.job.mode == (if j.mode == 0 then DefaultFileMode else j.mode)
    // the owner is resolved first, then the group; the first failure is the error
    ensures !host.windows && j.url != "" && j.destination != "" && j.owner != "" && host.lookupUser(j.owner).None? ==>
      r.err == Some(UserLookupFailed)
    ensures (!host.windows && j.url != "" && j.destination != "" && j.owner != "" && host.lookupUser(j.owner).Some? &&
             !host.atoi(host.lookupUser(j.owner).value).ok) ==> r.err == Some(UidConversionFailed)
    ensures (!host.windows && j.url != "" && j.destination != "" && OwnerResolves(j, host) &&
             j.group != "" && host.lookupGroup(j.group).None?) ==> r.err == Some(GroupLookupFailed)
    ensures (!host.windows && j.url != "" && j.destination != "" && OwnerResolves(j, host) &&
             j.group != "" && host.lookupGroup(j.group).Some? && !host.atoi(host.lookupGroup(j.group).value).ok) ==>
      r.err == Some(GidConversionFailed)
    ensures r.err.None? <==>
      j.url != "" && j.destination != "" && (host.windows || (OwnerResolves(j, host) && GroupResolves(j, host)))
    ensures r.err.Some? && r.err != Some(EmptyParams) ==> !host.windows
    // on Windows ownership and mode are left alone and only empty parameters fail
    ensures host.windows ==> r.job.uid == j.uid && r.job.gid == j.gid && r.job.mode == j.mode
    ensures host.windows ==> (r.err.None? <==> j.url != "" && j.destination != "")
    // a failure applies no defaults
    ensures r.err.Some? ==> r.job.schedule == j.schedule && r.job.timeout == j.timeout && r.job.sizeLimit == j.sizeLimit
  {
    if j.url == "" || j.destination == "" then Prepared(Some(EmptyParams), j)
    else
      var ids := if host.windows then Prepared(None, j) else ResolveIds(j, host);
      if ids.err.Some? then ids else Prepared(None, ApplyDefaults(ids.job, host))
  }

  /** A reply of at least 24 bytes whose head passes isCRL. */
  predicate Sniffed(resp: Response)
  {
    resp.Reply? && HeadSize <= |resp.body| && IsCRL(resp.body[..HeadSize])
  }

  /** What downloadCRL hands to the file writer w and to the hash h. */
  function DownloadSpec(resp: Response, limit: int, force: bool): (f: Fetched)
    ensures resp.Unreachable? ==> f == Fetched([], [], Some(RequestFailed))
    // force: the whole body goes to w only, with no sniff and no limit
    ensures force && resp.Reply? ==> f.written == resp.body && f.hashed == [] && (f.err.None? <==> !resp.broken)
    // otherwise w and h get the same bytes, a prefix of the body, never more than the limit
    ensures !force ==> f.written == f.hashed && |f.written| <= Max(limit, 0)
    ensures resp.Reply? ==> f.written <= resp.body
    // a short body or a rejected head fails before anything is written
    ensures !force && resp.Reply? && !Sniffed(resp) ==>
      f.err == Some(if |resp.body| < HeadSize then HeadReadFailed else NotCrl) && f.written == [] && f.hashed == []
    // going over the limit is its own error, not an end of stream, and only that is too large
    ensures !force && Sniffed(resp) && limit < |resp.body| ==> f.err == Some(CopyFailed(TooLarge))
    ensures !force ==> (f.err == Some(CopyFailed(TooLarge)) <==>
      Sniffed(resp) && Overflows(|resp.body|, limit, resp.endWithData && HeadSize < |resp.body|))
    ensures !force && Sniffed(resp) && Overflows(|resp.body|, limit, resp.endWithData && HeadSize < |resp.body|) ==>
      f.written == resp.body[..Max(limit, 0)]
    // within the limit, or forced, a broken body fails with its own transport error
    ensures force && resp.Reply? && resp.broken ==> f.err == Some(CopyFailed(Transport))
    ensures !force && Sniffed(resp) && resp.broken &&
            !Overflows(|resp.body|, limit, resp.endWithData && HeadSize < |resp.body|) ==>
      f.err == Some(CopyFailed(Transport))
    // exactly the limit: all of it is copied, and the strict reader's error comes first
    // unless the body reported its end with the last bytes of the rest
    ensures !force && Sniffed(resp) && limit == |resp.body| ==>
      f.written == resp.body && (f.err == Some(CopyFailed(TooLarge)) <==> !(resp.endWithData && HeadSize < |resp.body|))
    // success exactly for a sniffed body within the limit that arrived whole
    ensures !force ==> (f.err.None? <==>
      Sniffed(resp) && !resp.broken && (|resp.body| < limit || (|resp.body| == limit && resp.endWithData && HeadSize < |resp.body|)))
    // never a silent truncation
    ensures f.err.None? ==> resp.Reply? && f.written == resp.body
  {
    match resp
    case Unreachable => Fetched([], [], Some(RequestFailed))
    case Reply(body, broken, endWithData) =>
      if force then Fetched(body, [], if broken then Some(CopyFailed(Transport)) else None)
      else if |body| < HeadSize then Fetched([], [], Some(HeadReadFailed))
      else if !IsCRL(body[..HeadSize]) then Fetched([], [], Some(NotCrl))
      else if Overflows(|body|, limit, endWithData && HeadSize < |body|) then
        Fetched(body[..Max(limit, 0)], body[..Max(limit, 0)], Some(CopyFailed(TooLarge)))
      else Fetched(body, body, if broken then Some(CopyFailed(Transport)) else None)
  }

  /** io.MultiWriter(w, h).Write: the chunk goes to w, then to h. */
  method Tee(w: Sink, h: Sink, chunk: seq<byte>)
    requires w != h
    modifies w, h
    ensures w.data == old(w.data) + chunk && h.data == old(h.data) + chunk
  {
    w.Write(chunk);
    h.Write(chunk);
  }

  /** One round of io.Copy: read a chunk from the limited reader into buf and tee it out. */
  method Pump(w: Sink, h: Sink, src: LimitedReadCloser, buf: array<byte>) returns (e: ReadErr)
    requires w != h && src.Valid() && buf.Length > 0
    modifies w, h, src, src.rc, buf
    ensures src.Valid() && old(src.rc.off) <= src.rc.off && src.N == old(src.N) - (src.rc.off - old(src.rc.off))
    ensures w.data == old(w.data) + src.rc.data[old(src.rc.off)..src.rc.off]
    ensures h.data == old(h.data) + src.rc.data[old(src.rc.off)..src.rc.off]
    ensures e == NoErr ==> old(src.rc.off) < src.rc.off && (src.rc.endWithData ==> src.rc.off < |src.rc.data|)
    ensures e == TooLarge <==> old(src.N) <= 0
    ensures e == TooLarge ==> src.rc.off == old(src.rc.off)
    ensures e != TooLarge ==> src.N >= 0
    ensures e != NoErr && e != TooLarge ==>
      src.rc.off == |src.rc.data| && e == src.rc.EndErr() && (src.rc.endWithData || old(src.rc.off) == |src.rc.data|)
  {
    var n;
    n, e := src.Read(buf, 0, buf.Length);
    assert buf[..n] == buf[0..n];
    Tee(w, h, buf[..n]);
  }

  /** io.Copy(io.MultiWriter(w, h), src): every chunk read goes to w, then to h. */
  method CopyTee(w: Sink, h: Sink, src: LimitedReadCloser) returns (err: ReadErr)
    requires w != h && src.Valid()
    modifies w, h, src, src.rc
    ensures var s := old(src.rc.data[src.rc.off..]);
      Overflows(|s|, old(src.N), src.rc.endWithData) ==>
        err == TooLarge && w.data == old(w.data) + s[..Max(old(src.N), 0)] && h.data == old(h.data) + s[..Max(old(src.N), 0)]
    ensures var s := old(src.rc.data[src.rc.off..]);
      !Overflows(|s|, old(src.N), src.rc.endWithData) ==>
        err == (if src.rc.broken then Transport else NoErr) && w.data == old(w.data) + s && h.data == old(h.data) + s
  {
    var buf := new byte[CopyBufferSize];
    ghost var off0, w0, h0 := src.rc.off, w.data, h.data;
    while true
      invariant src.Valid() && off0 <= src.rc.off
      invariant src.N == old(src.N) - (src.rc.off - off0)
      invariant w.data == w0 + src.rc.data[off0..src.rc.off]
      invariant h.data == h0 + src.rc.data[off0..src.rc.off]
      invariant src.rc.endWithData && src.rc.off == |src.rc.data| ==> src.rc.off == off0
      decreases |src.rc.data| - src.rc.off
    {
      ghost var at := src.rc.off;
      ghost var done := src.rc.data[off0..at];
      var e := Pump(w, h, src, buf);
      SliceJoin(src.rc.data, off0, at, src.rc.off);
      AppendAssoc(w0, done, src.rc.data[at..src.rc.off]);
      AppendAssoc(h0, done, src.rc.data[at..src.rc.off]);
      if e == TooLarge {
        assert at - off0 == Max(old(src.N), 0);
        PrefixOfSuffix(src.rc.data, off0, at);
        return TooLarge;
      }
      if e != NoErr {
        assert src.rc.data[off0..src.rc.off] == src.rc.data[off0..];
        return if e == Eof then NoErr else e;
      }
    }
  }

  /** io.Copy(w, src) straight from a body: everything goes to w. */
  method CopyAll(w: Sink, src: BodyReader) returns (err: ReadErr)
    requires src.Valid()
    modifies w, src
    ensures w.data == old(w.data) + old(src.data[src.off..])
    ensures err == if src.broken then Transport else NoErr
  {
    var buf := new byte[CopyBufferSize];
    ghost var off0 := src.off;
    while true
      invariant src.Valid() && off0 <= src.off
      invariant w.data == old(w.data) + src.data[off0..src.off]
      decreases |src.data| - src.off
    {
      ghost var at := src.off;
      var n, e := src.Read(buf, 0, buf.Length);
      SliceJoin(src.data, off0, at, src.off);
      if n > 0 {
        w.Write(buf[..n]);
      }
      if e != NoErr {
        assert src.data[off0..src.off] == src.data[off0..];
        err := if e == Eof then NoErr else e;
        return;
      }
    }
  }

  /**
   * The head check of downloadCRL: io.ReadFull of 24 bytes from a fresh body,
   * then isCRL on them.
   */
  method SniffHead(body: BodyReader) returns (head: seq<byte>, err: Option<FetchErr>)
    requires body.Valid() && body.off == 0
    modifies body
    ensures body.Valid()
    ensures err.None? <==> HeadSize <= |body.data| && IsCRL(body.data[..HeadSize])
    ensures err.Some? ==> err == Some(if |body.data| < HeadSize then HeadReadFailed else NotCrl)
    ensures err.None? ==> head == body.data[..HeadSize] && body.off == HeadSize
  {
    var buf := new byte[HeadSize];
    var got, e := ReadFull(body, buf);
    if e != NoErr {
      return [], Some(HeadReadFailed);
    }
    head := buf[..];
    if !IsCRL(head) {
      return head, Some(NotCrl);
    }
    return head, None;
  }

  /**
   * downloadCRL: without force, read a 24-byte head, sniff it, then copy the
   * head and the rest of the body, under the limit, into both w and h; with
   * force, copy the body into w alone.
   */
  method Download(resp: Response, w: Sink, h: Sink, limit: int, force: bool) returns (err: Option<FetchErr>)
    requires w != h
    modifies w, h
    ensures var f := DownloadSpec(resp, limit, force);
      err == f.err && w.data == old(w.data) + f.written && h.data == old(h.data) + f.hashed
  {
    if resp.Unreachable? {
      return Some(RequestFailed);
    }
    var body := new BodyReader(resp.body, resp.broken, resp.endWithData);
    if !force {
      var head;
      head, err := SniffHead(body);
      if err.Some? {
        return;
      }
      // io.MultiReader(bytes.NewReader(head), r.Body): the head, then the rest, ending as the body ends;
      // bytes.Reader reports its EOF apart, so the end comes with data only from a non-empty rest
      var joined := new BodyReader(head + resp.body[body.off..], resp.broken, resp.endWithData && HeadSize < |resp.body|);
      assert joined.data == resp.body;
      var src := new LimitedReadCloser(joined, limit);
      var e2 := CopyTee(w, h, src);
      if e2 != NoErr {
        return Some(CopyFailed(e2));
      }
    } else {
      var e2 := CopyAll(w, body);
      if e2 != NoErr {
        return Some(CopyFailed(e2));
      }
    }
    return None;
  }

  /** What comparing the download with the destination found. */
  datatype Comparison = Unopened | Unreadable | Same | Differs

  /**
   * os.Open(dest), then SHA-256 of its content through io.Copy, compared with
   * the digest of what was downloaded.
   */
  method CompareDestination(files: Files, dest: string, openOk: bool, readOk: bool, digest: DigestFn, hashed: seq<byte>)
    returns (c: Comparison)
    ensures c == Unopened <==> !(dest in files && openOk)
    ensures c == Unreadable <==> dest in files && openOk && !readOk
    ensures c == Same <==> dest in files && openOk && readOk && digest(hashed) == digest(files[dest])
  {
    if !(dest in files && openOk) {
      return Unopened;
    }
    var destFile := new BodyReader(files[dest], !readOk, false);
    var destHash := new Sink();
    var e := CopyAll(destHash, destFile);
    if e != NoErr {
      return Unreadable;
    }
    assert destHash.data == files[dest];
    c := if digest(hashed) == digest(destHash.data) then Same else Differs;
  }

  /**
   * The foreign steps of one run, each succeeding or not: runtime.GOOS,
   * renameio.TempFile, the HTTP reply, os.Open and reading the destination,
   * os.Chown, os.Chmod and the final rename.
   */
  datatype Env = Env(
    windows: bool, tempOk: bool, response: Response,
    openOk: bool, readOk: bool, chownOk: bool, chmodOk: bool, renameOk: bool)

  /** Whether os.Open(dest) succeeds: the file exists and may be opened. */
  predicate Opens(dest: string, files: Files, env: Env)
  {
    dest in files && env.openOk
  }

  /**
   * The steps of CRLJob.Run after a successful download of `content`:
   * comparison with the destination unless forced, chown and chmod off
   * Windows, then the atomic replace.
   */
  function Settle(j: Job, files: Files, env: Env, digest: DigestFn, content: seq<byte>): (r: RunResult)
    ensures r.outcome != Updated ==> r.files == files
    ensures r.outcome == Updated ==> r.files == files[j.destination := content]
    ensures r.outcome == Failed(CompareFailed) <==> !j.force && Opens(j.destination, files, env) && !env.readOk
    ensures r.outcome == Unchanged <==>
      !j.force && Opens(j.destination, files, env) && env.readOk && digest(content) == digest(files[j.destination])
    ensures r.outcome == Failed(ChownFailed) <==>
      ComparisonPasses(j, files, env, digest, content) && !env.windows && !env.chownOk
    ensures r.outcome == Failed(ChmodFailed) <==>
      ComparisonPasses(j, files, env, digest, content) && !env.windows && env.chownOk && !env.chmodOk
    ensures r.outcome == Failed(ReplaceFailed) <==>
      ComparisonPasses(j, files, env, digest, content) && (env.windows || (env.chownOk && env.chmodOk)) && !env.renameOk
    ensures r.outcome == Updated <==>
      ComparisonPasses(j, files, env, digest, content) && (env.windows || (env.chownOk && env.chmodOk)) && env.renameOk
  {
    if !j.force && Opens(j.destination, files, env) && !env.readOk then RunResult(Failed(CompareFailed), files)
    else if !j.force && Opens(j.destination, files, env) && digest(content) == digest(files[j.destination]) then
      RunResult(Unchanged, files)
    else if !env.windows && !env.chownOk then RunResult(Failed(ChownFailed), files)
    else if !env.windows && !env.chmodOk then RunResult(Failed(ChmodFailed), files)
    else if !env.renameOk then RunResult(Failed(ReplaceFailed), files)
    else RunResult(Updated, files[j.destination := content])
  }

  /**
   * The run gets past the comparison with the destination: the download
   * succeeded, and the run is forced, the destination does not open, or it
   * reads back with a different digest.
   */
  predicate PastComparison(j: Job, files: Files, env: Env, digest: DigestFn)
  {
    env.tempOk && DownloadSpec(env.response, j.sizeLimit, j.force).err.None? &&
    ComparisonPasses(j, files, env, digest, env.response.body)
  }

  /** The comparison lets `content` through: forced, an unopened destination, or a readable one that differs. */
  predicate ComparisonPasses(j: Job, files: Files, env: Env, digest: DigestFn, content: seq<byte>)
  {
    j.force || !Opens(j.destination, files, env) ||
    (env.readOk && digest(files[j.destination]) != digest(content))
  }

  /** What CRLJob.Run does: its outcome and the filesystem afterwards. */
  function RunSpec(j: Job, files: Files, env: Env, digest: DigestFn): (r: RunResult)
    // only an update touches the filesystem, and then only the destination, with the whole body
    ensures r.outcome != Updated ==> r.files == files
    ensures r.outcome == Updated ==> env.response.Reply? && r.files == files[j.destination := env.response.body]
    // each step's failure ends the run with that step's error
    ensures r.outcome == Failed(TempFileFailed) <==> !env.tempOk
    ensures r.outcome.Failed? && r.outcome.failure.DownloadFailed? <==>
      env.tempOk && DownloadSpec(env.response, j.sizeLimit, j.force).err.Some?
    ensures r.outcome.Failed? && r.outcome.failure.DownloadFailed? ==>
      Some(r.outcome.failure.cause) == DownloadSpec(env.response, j.sizeLimit, j.force).err
    ensures r.outcome == Failed(CompareFailed) <==>
      env.tempOk && DownloadSpec(env.response, j.sizeLimit, j.force).err.None? &&
      !j.force && Opens(j.destination, files, env) && !env.readOk
    // unchanged: not forced, and the destination's digest matches the download's
    ensures r.outcome == Unchanged <==>
      !j.force && env.tempOk && DownloadSpec(env.response, j.sizeLimit, false).err.None? &&
      Opens(j.destination, files, env) && env.readOk &&
      digest(files[j.destination]) == digest(env.response.body)
    // past the comparison, chown and chmod (off Windows) and then the rename decide
    ensures r.outcome == Failed(ChownFailed) <==> PastComparison(j, files, env, digest) && !env.windows && !env.chownOk
    ensures r.outcome == Failed(ChmodFailed) <==>
      PastComparison(j, files, env, digest) && !env.windows && env.chownOk && !env.chmodOk
    ensures r.outcome == Failed(ReplaceFailed) <==>
      PastComparison(j, files, env, digest) && (env.windows || (env.chownOk && env.chmodOk)) && !env.renameOk
    ensures r.outcome == Updated <==>
      PastComparison(j, files, env, digest) && (env.windows || (env.chownOk && env.chmodOk)) && env.renameOk
    // a forced run with every step succeeding always publishes
    ensures (j.force && env.tempOk && env.response.Reply? && !env.response.broken &&
             (env.windows || (env.chownOk && env.chmodOk)) && env.renameOk) ==> r.outcome == Updated
  {
    if !env.tempOk then RunResult(Failed(TempFileFailed), files)
    else
      var f := DownloadSpec(env.response, j.sizeLimit, j.force);
      if f.err.Some? then RunResult(Failed(DownloadFailed(f.err.value)), files)
      else Settle(j, files, env, digest, f.written)
  }

  /**
   * A second unforced run against the same reply, right after one that
   * published it, finds the destination up to date and leaves it alone.
   */
  lemma SecondRunUnchanged(j: Job, files: Files, env: Env, digest: DigestFn)
    requires !j.force && RunSpec(j, files, env, digest).outcome == Updated
    requires env.openOk && env.readOk
    ensures var after := RunSpec(j, files, env, digest).files;
      RunSpec(j, after, env, digest) == RunResult(Unchanged, after)
  {
  }

  /** The CRLJob struct. */
  class CrlJob {
    var id: int
    var url: string
    var destination: string
    var mode: int
    var owner: string
    var uid: int
    var group: string
    var gid: int
    var forceUpdate: bool
    var schedule: string
    var sizeLimit: int
    var timeoutHuman: string
    var timeoutDuration: int

    function Snapshot(): Job
      reads this
    {
      Job(id, url, destination, mode, owner, uid, group, gid, forceUpdate, schedule, sizeLimit, timeoutHuman, timeoutDuration)
    }

    /** A job as the configuration file describes it. */
    constructor (j: Job)
      ensures Snapshot() == j
    {
      id, url, destination, mode := j.id, j.url, j.destination, j.mode;
      owner, uid, group, gid := j.owner, j.uid, j.group, j.gid;
      forceUpdate, schedule, sizeLimit := j.force, j.schedule, j.sizeLimit;
      timeoutHuman, timeoutDuration := j.timeoutHuman, j.timeout;
    }

    /** Validate the job and fill in its defaults, in place. */
    method Prepare(host: Host) returns (err: Option<PrepareErr>)
      modifies this
      ensures Prepared(err, Snapshot()) == PrepareSpec(old(Snapshot()), host)
    {
      if url == "" || destination == "" {
        return Some(EmptyParams);
      }
      if !host.windows {
        err := ResolveOwnership(host);
        if err.Some? {
          return;
        }
      }
      FillDefaults(host);
      return None;
    }

    /** Owner, group and mode on a non-Windows host. */
    method ResolveOwnership(host: Host) returns (err: Option<PrepareErr>)
      modifies this
      ensures Prepared(err, Snapshot()) == ResolveIds(old(Snapshot()), host)
    {
      if owner != "" {
        var u := host.lookupUser(owner);
        if u.None? {
          return Some(UserLookupFailed);
        }
        var a := host.atoi(u.value);
        uid := a.value;
        if !a.ok {
          return Some(UidConversionFailed);
        }
      } else {
        uid := host.processUid;
      }
      if group != "" {
        var g := host.lookupGroup(group);
        if g.None? {
          return Some(GroupLookupFailed);
        }
        var a := host.atoi(g.value);
        gid := a.value;
        if !a.ok {
          return Some(GidConversionFailed);
        }
      } else {
        gid := host.processGid;
      }
      if mode == 0 {
        mode := DefaultFileMode;
      }
      return None;
    }

    /** Schedule, timeout and size limit. */
    method FillDefaults(host: Host)
      modifies this
      ensures Snapshot() == ApplyDefaults(old(Snapshot()), host)
    {
      if !host.cronParses(schedule) {
        schedule := DefaultSchedule;
      }
      match host.parseDuration(timeoutHuman) {
        case Some(d) => timeoutDuration := d;
        case None => timeoutDuration := DefaultTimeoutDuration;
      }
      if sizeLimit <= 0 {
        sizeLimit := DefaultSizeLimit;
      }
    }

    /**
     * One scheduled run: temporary file, download, then Publish. Every exit
     * records one metric pair and removes the temporary file.
     */
    method Run(fs: FileSystem, metrics: Metrics, env: Env, digest: DigestFn) returns (outcome: Outcome)
      requires !fs.tempExists
      modifies fs, metrics
      ensures var r := RunSpec(Snapshot(), old(fs.files), env, digest);
        outcome == r.outcome && fs.files == r.files
      ensures !fs.tempExists
      ensures metrics.Snapshot() == Record(old(metrics.Snapshot()), Label(id, destination), !outcome.Failed?)
    {
      var series := Label(id, destination);
      if !env.tempOk {
        metrics.RecordError(series);
        return Failed(TempFileFailed);
      }
      fs.CreateTemp();
      var tempFile := new Sink();
      var tempHash := new Sink();
      var e := Download(env.response, tempFile, tempHash, sizeLimit, forceUpdate);
      if e.Some? {
        EndRun(fs, metrics, series, false);
        return Failed(DownloadFailed(e.value));
      }
      ghost var f := DownloadSpec(env.response, sizeLimit, forceUpdate);
      assert tempFile.data == f.written && tempHash.data == f.hashed;
      outcome := Publish(fs, metrics, env, digest, tempFile.data, tempHash.data);
    }

    /**
     * The rest of Run once `content` sits in the temporary file and `hashed`
     * went through its hash.
     */
    method Publish(fs: FileSystem, metrics: Metrics, env: Env, digest: DigestFn, content: seq<byte>, hashed: seq<byte>)
      returns (outcome: Outcome)
      requires fs.tempExists && (!forceUpdate ==> hashed == content)
      modifies fs, metrics
      ensures var r := Settle(Snapshot(), old(fs.files), env, digest, content);
        outcome == r.outcome && fs.files == r.files
      ensures !fs.tempExists
      ensures metrics.Snapshot() == Record(old(metrics.Snapshot()), Label(id, destination), !outcome.Failed?)
    {
      // every early return in the source records its metric and runs the deferred Cleanup; here they share one exit
      outcome := Updated;
      if !forceUpdate {
        var c := CompareDestination(fs.files, destination, env.openOk, env.readOk, digest, hashed);
        if c == Unreadable {
          outcome := Failed(CompareFailed);
        } else if c == Same {
          outcome := Unchanged;
        }
      }
      if outcome == Updated {
        if !env.windows && !env.chownOk {
          outcome := Failed(ChownFailed);
        } else if !env.windows && !env.chmodOk {
          outcome := Failed(ChmodFailed);
        } else if !env.renameOk {
          outcome := Failed(ReplaceFailed);
        } else {
          fs.Replace(destination, content);
        }
      }
      EndRun(fs, metrics, Label(id, destination), !outcome.Failed?);
    }
  }
}
