/**
 * What a CRL job runs against: the network reply, the local filesystem, the
 * metrics counters and the host's lookups. Library calls are modelled by
 * their outcomes, which the caller supplies.
 */
module Platform {
  import opened Wrappers
  import opened Streams

  /** File contents by path. */
  type Files = map<string, seq<byte>>

  /** SHA-256, left uninterpreted: only equality of two sums is ever used. */
  type DigestFn = seq<byte> -> seq<byte>

  /**
   * The outcome of the HTTP GET: no response at all, or a body that ends
   * cleanly or (broken) in a transport error. endWithData says whether the
   * body reports that end together with its last bytes, as net/http does for
   * a reply with a Content-Length, or only on the Read after them.
   */
  datatype Response = Unreachable | Reply(body: seq<byte>, broken: bool, endWithData: bool)

  /** Why downloadCRL failed. */
  datatype FetchErr =
    | RequestFailed          // "http request failed"
    | HeadReadFailed         // "head read failed"
    | NotCrl                 // "source is not a DER or PEM encoded CRL"
    | CopyFailed(cause: ReadErr)
    | FlushFailed            // "flush failed" (draft only)

  /** What a download handed to the file writer and to the hash, and its error. */
  datatype Fetched = Fetched(written: seq<byte>, hashed: seq<byte>, err: Option<FetchErr>)

  /** Why a run failed; each is one of the source's error log lines. */
  datatype Failure =
    | TempFileFailed         // "failed to create a temporary file"
    | DownloadFailed(cause: FetchErr)
    | CompareFailed          // "failed to compare CRL files"
    | ChownFailed            // "temporary file chown failed"
    | ChmodFailed            // "temporary file chmod failed"
    | ReplaceFailed          // "failed to replace existing CRL file"

  /** How a run ended, as logged: updated, unchanged, or failed. */
  datatype Outcome = Updated | Unchanged | Failed(failure: Failure)

  datatype RunResult = RunResult(outcome: Outcome, files: Files)

  /** strconv.Atoi's result: a value (0 or clamped on failure) and whether it parsed. */
  datatype Atoi = Atoi(value: int, ok: bool)

  /**
   * The host and library calls job preparation consults: runtime.GOOS,
   * user.Lookup / user.LookupGroup (the id string, if found), strconv.Atoi,
   * os.Getuid / os.Getgid, cron.ParseStandard (parses or not) and
   * time.ParseDuration (nanoseconds, if it parses).
   */
  datatype Host = Host(
    windows: bool,
    lookupUser: string -> Option<string>,
    lookupGroup: string -> Option<string>,
    atoi: string -> Atoi,
    processUid: int,
    processGid: int,
    cronParses: string -> bool,
    parseDuration: string -> Option<int>)

  /** The local filesystem, and whether a job's temporary file exists. */
  class FileSystem {
    var files: Files
    ghost var tempExists: bool

    constructor (files: Files)
      ensures this.files == files && !tempExists
    {
      this.files := files;
      tempExists := false;
    }

    /** renameio.TempFile succeeded: an empty temporary file sits beside the destination. */
    method CreateTemp()
      modifies this
      ensures files == old(files) && tempExists
    {
      tempExists := true;
    }

    /** PendingFile.Cleanup: remove the temporary file if it is still there. */
    method Cleanup()
      modifies this
      ensures files == old(files) && !tempExists
    {
      tempExists := false;
    }

    /** PendingFile.CloseAtomicallyReplace succeeded: the temporary file is renamed onto dest. */
    method Replace(dest: string, content: seq<byte>)
      requires tempExists
      modifies this
      ensures files == old(files)[dest := content] && !tempExists
    {
      files := files[dest := content];
      tempExists := false;
    }
  }

  /** The labels of the per-job counters: the job's id and its destination. */
  datatype Label = Label(job: int, file: string)

  /** The four counters: per-label success and error counts and their totals. */
  datatype Counters = Counters(success: map<Label, nat>, error: map<Label, nat>, successTotal: nat, errorTotal: nat)

  function Count(m: map<Label, nat>, l: Label): nat
  {
    if l in m then m[l] else 0
  }

  /** Counter.Inc on the series of one label. */
  function Inc(m: map<Label, nat>, l: Label): (r: map<Label, nat>)
    ensures Count(r, l) == Count(m, l) + 1
    ensures forall o :: o != l ==> Count(r, o) == Count(m, o)
  {
    m[l := Count(m, l) + 1]
  }

  /**
   * One run's metric update: the total and the labelled series of exactly one
   * of the success and error pairs go up by one; nothing else moves.
   */
  function Record(c: Counters, l: Label, ok: bool): (r: Counters)
    ensures r.successTotal + r.errorTotal == c.successTotal + c.errorTotal + 1
    ensures ok ==> r.successTotal == c.successTotal + 1 && r.errorTotal == c.errorTotal && r.error == c.error
    ensures ok ==> Count(r.success, l) == Count(c.success, l) + 1 && forall o :: o != l ==> Count(r.success, o) == Count(c.success, o)
    ensures !ok ==> r.errorTotal == c.errorTotal + 1 && r.successTotal == c.successTotal && r.success == c.success
    ensures !ok ==> Count(r.error, l) == Count(c.error, l) + 1 && forall o :: o != l ==> Count(r.error, o) == Count(c.error, o)
  {
    if ok then c.(success := Inc(c.success, l), successTotal := c.successTotal + 1)
    else c.(error := Inc(c.error, l), errorTotal := c.errorTotal + 1)
  }

  /** The Metrics struct: Success, Error, SuccessTotal and ErrorTotal. */
  class Metrics {
    var success: map<Label, nat>
    var error: map<Label, nat>
    var successTotal: nat
    var errorTotal: nat

    function Snapshot(): Counters
      reads this
    {
      Counters(success, error, successTotal, errorTotal)
    }

    constructor ()
      ensures Snapshot() == Counters(map[], map[], 0, 0)
    {
      success, error, successTotal, errorTotal := map[], map[], 0, 0;
    }

    /** SuccessTotal.Inc() and Success.With(l).Inc(). */
    method RecordSuccess(l: Label)
      modifies this
      ensures Snapshot() == Record(old(Snapshot()), l, true)
    {
      successTotal := successTotal + 1;
      success := Inc(success, l);
    }

    /** ErrorTotal.Inc() and Error.With(l).Inc(). */
    method RecordError(l: Label)
      modifies this
      ensures Snapshot() == Record(old(Snapshot()), l, false)
    {
      errorTotal := errorTotal + 1;
      error := Inc(error, l);
    }
  }

  /**
   * How every run ends: one metric pair recorded, then the deferred
   * PendingFile.Cleanup removes the temporary file if it is still there.
   */
  method EndRun(fs: FileSystem, metrics: Metrics, l: Label, ok: bool)
    modifies fs, metrics
    ensures metrics.Snapshot() == Record(old(metrics.Snapshot()), l, ok)
    ensures fs.files == old(fs.files) && !fs.tempExists
  {
    if ok {
      metrics.RecordSuccess(l);
    } else {
      metrics.RecordError(l);
    }
    fs.Cleanup();
  }
}
