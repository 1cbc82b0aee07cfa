# crl-updater, modelled in Dafny

crl-updater keeps local copies of certificate revocation lists up to date. Each
configured job downloads a CRL over HTTP on a cron schedule. Its first 24 bytes
must look like a PEM boundary (section 6 of RFC 7468) or like a DER
`CertificateList` (section 5 of RFC 5280): a SEQUENCE tag followed by a long-form
length with two or three length octets (section 8.1.3.5 of ITU-T X.690). The
body is copied into a temporary file and a SHA-256 hash under a size limit.
Unless the job is forced, the hash is compared with the destination's. The
temporary file is then chowned and chmodded and atomically replaces the
destination. Every run bumps one success or one error counter pair.

The model covers two versions of the job pipeline and the bounded reader they
share:

- `cmd/crl-updater/main.go`, the current version: `CRLJob.Prepare`,
  `downloadCRL` (with force mode), `CRLJob.Run` and `isCRL`. This is module
  `Updater`. `isCRL` is in `CrlFormat`.
- `crl-updater.go`, the earlier version: the defaulting loop in `main`,
  `downloadCRL` (through `http.MaxBytesReader` and a `bufio.Writer`) and
  `CRLJob.Run`. This is module `Draft`. Its `isCRL` is the same as the current
  one, so both versions use `CrlFormat.IsCRL`.
- `pkg/utils/main.go`: `LimitedReadCloser` and `NewLimitedReadCloser`, in
  module `Utils`.

Supporting modules:

- `Streams` models an HTTP body as a reader over a byte sequence. The sequence
  ends in EOF, or in a transport error when `broken` is set. `io.Reader` lets a
  reader report that end either together with its last bytes or on the next
  call; `endWithData` chooses which, and net/http does the former for a reply
  with a Content-Length. It also has the Go slice a `Read` fills, given as an
  array with bounds, and `io.ReadFull`.
- `Platform` models the filesystem as a map from path to bytes, with a ghost
  flag for "a temporary file exists". It also holds the four Prometheus
  counters and the host lookups.

Stateful code is written as classes whose methods are proved against
functions: `LimitedReadCloser`, `MaxBytesReader`, `BufferedWriter`, `Metrics`,
`FileSystem` and both `CrlJob`s. The spec functions `PrepareSpec`,
`DownloadSpec` and `RunSpec` carry the properties the source promises.

Assumptions and choices:

- `cmd/crl-updater/main.go:252` calls `utils.LimitStrictReader`, which is not
  part of this model: `pkg/utils/main.go` defines only `NewLimitedReadCloser`.
  The strict limit there is modelled with `LimitedReadCloser` semantics, which
  `pkg/utils/main.go:8` describes as "returning a non-EOF error on reaching the
  limit". Once `limit` bytes have been delivered, the next read fails with
  "input stream too large" before the body is consulted. A body longer than
  `limit` is therefore always too large, and a shorter one never is. A body of
  exactly `limit` bytes depends on how its end is reported. If the read that
  returns its last bytes also returns EOF, `io.Copy` stops and the body is
  accepted. If the EOF would come only on the next read, that read hits the
  spent budget and the body is rejected. `Updater.DownloadSpec` states both
  cases, and `Draft.ExactLimitBody` compares them with the draft.
- `io.MultiReader(bytes.NewReader(head), body)` is modelled as one reader over
  `head + rest`. It delivers the same bytes and ends the same way. A
  `bytes.Reader` reports its EOF on a call of its own, so the joined reader's
  end comes with data only when the body does and the rest is not empty.
- `http.MaxBytesReader` lives in `net/http`, which is not part of this model.
  It asks the body for one byte more than remains of its budget, so a body of
  exactly `n` bytes is accepted however its end is reported. Beyond `n` it
  reports a non-EOF error, errors are sticky, and a negative `n` counts as 0,
  as current net/http releases do. With `limit` below 24, the draft therefore
  accepts a body of exactly 24 bytes.
- SHA-256 is a function parameter. Only the equality of two digests is used.

## Model

| member | source | states |
|---|---|---|
| CrlFormat.IsCRL | cmd/crl-updater/main.go:264-266 | true exactly for the 24-byte PEM boundary, or for a SEQUENCE tag whose next octet is a long-form length with 2 or 3 length octets. It requires at least two bytes, as the Go indexing does. crl-updater.go:168-170 is the same function |
| CrlFormat.LongFormCount | cmd/crl-updater/main.go:265 | the number of length octets announced by an initial length octet lies in -1..127, with -1 meaning short form |
| CrlFormat.Latin1 | cmd/crl-updater/main.go:265 | Go's `string(b)` comparison with the header, read byte-wise: a string of characters below 256 becomes the bytes with the same values, one per character |
| CrlFormat.PemHeaderIsAscii | cmd/crl-updater/main.go:33 | the byte constant the sniff compares against is the ASCII text of `X509CRLPEMHeader`, and it is 24 bytes long, the size of the head read |
| CrlFormat.BigEndian | cmd/crl-updater/main.go:265 | the minimal base-256 digits of a length: empty for 0, no leading zero octet otherwise |
| CrlFormat.BigEndianLength | cmd/crl-updater/main.go:265 | a length needs at most k octets exactly when it is below 256^k |
| CrlFormat.LengthOctets | cmd/crl-updater/main.go:265 | a DER definite-form length encoding is never empty |
| CrlFormat.DerSequenceSniff | cmd/crl-updater/main.go:264-266 | a DER SEQUENCE of any content length passes the sniff exactly when the length is between 256 and 16777215 |
| CrlFormat.SequenceHeadSniff | cmd/crl-updater/main.go:265 | a head that starts with the SEQUENCE tag can never equal the PEM boundary, so it passes the sniff exactly when its second octet announces 2 or 3 length octets |
| CrlFormat.PemSniff | cmd/crl-updater/main.go:265 | a body that starts with the PEM boundary passes the sniff whatever follows it |
| Streams.BodyReader.EndErr | cmd/crl-updater/main.go:256 | a finished body ends with EOF or a transport error, never with the limit error |
| Streams.BodyReader.Read | pkg/utils/main.go:27 | the inner `Read`: copies min(len(p), remaining) bytes into p and leaves the rest of p untouched. It reports the stream's end when nothing remained, or already with the last bytes when `endWithData` holds, and no error otherwise |
| Streams.ReadFull | cmd/crl-updater/main.go:241-244 | `io.ReadFull`: succeeds exactly when 24 bytes remain. On success the buffer holds them. Otherwise the body is used up and the error is ErrUnexpectedEOF or the body's own end |
| Streams.Sink.Write | cmd/crl-updater/main.go:238 | the file and the hash behind `io.MultiWriter` append each chunk |
| Utils.LimitedReadCloser.constructor | pkg/utils/main.go:16-18 | `NewLimitedReadCloser(rc, l)` wraps rc with N == l and nothing delivered yet |
| Utils.LimitedReadCloser.Read | pkg/utils/main.go:20-30 | with N <= 0: 0 bytes, the too-large error, N unchanged, rc not read. Otherwise rc is asked for at most N bytes, its count and error pass through unchanged, and N falls by exactly n. Nothing in p outside the n bytes read is written. The bytes delivered over all calls never exceed the initial limit |
| Platform.FileSystem.CreateTemp | cmd/crl-updater/main.go:89 | creates the temporary file; the destination files are unchanged |
| Platform.FileSystem.Cleanup | cmd/crl-updater/main.go:96 | the deferred `Cleanup` removes the temporary file and leaves the other files alone |
| Platform.FileSystem.Replace | cmd/crl-updater/main.go:151 | `CloseAtomicallyReplace` makes the destination hold the temporary file's content; no other path changes |
| Platform.Inc | cmd/crl-updater/main.go:93 | `Counter.With(labels).Inc()` adds one to that label's series and to no other |
| Platform.Record | cmd/crl-updater/main.go:92-93 | one run's accounting: exactly one of the success and error pairs goes up, its total by one and its labelled series by one; the other pair is unchanged |
| Platform.Metrics.RecordSuccess | cmd/crl-updater/main.go:125-126 | the counters after a success are `Record(old, label, true)` |
| Platform.Metrics.RecordError | cmd/crl-updater/main.go:92-93 | the counters after an error are `Record(old, label, false)` |
| Platform.EndRun | cmd/crl-updater/main.go:96 | the common end of every run: one metric pair recorded as `Record` says, then the deferred `Cleanup`, which leaves no temporary file and changes no destination |
| Updater.PrepareSpec | cmd/crl-updater/main.go:163-218 | an empty URL or destination is an error that changes nothing. Only uid, gid, mode, schedule, timeout and size limit can change. On success the size limit is positive (10485760 if it was <= 0), the schedule is "@hourly" exactly when it does not parse, and the timeout is the parsed one or a minute. On POSIX hosts uid and gid are the looked-up and parsed ids or the process's, and mode 0 becomes 0644. The owner is resolved before the group: a user lookup, uid Atoi, group lookup or gid Atoi failure is that error, and success happens exactly when both resolve. On Windows ids and mode are untouched. A failure applies no defaults |
| Updater.ResolveIds | cmd/crl-updater/main.go:172-202 | the owner is resolved before the group, and each of the user-lookup, uid-Atoi, group-lookup and gid-Atoi errors happens exactly when its step is the first to fail. Past a successful user lookup the uid is the Atoi of the looked-up id, stored even when Atoi fails, or the process's uid when no owner is set. Once the owner resolved and past a successful group lookup, the gid is set the same way; otherwise it is unchanged. Only uid, gid and mode change, and mode 0 becomes 0644 only once both ids resolved |
| Updater.ApplyDefaults | cmd/crl-updater/main.go:204-215 | only schedule, timeout and size limit change: "@hourly" when the schedule does not parse, the parsed timeout or a minute, and 10485760 when the size limit is <= 0, any other limit kept |
| Updater.CrlJob.constructor | cmd/crl-updater/main.go:56-83 | a job built from a configuration holds exactly its fields |
| Updater.CrlJob.Prepare | cmd/crl-updater/main.go:163-218 | the returned error and the job's new fields are those of `PrepareSpec` |
| Updater.CrlJob.ResolveOwnership | cmd/crl-updater/main.go:172-202 | the owner, group and mode steps, in order, stopping at the first failure; an Atoi result is stored even when it fails |
| Updater.CrlJob.FillDefaults | cmd/crl-updater/main.go:204-215 | the schedule, timeout and size-limit defaults |
| Updater.SniffHead | cmd/crl-updater/main.go:240-249 | the head check succeeds exactly for a body of at least 24 bytes whose first 24 pass `isCRL`. A shorter body is a head-read error and any other is a not-a-CRL error. On success the head is the body's first 24 bytes and the reader has moved past them |
| Updater.DownloadSpec | cmd/crl-updater/main.go:221-261 | force: the whole body goes to w only, with no sniff, no limit and no hash, and a broken body is a transport error. Otherwise w and h receive identical bytes, a prefix of the body, never more than `limit`. A short body is a head-read error and a rejected head a not-a-CRL error, and both write nothing. The error is too large exactly for a sniffed body that overflows the strict reader: longer than the limit, or exactly at it unless its end arrived with the last bytes after the head. Then the first `limit` bytes were written. A sniffed, broken body that does not overflow fails with its transport error. Success happens exactly for a sniffed body that arrived whole and does not overflow, and then the whole body was written |
| Updater.Tee | cmd/crl-updater/main.go:238 | `io.MultiWriter(w, h)`: each chunk is appended to both the file and the hash |
| Updater.Pump | cmd/crl-updater/main.go:256 | one `io.Copy` round: the bytes read go to both sinks and the budget falls by their count. A spent budget is the too-large error, with nothing read. The body's own end comes once it is used up, and a successful round makes progress |
| Updater.CopyTee | cmd/crl-updater/main.go:256 | `io.Copy` into the MultiWriter from the limited reader: both sinks get the same bytes, at most the remaining budget. The error is too-large when the budget runs out before the body's end is reported, otherwise the body's transport error, or none, with the whole rest copied |
| Updater.CopyAll | cmd/crl-updater/main.go:115 | `io.Copy` from a body: everything goes to the sink, and an error means the body broke |
| Updater.CompareDestination | cmd/crl-updater/main.go:108-128 | comparing with the destination: it is unopened exactly when the file is absent or will not open, unreadable exactly when it opens but reading fails, and the same exactly when it reads and its digest equals the download's |
| Updater.Settle | cmd/crl-updater/main.go:108-160 | after a download of `content`: a compare error exactly on an unforced run whose destination opens but does not read, "unchanged" exactly when it reads with an equal digest. After the comparison, off Windows, a chown and then a chmod failure are errors, then a rename failure. Only the update changes files, and it gives the destination `content` |
| Updater.Download | cmd/crl-updater/main.go:221-261 | `downloadCRL`'s error and the bytes it gives to w and h are those of `DownloadSpec` |
| Updater.RunSpec | cmd/crl-updater/main.go:87-161 | only an update changes files, and then only the destination, which gets the whole body. Each outcome is characterised exactly. A temporary-file failure is that error. A download error is a download failure with the same cause. A read error on an unforced run whose destination opens is a compare error. Equal digests on such a run give "unchanged". After the comparison, a chown failure and then a chmod failure, off Windows, are errors, then a rename failure. Only a run whose every step succeeds is an update, so no failed step publishes. A forced run whose steps all succeed always publishes |
| Updater.SecondRunUnchanged | cmd/crl-updater/main.go:108-128 | after an unforced run that published a reply, a second run against the same reply finds the destination unchanged and leaves the files alone |
| Updater.CrlJob.Run | cmd/crl-updater/main.go:87-161 | the outcome and the files are those of `RunSpec`, the temporary file is gone on every path, and the metrics are `Record(old, label, outcome is not a failure)` |
| Updater.CrlJob.Publish | cmd/crl-updater/main.go:108-160 | after the download: comparison unless forced, chown and chmod off Windows, then the replace, as in `Settle`; one metric pair recorded, temporary file removed |
| Draft.Defaulted | crl-updater.go:236-254 | a job with an empty source or destination is skipped. Otherwise only schedule, timeout and size limit change: "@hourly" exactly when the schedule does not parse, the parsed timeout or 60 s, and 10485760 when the limit is <= 0, so the limit is positive |
| Draft.DefaultedIdempotent | crl-updater.go:236-254 | defaulting an already-defaulted job changes nothing, given that "@hourly" parses |
| Draft.CrlJob.constructor | crl-updater.go:46-64 | a draft job built from a configuration holds exactly its fields |
| Draft.CrlJob.Default | crl-updater.go:236-254 | one pass of the loop body: the job is kept exactly when `Defaulted` keeps it, and its new fields are `Defaulted`'s |
| Draft.PrepareJobs | crl-updater.go:235-254 | every job is left as `Defaulted` makes it, and exactly the jobs with a source and a destination go on to the scheduler |
| Draft.MaxBytesReader.constructor | crl-updater.go:154 | `http.MaxBytesReader(nil, body, limit-24)` starts with the whole budget, a negative one counting as 0, and no error |
| Draft.MaxBytesReader.Read | crl-updater.go:154 | an empty request returns nothing. Otherwise the read is too large exactly when both the request and the body reach one byte past the budget, and then it delivers exactly what remained of the budget. Any other read passes the body's count and error through, and the budget falls by the count. Every error sticks. The bytes returned are the body's next bytes |
| Draft.BufferedWriter.constructor | crl-updater.go:79 | `bufio.NewWriter(tempFile)` starts with an empty buffer |
| Draft.BufferedWriter.Write | crl-updater.go:140 | writes collect in the buffer |
| Draft.BufferedWriter.Flush | crl-updater.go:160-162 | a successful flush moves the buffer into the file, and a failed one leaves both alone; either way the bytes handed to the writer stay the same |
| Draft.DownloadSpec | crl-updater.go:128-165 | the writer and the hash get identical bytes, a prefix of the body. A short body is a head-read error and a rejected head a not-a-CRL error, and both write nothing. The head plus at most limit-24 more bytes are copied, none when that is negative, so the total is <= max(limit, 24). The error is too large exactly for a sniffed body longer than max(limit, 24), with that prefix written. Within the cap a broken body is a transport error, and a whole one whose flush fails is a flush error. Success happens exactly for a sniffed, complete body within the cap that flushed, however its end was reported. A flush failure is reported only after a complete copy |
| Draft.Tee | crl-updater.go:140 | `io.MultiWriter(w, h)`: each chunk is appended to the buffered writer and to the hash |
| Draft.Pump | crl-updater.go:157 | one `io.Copy` round over the capped body: a success moves forward. Too-large delivers only what remained of the cap. Otherwise the cap falls by the count, never below 0, and an error is the body's own end with the body used up. Both sinks get the same bytes |
| Draft.CopyCapped | crl-updater.go:157-159 | `io.Copy` from the capped body: the buffer and the hash get the same bytes, at most the cap. The error is too-large exactly when the body is longer than the cap, otherwise the body's transport error, or none |
| Draft.Download | crl-updater.go:128-165 | `downloadCRL`'s error and the bytes it gives to the buffered writer and the hash are those of `DownloadSpec`; on success the buffer is flushed |
| Draft.Settle | crl-updater.go:90-125 | after a download of `content`: a compare error exactly when the destination opens but does not read, "unchanged" exactly when it reads with an equal digest. After the comparison, the rename decides between a replace failure and an update. Only the update changes files, and it gives the destination `content` |
| Draft.CopyAndFlush | crl-updater.go:153-162 | after the head: the head and at most max(limit-24, 0) more bytes go to the writer and the hash. Too large if the rest is longer than that, otherwise the body's transport error, then the flush's failure, or success with an empty buffer |
| Draft.RunSpec | crl-updater.go:68-126 | only an update changes files, and then only the destination, which gets the whole body. Each outcome is characterised exactly. A temporary-file failure is that error. A download error is a download failure with the same cause. A read error on a destination that opens is a compare error, and equal digests give "unchanged". After the comparison only the rename decides between a replace failure and an update, so no failed step publishes |
| Draft.CrlJob.Run | crl-updater.go:68-126 | the outcome and the files are those of `RunSpec`, the temporary file is gone on every path, and exactly one metric pair is recorded |
| Draft.CrlJob.Publish | crl-updater.go:90-125 | after the download: comparison with the destination, then the replace, as in `Settle`; one metric pair recorded, temporary file removed |
| Draft.ExactLimitBody | crl-updater.go:154 | a sniffed, complete CRL of exactly `limit` bytes is accepted by the draft however its end is reported. The current version accepts it exactly when the end comes with the last bytes and the body is longer than the head |

## Left out

- The HTTP client, its timeout and keep-alive settings are not modelled. The
  response is an input: no response at all, or a body that ends in EOF or in a
  transport error. So `TimeoutDuration` is computed but never used.
- SHA-256 internals are not modelled; the digest is a parameter.
- The temporary file's write errors are not modelled. Writes into the temporary
  file and its hash always succeed. In the draft, only the final `Flush` can
  fail.
- `bufio.Writer` flushes early once its buffer is full. The model keeps
  everything in the buffer until `Flush`. The bytes that end up in the file
  are the same.
- The owner and permission bits of the published file are not tracked. Chown
  and chmod are success/failure steps, and the files map holds only contents.
- `os.Open`, `Close`, `renameio` and the directory of the temporary file are
  not modelled. They are success/failure inputs over the files map.
- Logging, flag parsing, YAML loading (`makeConfig`), the Prometheus registry,
  the `/metrics` server and the rest of both `main` functions are not
  modelled.
- Draft.PrepareJobs: `sched.AddJob` and the ID and metrics assignment are not
  modelled. A job that the scheduler refuses still counts as scheduled.
- Scheduling, and any concurrency between jobs or overlapping runs of one job,
  are not modelled.
- Streams.BodyReader.Read: an HTTP body may return fewer bytes than asked
  for. The model always fills as much as it can. Short reads change only how
  the bytes are split into chunks. Which bytes are copied and the final error
  stay the same, because the limited reader's outcome turns on whether the end
  comes with the last bytes, and `endWithData` models that.
- CrlFormat.IsCRL: Go's `&&` short-circuits, so a one-byte slice whose byte is
  not 0x30 yields false, and only an empty slice or `[0x30]` panics. The model
  requires two bytes instead; both callers always pass 24.
- Draft.MaxBytesReader: older net/http releases panic on a negative limit
  instead of treating it as 0; that behaviour is not modelled.
- `runtime.GOOS` appears twice, as `Host.windows` for job preparation and as
  `Env.windows` for a run. The model does not tie the two together. A job
  should be run only with an `Env` whose `windows` agrees with the `Host` it
  was prepared on, as it always does in the source.
- Integer widths (`int64` limits, `uint32` modes, `time.Duration`) are
  unbounded here. The source never operates near their edges.
