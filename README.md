# Internet speed tester: measurement core

A Dafny model of the measurement engine of a command-line internet speed
tester. The engine has three parts:

- a **download tester**: GET a URL, stream the body, count bytes, optionally stop at a byte cap, and report megabits per second;
- an **upload tester**: POST a generated payload of a configured size and report megabits per second;
- an **orchestrator**: run both testers and merge their two results into one `SpeedResult` or one error.

The network, the clock and the async runtime are not modelled. They become
plain inputs:

- a response body is a sequence of chunk results (`Transport.ChunkResult`: a chunk length or a read failure);
- what the HTTP library did on a request is a `Transport.Exchange` value;
- the post performed by the upload tester is a function `send` from the payload to the post's outcome;
- elapsed time is a `real` parameter.

Files, one module each:

| file | module | models |
|---|---|---|
| errors.dfy | `Errors` | the error enum `SpeedTestError` (Network, Io, InvalidResponse, Aborted), `Result`, `Option` |
| transport.dfy | `Transport` | status codes, chunk results, and the two client operations as functions of an `Exchange` |
| measurement.dfy | `Measurement` | the rate `bytes * 8 / (seconds * 1,000,000)` and the zero-duration guard that both testers share |
| download_tester.dfy | `Download` | the tester's builders, the chunk-consuming loop (a `while` loop over the stream), and its specification |
| upload_tester.dfy | `Upload` | the in-place payload fill on an `array`, the ordered status, duration and rate checks |
| speed_service.dfy | `Speed` | `SpeedResult` and the merge of the two tester results |

The download loop is written as in the source. It keeps a running count
`downloaded`, a progress checkpoint `lastPrint`, breaks at the cap and
returns early on a read failure. `Download.Test` is proved equal to the
function `Download.DownloadOutcome`. That function is built from
`Download.Consume`, which says how consumption of a stream ends:

- `Failed` at a read failure;
- `Exhausted` at the end of the stream;
- `Capped` right after the chunk that reaches the cap.

The lemmas then characterise each ending in terms of the stream alone. The
loop invariants say that `downloaded` is the total of the chunks consumed
so far, that `lastPrint <= downloaded`, and that
`downloaded - lastPrint < 1,000,000` after every iteration. The subtraction
is assigned to a `nat`, so the proof also shows that the source's unsigned
subtraction never underflows.

Two properties one might expect of the program that it does not have:

- One might expect a mid-stream read failure to report the bytes already read. In the code that count only goes to the error console (src/services/download_tester.rs:45). The returned error is `Network("Stream error: " + <library message>)`, and that is what the model returns.
- One might expect the count to exceed the cap by less than the last chunk. That holds only for a positive cap. With a cap of 0 the first chunk is always consumed and then the loop stops, so `Download.CapOvershoot` states the bound for `cap > 0`.

Error messages built with `format!` become structured values. `Errors.Reason`
is one of `ZeroDuration`, `HttpStatus(code)` (download connection) or
`UploadStatus(code)` (upload endpoint). The source uses these to build its
message text. Network messages keep the source's prefixes ("Failed to
connect: ", "Stream error: ") in front of the library's message, which is an
opaque string.

## Model

| member | source | states |
|---|---|---|
| Transport.GetStream | src/utils/http_client.rs:36-52 | the stream is handed over exactly when a response came back with a 2xx status, and it is the response body; a send failure is a Network error; a non-2xx status is InvalidResponse carrying that status |
| Transport.PostBytes | src/utils/http_client.rs:54-66 | a post returns the status of any response, whatever its class, and a send failure becomes Network with the library's message |
| Measurement.Mbps | src/services/download_tester.rs:75-76 | for positive elapsed time the rate is non-negative, rate × elapsed × 10^6 = bytes × 8, and the rate is zero exactly when no byte was transferred |
| Measurement.RateOrZeroDuration | src/services/download_tester.rs:70-77 | a non-positive elapsed time yields InvalidResponse(ZeroDuration) and nothing else does; otherwise the result is a non-negative rate satisfying rate × elapsed × 10^6 = bytes × 8 |
| Measurement.MbpsMonotoneInBytes | src/services/download_tester.rs:76 | for the same elapsed time, more bytes never give a lower rate |
| Measurement.MbpsAntitoneInElapsed | src/services/download_tester.rs:76 | for the same bytes, a longer elapsed time never gives a higher rate |
| Measurement.DownloadScenario | src/services/download_tester.rs:70-77 | 5,000,000 bytes in 2.0 s is exactly 20 Mbps |
| Measurement.UploadScenario | src/services/upload_tester.rs:58-64 | 1,048,576 bytes in 0.5 s is exactly 16.777216 Mbps |
| Download.New | src/services/download_tester.rs:16-22 | a new tester keeps the given client and url and has no byte cap |
| Download.WithMaxBytes | src/services/download_tester.rs:24-27 | the cap becomes exactly `Some(bytes)`; client and url are unchanged |
| Download.WithMaxBytesLastWins | src/services/download_tester.rs:24-27 | setting the cap twice is the same as setting only the second value |
| Download.EndFromSound | src/services/download_tester.rs:43-68 | each way the loop can end is justified by the stream. `Failed(j, m)`: item j is the read failure m and the loop was still reading there. `Exhausted(b)`: every item was a chunk, the cap was never reached, and b is the stream's total. `Capped(k, b)`: the loop was still reading before item k, item k is a chunk, b is the total of the first k items, and b reaches the cap |
| Download.FailsAtFirstReachedError | src/services/download_tester.rs:43-47 | if the loop is still reading when it meets a read failure, consumption ends there with that failure's message |
| Download.ExhaustedWhenNeverStopped | src/services/download_tester.rs:43-48 | if the loop is still reading after the last item, consumption ends `Exhausted` with the stream's total byte count |
| Download.CappedAtFirstReach | src/services/download_tester.rs:62-67 | consumption stops right after the first chunk whose running total reaches the cap, with that running total as the count |
| Download.UncappedReadsAll | src/services/download_tester.rs:43-68 | with no cap and no read failure, every chunk is consumed and the count is the total length of the stream |
| Download.UncappedFailureAborts | src/services/download_tester.rs:44-47 | with no cap, a stream holding a read failure always aborts, at or before that failure |
| Download.CapOvershoot | src/services/download_tester.rs:62-67 | when the cap stops reading, the count is the total of the consumed prefix and is at least the cap; the last consumed item is a chunk; for a positive cap the count minus that chunk's length is below the cap |
| Download.DownloadOutcome | src/services/download_tester.rs:32-78 | an open-stream error is returned unchanged. A read failure reached by the loop gives Network("Stream error: …"). Otherwise a non-positive duration gives InvalidResponse(ZeroDuration). A rate is returned exactly when the stream opened, no read failure was reached and the time is positive; it is non-negative and equals the bytes actually consumed × 8 / (elapsed × 10^6), not the cap |
| Download.RejectedStatusCountsNothing | src/services/download_tester.rs:34 | a non-2xx answer to the download request fails with InvalidResponse carrying the status, whatever the body and the timing |
| Download.MidStreamFailureGivesNoRate | src/services/download_tester.rs:44-47 | with no cap, a read failure after any number of good chunks is a Network error and no rate |
| Download.Test | src/services/download_tester.rs:32-78 | the loop with its running count and progress checkpoint returns exactly `DownloadOutcome` for the tester's cap, the stream and the elapsed time |
| Upload.New | src/services/upload_tester.rs:17-23 | a new tester keeps the given client, url and payload size |
| Upload.GeneratePayload | src/services/upload_tester.rs:34-43 | the payload is a newly allocated buffer of exactly the configured length, and byte i is i mod 256 |
| Upload.PayloadPeriodic | src/services/upload_tester.rs:39-41 | the payload repeats with period 256 |
| Upload.PayloadHasEveryByte | src/services/upload_tester.rs:39-41 | a payload of at least 256 bytes contains every byte value |
| Upload.UploadOutcome | src/services/upload_tester.rs:47-64 | a transport error is returned unchanged. A non-2xx status gives InvalidResponse(UploadStatus(status)) whatever the elapsed time. Only after a 2xx status does a non-positive duration give InvalidResponse(ZeroDuration). A rate is returned exactly when the status is 2xx and the time is positive; it is non-negative and equals the configured size × 8 / (elapsed × 10^6) |
| Upload.SendFailureIsNetwork | src/services/upload_tester.rs:47 | a post that fails at the transport level ends the upload with Network carrying the library's message, whatever the size and the timing |
| Upload.RateIgnoresWhichSuccess | src/services/upload_tester.rs:62-64 | the reported rate depends only on the configured size and elapsed time: any two 2xx statuses give the same result |
| Upload.Test | src/services/upload_tester.rs:28-65 | generating the payload, posting it and the ordered checks return exactly `UploadOutcome` for the configured size, the outcome of posting the generated payload, and the elapsed time |
| Speed.Merge | src/services/speed_service.rs:27-33 | a result exists exactly when both sides succeeded, and then it carries both rates unchanged. A download error is returned whatever the upload result is. An upload error is returned when the download succeeded |
| Speed.Run | src/services/speed_service.rs:23-34 | running both testers gives `Merge` of their outcomes, and a returned result has both rates non-negative |

## Left out

- Concurrency: `tokio::join!` and the async suspension points are not modelled. `Speed.Run` calls the two testers one after the other, since neither reads or changes anything the other uses, and merges their completed results.
- Clock: `Instant` timing is not modelled. Each test's elapsed time is a parameter and is not tied to the stream or the post.
- Progress output: the console output is not modelled, and neither is the rate printed at each progress checkpoint, which reads the clock mid-loop. The checkpoint variable itself is kept as loop state of `Download.Test`.
- Floating point: IEEE-754 rounding of the Mbps value is not modelled. Rates are exact `real` numbers.
- Integer widths: `usize` overflow of the running byte count, of the cap and of the payload size is not modelled. Counts are unbounded `nat`s, and a 64-bit counter cannot realistically overflow here.
- Transport: the HTTP library itself (client construction, user agent, connect and idle timeouts, TLS, connection pooling) is not modelled. Only its outcomes are inputs, via `Transport.Exchange` and the `send` function. Chunk contents are not kept, only their lengths.
- Error text: message strings are replaced by structured reasons, and the library's error messages are opaque strings.
- `SpeedService::new` is the datatype constructor `Speed.SpeedService`. The `SpeedTester` interface is replaced by the two concrete tester types that the command-line entry point wires in.
- Command line: argument parsing, printing and wiring in src/main.rs are not modelled. Its constants (a download cap of 10,000,000 bytes, an upload size of `upload_mb * 1024 * 1024`) are ordinary inputs to `Download.WithMaxBytes` and `Upload.New`.
- The `Io` and `Aborted` error kinds exist in the datatype but are produced nowhere, as in the source.
