/** The download tester: stream a response body, count its bytes, stop at
    an optional cap, and turn the count into a rate. The stream is the
    sequence of chunk results the transport yields and the elapsed time
    is a parameter. */
module Download {
  import opened Errors
  import opened Transport
  import opened Measurement

  /** Byte interval between two progress checkpoints. */
  const ProgressStep: nat := 1_000_000

  datatype DownloadTester = DownloadTester(client: HttpClient, url: string, maxBytes: Option<nat>)

  /** A tester that streams until the server closes the connection. */
  function New(client: HttpClient, url: string): (t: DownloadTester)
    ensures t.client == client && t.url == url
    ensures t.maxBytes == None
  {
    DownloadTester(client, url, None)
  }

  /** The same tester with its byte cap set to `bytes`. */
  function WithMaxBytes(t: DownloadTester, bytes: nat): (r: DownloadTester)
    ensures r.maxBytes == Some(bytes)
    ensures r.client == t.client && r.url == t.url
  {
    t.(maxBytes := Some(bytes))
  }

  /** Setting the cap twice keeps only the last value. */
  lemma WithMaxBytesLastWins(t: DownloadTester, a: nat, b: nat)
    ensures WithMaxBytes(WithMaxBytes(t, a), b) == WithMaxBytes(t, b)
  {
  }

  /* ---------------- Byte accounting over a stream ---------------- */

  /** Bytes carried by one item of the stream (a failed read carries none). */
  function Size(c: ChunkResult): nat {
    if c.Chunk? then c.len else 0
  }

  /** Bytes carried by all items of `chunks`. */
  function Total(chunks: seq<ChunkResult>): nat {
    if chunks == [] then 0 else Total(chunks[..|chunks| - 1]) + Size(chunks[|chunks| - 1])
  }

  lemma TotalStep(chunks: seq<ChunkResult>, i: nat)
    requires i < |chunks|
    ensures Total(chunks[..i + 1]) == Total(chunks[..i]) + Size(chunks[i])
  {
    assert chunks[..i + 1][..i] == chunks[..i];
  }

  /** A longer prefix never carries fewer bytes. */
  lemma {:induction false} TotalMonotone(chunks: seq<ChunkResult>, i: nat, j: nat)
    requires i <= j <= |chunks|
    ensures Total(chunks[..i]) <= Total(chunks[..j])
    decreases j - i
  {
    if i < j {
      TotalStep(chunks, j - 1);
      TotalMonotone(chunks, i, j - 1);
    }
  }

  /** With a cap configured, whether `downloaded` has reached it. */
  predicate CapReached(cap: Option<nat>, downloaded: nat) {
    cap.Some? && downloaded >= cap.value
  }

  /** After consuming the first `j` items the loop asks for another one:
      every item so far was a chunk, and the cap was not reached after
      any of them (checking the last suffices, since totals only grow). */
  predicate ReadsOn(chunks: seq<ChunkResult>, cap: Option<nat>, j: nat)
    requires j <= |chunks|
  {
    (forall i :: 0 <= i < j ==> chunks[i].Chunk?) &&
    (j == 0 || !CapReached(cap, Total(chunks[..j])))
  }

  /** How consumption of a stream ends. */
  datatype StreamEnd =
    | Failed(at: nat, message: string)   // item `at` was a read failure
    | Exhausted(bytes: nat)              // the stream ended
    | Capped(count: nat, bytes: nat)     // the cap was reached after `count` items

  /** Consumption from item `i` on, the first `i` items being consumed. */
  function EndFrom(chunks: seq<ChunkResult>, cap: Option<nat>, i: nat): StreamEnd
    requires i <= |chunks|
    decreases |chunks| - i
  {
    if i == |chunks| then Exhausted(Total(chunks))
    else match chunks[i]
      case ChunkError(m) => Failed(i, m)
      case Chunk(_) =>
        if CapReached(cap, Total(chunks[..i + 1])) then Capped(i + 1, Total(chunks[..i + 1]))
        else EndFrom(chunks, cap, i + 1)
  }

  /** How consuming the whole stream with cap `cap` ends. */
  function Consume(chunks: seq<ChunkResult>, cap: Option<nat>): StreamEnd {
    EndFrom(chunks, cap, 0)
  }

  /** What each way of ending means about the stream. */
  lemma {:induction false} EndFromSound(chunks: seq<ChunkResult>, cap: Option<nat>, i: nat)
    requires i <= |chunks| && ReadsOn(chunks, cap, i)
    ensures var e := EndFrom(chunks, cap, i);
      match e
      case Failed(j, m) =>
        i <= j < |chunks| && ReadsOn(chunks, cap, j) && chunks[j] == ChunkError(m)
      case Exhausted(b) =>
        ReadsOn(chunks, cap, |chunks|) && b == Total(chunks)
      case Capped(k, b) =>
        i < k <= |chunks| && ReadsOn(chunks, cap, k - 1) && chunks[k - 1].Chunk? &&
        b == Total(chunks[..k]) && CapReached(cap, b)
    decreases |chunks| - i
  {
    if i < |chunks| && chunks[i].Chunk? {
      TotalStep(chunks, i);
      if !CapReached(cap, Total(chunks[..i + 1])) {
        assert ReadsOn(chunks, cap, i + 1);
        EndFromSound(chunks, cap, i + 1);
      }
    } else if i == |chunks| {
      assert chunks[..|chunks|] == chunks;
    }
  }

  /** While the loop reads on past item `j`, starting anywhere before
      `j` ends the same way as starting at `j`. */
  lemma {:induction false} EndFromSkip(chunks: seq<ChunkResult>, cap: Option<nat>, i: nat, j: nat)
    requires i <= j <= |chunks| && ReadsOn(chunks, cap, j)
    ensures EndFrom(chunks, cap, i) == EndFrom(chunks, cap, j)
    decreases j - i
  {
    if i < j {
      assert chunks[i].Chunk?;
      TotalMonotone(chunks, i + 1, j);
      EndFromSkip(chunks, cap, i + 1, j);
    }
  }

  /** Every run ends in exactly the state its stream dictates: */

  /** a read failure reached by the loop aborts there, */
  lemma FailsAtFirstReachedError(chunks: seq<ChunkResult>, cap: Option<nat>, j: nat)
    requires j < |chunks| && ReadsOn(chunks, cap, j) && chunks[j].ChunkError?
    ensures Consume(chunks, cap) == Failed(j, chunks[j].message)
  {
    EndFromSkip(chunks, cap, 0, j);
  }

  /** a stream read to its end yields its total, */
  lemma ExhaustedWhenNeverStopped(chunks: seq<ChunkResult>, cap: Option<nat>)
    requires ReadsOn(chunks, cap, |chunks|)
    ensures Consume(chunks, cap) == Exhausted(Total(chunks))
  {
    EndFromSkip(chunks, cap, 0, |chunks|);
  }

  /** and the cap stops consumption right after the chunk that reaches it. */
  lemma CappedAtFirstReach(chunks: seq<ChunkResult>, cap: Option<nat>, k: nat)
    requires 0 < k <= |chunks| && ReadsOn(chunks, cap, k - 1) && chunks[k - 1].Chunk?
    requires CapReached(cap, Total(chunks[..k]))
    ensures Consume(chunks, cap) == Capped(k, Total(chunks[..k]))
  {
    EndFromSkip(chunks, cap, 0, k - 1);
  }

  /** Without a cap and without read failures every chunk is consumed. */
  lemma UncappedReadsAll(chunks: seq<ChunkResult>)
    requires forall i :: 0 <= i < |chunks| ==> chunks[i].Chunk?
    ensures Consume(chunks, None) == Exhausted(Total(chunks))
  {
    ExhaustedWhenNeverStopped(chunks, None);
  }

  /** Without a cap, a stream with any read failure aborts at its first one. */
  lemma UncappedFailureAborts(chunks: seq<ChunkResult>, j: nat)
    requires j < |chunks| && chunks[j].ChunkError?
    ensures Consume(chunks, None).Failed?
    ensures Consume(chunks, None).at <= j
  {
    EndFromSound(chunks, None, 0);
    assert !ReadsOn(chunks, None, |chunks|) by {
      assert !chunks[j].Chunk?;
    }
  }

  /** When the cap stops consumption, the count has reached the cap and
      exceeds it by less than the last chunk (unless the cap is zero,
      when the first chunk is always consumed). */
  lemma CapOvershoot(chunks: seq<ChunkResult>, cap: Option<nat>)
    requires Consume(chunks, cap).Capped?
    ensures var e := Consume(chunks, cap);
      0 < e.count <= |chunks| && cap.Some? &&
      e.bytes >= cap.value &&
      e.bytes == Total(chunks[..e.count]) &&
      chunks[e.count - 1].Chunk? &&
      (cap.value > 0 ==> e.bytes - chunks[e.count - 1].len < cap.value)
  {
    var e := Consume(chunks, cap);
    EndFromSound(chunks, cap, 0);
    TotalStep(chunks, e.count - 1);
  }

  /** What the download test returns for the given open-stream outcome,
      cap and elapsed time. */
  function DownloadOutcome(cap: Option<nat>, resp: Result<seq<ChunkResult>>, elapsed: real): (r: Result<real>)
    ensures resp.Err? ==> r == Err(resp.error)
    ensures resp.Ok? && Consume(resp.value, cap).Failed? ==>
              r == Err(Network("Stream error: " + Consume(resp.value, cap).message))
    ensures resp.Ok? && !Consume(resp.value, cap).Failed? && elapsed <= 0.0 ==>
              r == Err(InvalidResponse(ZeroDuration))
    ensures r.Ok? <==> resp.Ok? && !Consume(resp.value, cap).Failed? && elapsed > 0.0
    ensures r.Ok? ==>
              r.value >= 0.0 &&
              r.value * (elapsed * BitsPerMegabit) == Consume(resp.value, cap).bytes as real * BitsPerByte
  {
    match resp
    case Err(e) => Err(e)
    case Ok(chunks) =>
      var end := Consume(chunks, cap);
      if end.Failed? then Err(Network("Stream error: " + end.message))
      else RateOrZeroDuration(end.bytes, elapsed)
  }

  /** A non-2xx answer to the download request fails before any byte is
      counted, whatever the body and the timing. */
  lemma RejectedStatusCountsNothing(cap: Option<nat>, status: StatusCode, body: seq<ChunkResult>, elapsed: real)
    requires !IsSuccess(status)
    ensures DownloadOutcome(cap, GetStream(Answered(Response(status, body))), elapsed)
            == Err(InvalidResponse(HttpStatus(status)))
  {
  }

  /** A read failure after some chunks, with no cap in the way, is a
      Network error and no rate, whatever the timing. */
  lemma MidStreamFailureGivesNoRate(chunks: seq<ChunkResult>, j: nat, elapsed: real)
    requires j < |chunks| && chunks[j].ChunkError?
    requires forall i :: 0 <= i < j ==> chunks[i].Chunk?
    ensures DownloadOutcome(None, Ok(chunks), elapsed) == Err(Network("Stream error: " + chunks[j].message))
  {
    FailsAtFirstReachedError(chunks, None, j);
  }

  /** The download test: open the stream, read it chunk by chunk keeping
      a running byte count and a progress checkpoint, stop at the cap,
      then reject a non-positive duration or compute the rate. */
  method Test(t: DownloadTester, resp: Result<seq<ChunkResult>>, elapsed: real) returns (r: Result<real>)
    ensures r == DownloadOutcome(t.maxBytes, resp, elapsed)
  {
    if resp.Err? {
      return Err(resp.error);
    }
    var stream := resp.value;
    var downloaded: nat := 0;
    var lastPrint: nat := 0;
    var i := 0;
    while i < |stream|
      invariant i <= |stream|
      invariant ReadsOn(stream, t.maxBytes, i)
      invariant EndFrom(stream, t.maxBytes, i) == Consume(stream, t.maxBytes)
      invariant downloaded == Total(stream[..i])
      invariant lastPrint <= downloaded && downloaded - lastPrint < ProgressStep
    {
      var item := stream[i];
      if item.ChunkError? {
        return Err(Network("Stream error: " + item.message));
      }
      TotalStep(stream, i);
      downloaded := downloaded + item.len;
      ghost var previous := lastPrint;
      var sinceCheckpoint: nat := downloaded - lastPrint;
      if sinceCheckpoint >= ProgressStep {
        lastPrint := downloaded;
      }
      assert previous <= lastPrint;
      i := i + 1;
      if t.maxBytes.Some? && downloaded >= t.maxBytes.value {
        break;
      }
    }
    assert i == |stream| ==> stream[..i] == stream;
    if elapsed <= 0.0 {
      return Err(InvalidResponse(ZeroDuration));
    }
    r := Ok(Mbps(downloaded, elapsed));
  }
}
