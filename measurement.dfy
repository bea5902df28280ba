/** The rate both testers report: bytes * 8 / (seconds * 1,000,000),
    guarded against a zero or negative elapsed time. Real arithmetic
    stands in for the source's 64-bit floating point. */
module Measurement {
  import opened Errors

  const BitsPerByte: real := 8.0
  const BitsPerMegabit: real := 1_000_000.0

  /** Megabits per second for `bytes` transferred in `elapsed` seconds. */
  function Mbps(bytes: nat, elapsed: real): (rate: real)
    requires elapsed > 0.0
    ensures rate >= 0.0
    ensures rate * (elapsed * BitsPerMegabit) == bytes as real * BitsPerByte
    ensures rate == 0.0 <==> bytes == 0
  {
    (bytes as real * BitsPerByte) / (elapsed * BitsPerMegabit)
  }

  /** The duration guard followed by the rate: an elapsed time that is
      not strictly positive is rejected, never reported as a rate. */
  function RateOrZeroDuration(bytes: nat, elapsed: real): (r: Result<real>)
    ensures r.Err? <==> elapsed <= 0.0
    ensures r.Err? ==> r.error == InvalidResponse(ZeroDuration)
    ensures r.Ok? ==> r.value >= 0.0 && r.value * (elapsed * BitsPerMegabit) == bytes as real * BitsPerByte
  {
    if elapsed <= 0.0 then Err(InvalidResponse(ZeroDuration))
    else Ok(Mbps(bytes, elapsed))
  }

  /** More bytes in the same time is a higher rate. */
  lemma MbpsMonotoneInBytes(b1: nat, b2: nat, elapsed: real)
    requires elapsed > 0.0 && b1 <= b2
    ensures Mbps(b1, elapsed) <= Mbps(b2, elapsed)
  {
  }

  /** The same bytes over a longer time is a lower rate. */
  lemma MbpsAntitoneInElapsed(bytes: nat, e1: real, e2: real)
    requires 0.0 < e1 <= e2
    ensures Mbps(bytes, e2) <= Mbps(bytes, e1)
  {
    QuotientAntitone(bytes as real * BitsPerByte, e1 * BitsPerMegabit, e2 * BitsPerMegabit);
  }

  lemma QuotientAntitone(c: real, d1: real, d2: real)
    requires c >= 0.0 && 0.0 < d1 <= d2
    ensures c / d2 <= c / d1
  {
  }

  /** 5,000,000 bytes in 2 seconds is 20 Mbps. */
  lemma DownloadScenario()
    ensures RateOrZeroDuration(5_000_000, 2.0) == Ok(20.0)
  {
  }

  /** 1 MiB in half a second is 16.777216 Mbps. */
  lemma UploadScenario()
    ensures RateOrZeroDuration(1_048_576, 0.5) == Ok(16.777216)
  {
  }
}
