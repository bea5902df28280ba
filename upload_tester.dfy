/** The upload tester: build a deterministic payload of the configured
    size, post it once, and judge the outcome in a fixed order: transport
    failure, then status, then duration, then the rate. */
module Upload {
  import opened Errors
  import opened Transport
  import opened Measurement

  newtype byte = b: int | 0 <= b < 256

  datatype UploadTester = UploadTester(client: HttpClient, url: string, sizeBytes: nat)

  function New(client: HttpClient, url: string, sizeBytes: nat): (t: UploadTester)
    ensures t.client == client && t.url == url && t.sizeBytes == sizeBytes
  {
    UploadTester(client, url, sizeBytes)
  }

  /** The payload of `size` bytes: byte `i` is `i mod 256`. */
  function Payload(size: nat): seq<byte> {
    seq(size, i requires 0 <= i => (i % 256) as byte)
  }

  /** A zero-filled buffer of `size` bytes, then overwritten in place with
      the repeating pattern 0, 1, ..., 255, 0, 1, ... */
  method GeneratePayload(size: nat) returns (v: array<byte>)
    ensures fresh(v)
    ensures v.Length == size
    ensures forall i :: 0 <= i < size ==> v[i] as int == i % 256
    ensures v[..] == Payload(size)
  {
    v := new byte[size](_ => 0);
    var i := 0;
    while i < v.Length
      invariant 0 <= i <= v.Length == size
      invariant forall k :: 0 <= k < i ==> v[k] as int == k % 256
    {
      v[i] := (i % 256) as byte;
      i := i + 1;
    }
  }

  /** The pattern repeats every 256 bytes. */
  lemma PayloadPeriodic(size: nat, i: nat)
    requires i + 256 < size
    ensures Payload(size)[i] == Payload(size)[i + 256]
  {
  }

  /** A payload of at least 256 bytes holds every byte value. */
  lemma PayloadHasEveryByte(size: nat, b: byte)
    requires size >= 256
    ensures b in Payload(size)
  {
    assert Payload(size)[b as int] == b;
  }

  /** What the upload test returns for the configured size, the outcome
      of the post and the elapsed time. */
  function UploadOutcome(sizeBytes: nat, posted: Result<StatusCode>, elapsed: real): (r: Result<real>)
    ensures posted.Err? ==> r == Err(posted.error)
    ensures posted.Ok? && !IsSuccess(posted.value) ==> r == Err(InvalidResponse(UploadStatus(posted.value)))
    ensures posted.Ok? && IsSuccess(posted.value) && elapsed <= 0.0 ==> r == Err(InvalidResponse(ZeroDuration))
    ensures r.Ok? <==> posted.Ok? && IsSuccess(posted.value) && elapsed > 0.0
    ensures r.Ok? ==>
              r.value >= 0.0 &&
              r.value * (elapsed * BitsPerMegabit) == sizeBytes as real * BitsPerByte
  {
    match posted
    case Err(e) => Err(e)
    case Ok(status) =>
      if !IsSuccess(status) then Err(InvalidResponse(UploadStatus(status)))
      else RateOrZeroDuration(sizeBytes, elapsed)
  }

  /** The reported rate depends on the configured size and the elapsed
      time only: which 2xx status came back does not matter. */
  lemma RateIgnoresWhichSuccess(sizeBytes: nat, s1: StatusCode, s2: StatusCode, elapsed: real)
    requires IsSuccess(s1) && IsSuccess(s2)
    ensures UploadOutcome(sizeBytes, Ok(s1), elapsed) == UploadOutcome(sizeBytes, Ok(s2), elapsed)
  {
  }

  /** A post that fails at the transport level ends the upload test with
      that Network error; neither status nor duration is looked at. */
  lemma SendFailureIsNetwork(sizeBytes: nat, message: string, elapsed: real)
    ensures UploadOutcome(sizeBytes, PostBytes(SendFailed(message)), elapsed) == Err(Network(message))
  {
  }

  /** The upload test: generate the payload, post it through `send` (the
      transport, taking the body and giving back the post's outcome), then
      check status before duration before computing the rate. */
  method Test(t: UploadTester, send: seq<byte> -> Result<StatusCode>, elapsed: real) returns (r: Result<real>)
    ensures r == UploadOutcome(t.sizeBytes, send(Payload(t.sizeBytes)), elapsed)
  {
    var payload := GeneratePayload(t.sizeBytes);
    var posted := send(payload[..]);
    if posted.Err? {
      return Err(posted.error);
    }
    var status := posted.value;
    if !IsSuccess(status) {
      return Err(InvalidResponse(UploadStatus(status)));
    }
    if elapsed <= 0.0 {
      return Err(InvalidResponse(ZeroDuration));
    }
    r := Ok(Mbps(t.sizeBytes, elapsed));
  }
}
