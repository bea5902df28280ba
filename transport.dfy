/** The transport capability the testers depend on. The HTTP library is
    not modelled: what the network does is an input value (an Exchange),
    and the two client operations are the functions that turn that
    input into what the testers see. */
module Transport {
  import opened Errors

  /** An HTTP status code as the HTTP library represents it. */
  type StatusCode = s: int | 100 <= s <= 999 witness 200

  /** The 2xx class. */
  predicate IsSuccess(s: StatusCode) {
    200 <= s <= 299
  }

  /** One item of a streamed response body: a chunk of `len` bytes, or a
      read failure with the library's message. Chunk contents do not
      affect any measurement, so only lengths are kept. */
  datatype ChunkResult = Chunk(len: nat) | ChunkError(message: string)

  /** A received response: its status and its body as a finite stream. */
  datatype Response = Response(status: StatusCode, body: seq<ChunkResult>)

  /** What sending one request did: a response came back, or the request
      failed at the transport level with the library's message. */
  datatype Exchange = Answered(response: Response) | SendFailed(message: string)

  /** The shared handle to the transport. Its behaviour is given by the
      Exchange values passed to the testers; only its identity is kept. */
  datatype HttpClient = HttpClient(id: nat)

  /** Opening a download stream: a send failure is a Network error, a
      non-2xx status is an InvalidResponse carrying the status, and only
      a 2xx response hands its body to the caller. */
  function GetStream(x: Exchange): (r: Result<seq<ChunkResult>>)
    ensures r.Ok? <==> x.Answered? && IsSuccess(x.response.status)
    ensures r.Ok? ==> r.value == x.response.body
    ensures x.SendFailed? ==> r.Err? && r.error.Network?
    ensures x.Answered? && !IsSuccess(x.response.status) ==>
              r == Err(InvalidResponse(HttpStatus(x.response.status)))
  {
    match x
    case SendFailed(m) => Err(Network("Failed to connect: " + m))
    case Answered(resp) =>
      if IsSuccess(resp.status) then Ok(resp.body)
      else Err(InvalidResponse(HttpStatus(resp.status)))
  }

  /** Posting a body: a send failure is a Network error with the
      library's message; otherwise the status is returned whatever it is,
      and judging it is left to the caller. */
  function PostBytes(x: Exchange): (r: Result<StatusCode>)
    ensures r.Ok? <==> x.Answered?
    ensures r.Ok? ==> r.value == x.response.status
    ensures x.SendFailed? ==> r == Err(Network(x.message))
  {
    match x
    case SendFailed(m) => Err(Network(m))
    case Answered(resp) => Ok(resp.status)
  }
}
