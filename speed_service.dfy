/** The orchestrator: run both testers and merge their results into one
    speed result or one error. The two tests run concurrently in the
    source; here both results are taken as already available. */
module Speed {
  import opened Errors
  import opened Transport
  import Download
  import Upload

  /** Both measured rates, in megabits per second. */
  datatype SpeedResult = SpeedResult(downloadMbps: real, uploadMbps: real)

  datatype SpeedService = SpeedService(download: Download.DownloadTester, upload: Upload.UploadTester)

  /** Download's error is looked at first, so it wins when both fail; a
      speed result exists only when both sides succeeded. */
  function Merge(d: Result<real>, u: Result<real>): (r: Result<SpeedResult>)
    ensures r.Ok? <==> d.Ok? && u.Ok?
    ensures r.Ok? ==> r.value.downloadMbps == d.value && r.value.uploadMbps == u.value
    ensures d.Err? ==> r == Err(d.error)
    ensures d.Ok? && u.Err? ==> r == Err(u.error)
  {
    match d
    case Err(e) => Err(e)
    case Ok(downloadMbps) =>
      match u
      case Err(e) => Err(e)
      case Ok(uploadMbps) => Ok(SpeedResult(downloadMbps, uploadMbps))
  }

  /** Runs both tests and merges their results. The inputs are what the
      transport does during each test and how long each test takes. */
  method Run(s: SpeedService,
             stream: Result<seq<ChunkResult>>, downloadElapsed: real,
             send: seq<Upload.byte> -> Result<StatusCode>, uploadElapsed: real)
    returns (r: Result<SpeedResult>)
    ensures r == Merge(Download.DownloadOutcome(s.download.maxBytes, stream, downloadElapsed),
                       Upload.UploadOutcome(s.upload.sizeBytes, send(Upload.Payload(s.upload.sizeBytes)), uploadElapsed))
    ensures r.Ok? ==> r.value.downloadMbps >= 0.0 && r.value.uploadMbps >= 0.0
  {
    var d := Download.Test(s.download, stream, downloadElapsed);
    var u := Upload.Test(s.upload, send, uploadElapsed);
    r := Merge(d, u);
  }
}
