/** The `Job` record shared by the API server and the web client (both declare
    the same interface), with its optional fields made explicit. */
module Jobs {

  /** An optional value: `None` stands for `undefined`/`null`. */
  datatype Option<T> = None | Some(value: T)

  /** `x || ''`: an absent string reads as the empty string. */
  function OrEmpty(o: Option<string>): (s: string)
    ensures o.Some? ==> s == o.value
    ensures o.None? ==> s == ""
  {
    match o
    case None => ""
    case Some(s) => s
  }

  datatype Job = Job(
    id: string,
    company: string,
    title: string,
    team: Option<string>,
    location: Option<string>,
    posted: Option<string>,
    snippet: Option<string>,
    url: string,
    matchScore: Option<real>,
    matched: bool)

  /** `job.matchScore || 0`: a missing score reads as zero. */
  function ScoreOrZero(job: Job): real
  {
    match job.matchScore
    case None => 0.0
    case Some(x) => x
  }
}
