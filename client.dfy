/**
 * The recognition client's configuration and the requests it builds: the
 * Authorization header, the audio URL (with its credential guard), the
 * submission body, the status-query body, and the extraction of the task
 * handle from the submission reply.
 */
module Client {
  import opened Wrappers
  import opened Wire

  const ServiceUrl: string := "https://openspeech.bytedance.com/api/v1/auc"
  const BearerPrefix: string := "Bearer; "
  const RawHost: string := "https://raw.githubusercontent.com/"
  const BranchSegment: string := "/main/"
  const AudioFormat: string := "mp4"
  const SpeakerInfoFlag: string := "False"

  /** The client's fields; none of them changes after construction. */
  datatype AsrClient = AsrClient(
    appid: string,
    token: string,
    cluster: string,
    serviceUrl: string,
    authorization: string,
    githubToken: Option<string>,
    githubRepo: Option<string>)

  /** The `app` section of the submission body. */
  datatype App = App(appid: string, token: string, cluster: string)

  /** `{app, user: {uid}, audio: {format, url}, additions: {with_speaker_info}}` */
  datatype SubmitRequest = SubmitRequest(
    app: App,
    uid: string,
    format: string,
    url: string,
    withSpeakerInfo: string)

  /** `{appid, token, id, cluster}` */
  datatype QueryRequest = QueryRequest(appid: string, token: string, id: string, cluster: string)

  /** An observable effect of the client, in the order it happens. */
  datatype Event =
    | Upload(filename: string)
    | PostSubmit(request: SubmitRequest, authorization: string)
    | Sleep(seconds: int)
    | PostQuery(query: QueryRequest, authorization: string)

  /** What a step of the client produced, with the effects it had on the way. */
  datatype Outcome<+T> = Outcome(result: Result<T, AsrError>, trace: seq<Event>)

  /** The Authorization header value: the bearer prefix, then the token, so the token can be read back. */
  function Authorization(token: string): (h: string)
    ensures |h| == |BearerPrefix| + |token|
    ensures h[..|BearerPrefix|] == BearerPrefix
    ensures h[|BearerPrefix|..] == token
  {
    BearerPrefix + token
  }

  /** The constructor: the three credentials and the GitHub settings are kept as given. */
  function NewClient(appid: string, token: string, cluster: string,
                     githubToken: Option<string>, githubRepo: Option<string>): (c: AsrClient)
    ensures c.appid == appid && c.token == token && c.cluster == cluster
    ensures c.githubToken == githubToken && c.githubRepo == githubRepo
    ensures c.serviceUrl == ServiceUrl
    ensures c.authorization == Authorization(token)
  {
    AsrClient(appid, token, cluster, ServiceUrl, Authorization(token), githubToken, githubRepo)
  }

  /** Python truthiness of an optional string: present and not empty. */
  predicate Truthy(s: Option<string>) {
    s.Some? && s.value != ""
  }

  /** The guard that runs before any upload. */
  predicate HasUploadCredentials(c: AsrClient) {
    Truthy(c.githubToken) && Truthy(c.githubRepo)
  }

  /** The raw-content URL of a file on the repository's main branch; each part sits at a fixed offset. */
  function RawUrl(repo: string, filename: string): (u: string)
    ensures |u| == |RawHost| + |repo| + |BranchSegment| + |filename|
    ensures u[..|RawHost|] == RawHost
    ensures u[|RawHost|..|RawHost| + |repo|] == repo
    ensures u[|RawHost| + |repo|..|RawHost| + |repo| + |BranchSegment|] == BranchSegment
    ensures u[|RawHost| + |repo| + |BranchSegment|..] == filename
  {
    RawHost + repo + BranchSegment + filename
  }

  /** The URL the service fetches the audio from; fails before anything else without upload credentials. */
  function AudioUrl(c: AsrClient, filename: string): (r: Result<string, AsrError>)
    ensures r.Err? <==> !HasUploadCredentials(c)
    ensures r.Err? ==> r.error == MissingUploadCredentials
    ensures r.Ok? ==> r.value == RawUrl(c.githubRepo.value, filename)
  {
    if !Truthy(c.githubToken) || !Truthy(c.githubRepo) then Err(MissingUploadCredentials)
    else Ok(RawUrl(c.githubRepo.value, filename))
  }

  /** The submission body: the client's credentials, the audio location and the fixed options. */
  function SubmitBody(c: AsrClient, uid: string, audioUrl: string): (b: SubmitRequest)
    ensures b.app == App(c.appid, c.token, c.cluster)
    ensures b.uid == uid && b.url == audioUrl
    ensures b.format == "mp4" && b.withSpeakerInfo == "False"
  {
    SubmitRequest(App(c.appid, c.token, c.cluster), uid, AudioFormat, audioUrl, SpeakerInfoFlag)
  }

  /** The status-query body: the same credentials as the submission, plus the task handle. */
  function QueryBody(c: AsrClient, taskId: string): (q: QueryRequest)
    ensures q.id == taskId
    ensures q.appid == c.appid && q.token == c.token && q.cluster == c.cluster
    ensures forall uid, url :: SubmitBody(c, uid, url).app == App(q.appid, q.token, q.cluster)
  {
    QueryRequest(c.appid, c.token, taskId, c.cluster)
  }

  /** `resp_dict['resp']['id']`: the handle exactly as the service sent it. */
  function TaskIdOf(reply: SubmitReply): (r: Result<string, AsrError>)
    ensures r.Ok? <==> reply.resp.Some? && reply.resp.value.id.Some?
    ensures r.Ok? ==> r.value == reply.resp.value.id.value
    ensures r.Err? ==> r.error == MissingKey(if reply.resp.None? then "resp" else "id")
  {
    match reply.resp
    case None => Err(MissingKey("resp"))
    case Some(resp) =>
      match resp.id
      case None => Err(MissingKey("id"))
      case Some(id) => Ok(id)
  }

  /**
   * `submit_task`: resolve the audio URL (upload), post the body, read the
   * handle. Without upload credentials nothing at all happens; otherwise
   * exactly one upload and one submission take place, and the handle is the
   * reply's `resp.id`.
   */
  function SubmitTask(c: AsrClient, filename: string, uid: string, reply: SubmitReply): (o: Outcome<string>)
    ensures !HasUploadCredentials(c) ==> o == Outcome(Err(MissingUploadCredentials), [])
    ensures HasUploadCredentials(c) ==>
      && o.result == TaskIdOf(reply)
      && o.trace == [Upload(filename),
                     PostSubmit(SubmitBody(c, uid, RawUrl(c.githubRepo.value, filename)), c.authorization)]
  {
    match AudioUrl(c, filename)
    case Err(e) => Outcome(Err(e), [])
    case Ok(url) =>
      var body := SubmitBody(c, uid, url);
      Outcome(TaskIdOf(reply), [Upload(filename), PostSubmit(body, c.authorization)])
  }
}
