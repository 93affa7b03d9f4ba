/**
  The remote profile service as the directory sees it: the profile record it
  returns, the reasons a single fetch can fail, and the decision rule that turns
  an HTTP response into a settled outcome (`fetchGitHubUser`).
*/
module GitHub {
  import opened Wrappers
  import Text

  /** The fields of a user record that the directory reads; JSON `null` or absence is `None`. */
  datatype Profile = Profile(
    login: string,
    name: Option<string>,
    avatarUrl: string,
    htmlUrl: string,
    bio: Option<string>,
    publicRepos: Option<int>,
    followers: Option<int>,
    following: Option<int>
  )

  /** Why one fetch was rejected. */
  datatype FetchError =
    | NotFound(username: string)
    | RateLimited
    | BadStatus(username: string, status: int)
    | Transport(message: string)

  /** The text of the `Error` each rejection carries (its `message` property). */
  function Message(e: FetchError): (m: string)
    ensures e.NotFound? ==> |m| > 6 + |e.username| && m[6..6 + |e.username|] == e.username
    ensures e.BadStatus? ==> |m| > 26 + |e.username| && m[26..26 + |e.username|] == e.username
    ensures e.Transport? ==> m == e.message
  {
    match e
    case NotFound(u) => "User \"" + u + "\" not found on GitHub"
    case RateLimited => "GitHub API rate limit exceeded. Please try again later."
    case BadStatus(u, s) => "Failed to fetch data for \"" + u + "\": " + Text.IntToString(s)
    case Transport(m) => m
  }

  /** The response counts as ok when its status lies in 200..299. */
  predicate IsOk(status: int) {
    200 <= status <= 299
  }

  /** The error a non-ok status raises, or `None` when the status is ok. */
  function StatusError(username: string, status: int): (r: Option<FetchError>)
    ensures r.None? <==> IsOk(status)
    ensures r == Some(NotFound(username)) <==> status == 404
    ensures r == Some(RateLimited) <==> status == 403
    ensures (r.Some? && r.value.BadStatus?) <==> (!IsOk(status) && status != 404 && status != 403)
    ensures r.Some? && r.value.BadStatus? ==> r.value == BadStatus(username, status)
    ensures r.Some? ==> !r.value.Transport?
  {
    if IsOk(status) then None
    else if status == 404 then Some(NotFound(username))
    else if status == 403 then Some(RateLimited)
    else Some(BadStatus(username, status))
  }

  /** What `fetch` delivered: a network failure, or a status with a body that may fail to parse. */
  datatype Response =
    | NetworkFailure(message: string)
    | HttpResponse(status: int, body: Result<Profile, string>)

  /** A settled promise: `fulfilled` with a value or `rejected` with a reason. */
  datatype Settled<+T> = Fulfilled(value: T) | Rejected(reason: FetchError)

  /** The settled outcome of fetching one username's profile. */
  function FetchUser(username: string, response: Response): (r: Settled<Profile>)
    ensures r.Fulfilled? <==> response.HttpResponse? && IsOk(response.status) && response.body.Success?
    ensures r.Fulfilled? ==> r.value == response.body.value
    ensures response.HttpResponse? && !IsOk(response.status) ==>
              r == Rejected(StatusError(username, response.status).value)
    ensures response.NetworkFailure? ==> r == Rejected(Transport(response.message))
    ensures response.HttpResponse? && IsOk(response.status) && response.body.Failure? ==>
              r == Rejected(Transport(response.body.error))
  {
    match response
    case NetworkFailure(m) => Rejected(Transport(m))
    case HttpResponse(status, body) =>
      match StatusError(username, status)
      case Some(e) => Rejected(e)
      case None =>
        match body
        case Success(p) => Fulfilled(p)
        case Failure(m) => Rejected(Transport(m))
  }

  /** A bad-status message ends with the status code, which reads back as that status. */
  lemma BadStatusMessageEndsWithStatus(u: string, s: int)
    ensures var m := Message(BadStatus(u, s));
            var t := Text.IntToString(s);
            |m| > |t| && Text.ParseInt(m[|m| - |t|..]) == Some(s)
  {
    var m := Message(BadStatus(u, s));
    var t := Text.IntToString(s);
    assert m[|m| - |t|..] == t;
    Text.IntToStringRoundTrip(s);
  }
}
