/**
 * The records exchanged with the GitHub REST API and the status handling of
 * `fetchGitHubAPI` (lib/github.ts). The network call itself is not modelled:
 * a request becomes a `Request` value and the upstream answer a `Response`
 * value that the caller supplies.
 */
module GitHubTypes {
  import opened Wrappers
  import UrlParams

  datatype IssueState = Open | Closed

  datatype User = User(login: string, avatarUrl: string, htmlUrl: string)

  datatype Label = Label(id: int, name: string, color: string, description: Option<string>)

  /** The provenance that `getIssuesFromRepo` attaches to every issue it returns. */
  datatype Repository = Repository(name: string, fullName: string, htmlUrl: string)

  /**
   * One entry of the issues listing. `pullRequest` stands for the presence of
   * the upstream `pull_request` marker; `repository` is absent on upstream
   * records and filled in by the client. Timestamps are instants as integers.
   */
  datatype Issue = Issue(
    id: int,
    number: int,
    title: string,
    body: string,
    state: IssueState,
    htmlUrl: string,
    createdAt: int,
    updatedAt: int,
    labels: seq<Label>,
    assignee: Option<User>,
    user: User,
    pullRequest: bool,
    repository: Option<Repository>)

  /** A GET against `https://api.github.com` + `path`, with its query parameters in order. */
  datatype Request = Request(path: string, query: seq<UrlParams.Pair>)

  /** The upstream answer: the HTTP status and, on success, the decoded JSON array. */
  datatype Response<T> = Response(status: int, payload: seq<T>)

  /** The four error classes `fetchGitHubAPI` throws for a non-success status. */
  datatype ApiError = NotFound | AuthenticationFailed | Forbidden | UpstreamError(status: int)

  datatype Result<T> = Ok(value: T) | Err(error: ApiError)

  /** `response.ok`: the status is in the 2xx range. */
  predicate IsSuccess(status: int)
  {
    200 <= status <= 299
  }

  /** The status an error class stands for. */
  function StatusOf(e: ApiError): int
  {
    match e
    case NotFound => 404
    case AuthenticationFailed => 401
    case Forbidden => 403
    case UpstreamError(status) => status
  }

  /**
   * The error thrown for a failed response: 404, 401 and 403 have their own
   * class, every other failing status is a generic upstream error. No status
   * is lost: the class gives the status back.
   */
  function ClassifyFailure(status: int): (e: ApiError)
    requires !IsSuccess(status)
    ensures StatusOf(e) == status
    ensures e.UpstreamError? <==> status != 404 && status != 401 && status != 403
  {
    if status == 404 then NotFound
    else if status == 401 then AuthenticationFailed
    else if status == 403 then Forbidden
    else UpstreamError(status)
  }

  /** `fetchGitHubAPI`: the decoded body on success, the classified error otherwise. */
  function FetchGitHubApi<T>(response: Response<T>): (r: Result<seq<T>>)
    ensures r.Ok? <==> IsSuccess(response.status)
    ensures r.Ok? ==> r.value == response.payload
    ensures r.Err? ==> StatusOf(r.error) == response.status
  {
    if IsSuccess(response.status) then Ok(response.payload) else Err(ClassifyFailure(response.status))
  }
}
