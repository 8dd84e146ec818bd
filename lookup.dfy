/**
 * The Asana task lookup and the decision taken on its outcome.
 *
 * The HTTP request itself is an oracle: the model only sees what the
 * request on a task URL comes to. A 2xx response carries the task's
 * `data.completed` flag; a 4xx is thrown by the HTTP client as a
 * `ClientException` carrying the status code and is caught; any other
 * failure (a 5xx, a connection error) is not caught and escapes.
 */
module AsanaLookup {
  import opened Wrappers
  import opened TaskIdExtraction

  /** The task endpoint of the Asana REST API; the task id is appended to it. */
  const TasksEndpoint: string := "https://app.asana.com/api/1.0/tasks/"

  /** The informational line printed for a 403. */
  const NoAccessNote: string := "No access to this task, probably old and removed"

  /** The informational line printed for a completed task. */
  const CompletedNote: string := "Completed!"

  /** What the GET request on a task URL comes to. */
  datatype LookupResult =
    | Success(completed: bool)   // a 2xx response; `completed` is the body's data.completed
    | ClientError(code: int)     // a 4xx, raised as ClientException with the status code
    | OtherFailure               // anything else the HTTP client raises; not caught

  /** The decision on one lookup: whether the mail is selected, whether the failure escapes, and the lines printed. */
  datatype Resolution = Resolution(selected: bool, escapes: bool, notes: seq<string>)

  /** The URL requested for a task id. */
  function TaskUrl(taskId: string): string
  {
    TasksEndpoint + taskId
  }

  /** Reads a task id back out of a task URL; None for a URL outside the task endpoint. */
  function TaskIdOfUrl(url: string): (r: Option<string>)
    ensures r.Some? ==> url == TasksEndpoint + r.value
  {
    if |url| >= |TasksEndpoint| && url[..|TasksEndpoint|] == TasksEndpoint
    then Some(url[|TasksEndpoint|..])
    else None
  }

  /** TaskIdOfUrl inverts TaskUrl. */
  lemma TaskUrlRoundTrip(taskId: string)
    ensures TaskIdOfUrl(TaskUrl(taskId)) == Some(taskId)
  {
    assert TaskUrl(taskId)[..|TasksEndpoint|] == TasksEndpoint;
    assert TaskUrl(taskId)[|TasksEndpoint|..] == taskId;
  }

  /** Different task ids are looked up on different URLs. */
  lemma TaskUrlInjective(a: string, b: string)
    requires TaskUrl(a) == TaskUrl(b)
    ensures a == b
  {
    TaskUrlRoundTrip(a);
    TaskUrlRoundTrip(b);
  }

  /**
   * The URL of an extracted task id is the endpoint followed by digits only,
   * at least one of them, and nothing after them.
   */
  lemma ExtractedTaskUrlShape(body: string, taskId: string)
    requires ExtractTaskId(body) == Some(taskId)
    ensures |TaskUrl(taskId)| > |TasksEndpoint|
    ensures TaskUrl(taskId)[..|TasksEndpoint|] == TasksEndpoint
    ensures forall k :: |TasksEndpoint| <= k < |TaskUrl(taskId)| ==> IsDigit(TaskUrl(taskId)[k])
  {
    var url := TaskUrl(taskId);
    assert url[..|TasksEndpoint|] == TasksEndpoint;
    forall k | |TasksEndpoint| <= k < |url|
      ensures IsDigit(url[k])
    {
      assert url[k] == taskId[k - |TasksEndpoint|];
    }
  }

  /**
   * The decision on a lookup outcome. A client error selects the mail
   * whatever its code, printing the no-access line first for a 403; a
   * successful lookup selects the mail exactly when the task is completed;
   * any other failure escapes without a decision.
   */
  function Resolve(result: LookupResult): (r: Resolution)
    ensures r.selected <==> result.ClientError? || result == Success(true)
    ensures r.escapes <==> result.OtherFailure?
    ensures r.selected ==> !r.escapes
    ensures NoAccessNote in r.notes <==> result == ClientError(403)
    ensures CompletedNote in r.notes <==> result == Success(true)
    ensures |r.notes| == if result == ClientError(403) || result == Success(true) then 1 else 0
  {
    match result
    case ClientError(code) => Resolution(true, false, if code == 403 then [NoAccessNote] else [])
    case Success(completed) => Resolution(completed, false, if completed then [CompletedNote] else [])
    case OtherFailure => Resolution(false, true, [])
  }

  /** The status code of a client error changes the printed lines only, never the decision. */
  lemma ClientErrorCodeOnlyChangesNotes(c1: int, c2: int)
    ensures Resolve(ClientError(c1)).selected && Resolve(ClientError(c2)).selected
    ensures !Resolve(ClientError(c1)).escapes && !Resolve(ClientError(c2)).escapes
    ensures (c1 == 403) == (c2 == 403) ==> Resolve(ClientError(c1)) == Resolve(ClientError(c2))
  {
  }
}
