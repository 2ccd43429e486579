/** The image-transformation route: action dispatch, submission, read-once status checks
    and the background worker's two outcomes, over an in-memory task table that shares
    the credential pool with the rest of the process. */
module TransformRoute {
  import opened Wrappers
  import opened JsStrings
  import opened TokenRecords
  import opened TokenManagement

  type Bytes = seq<bv8>

  const NoTaskIdMessage := "No task ID provided"
  const InvalidActionMessage := "Invalid action"
  const NoImageMessage := "No image file provided"
  /** The 503 text: the service is unavailable because every API quota is used up. */
  const PoolExhaustedMessage := "服务暂时不可用，所有 API 配额已用完，请稍后再试"
  const TaskNotFoundMessage := "Task not found"
  const UnknownErrorMessage := "Unknown error occurred"
  const NoImageUrlMessage := "No valid image URL found in the response"
  const DownloadFailedPrefix := "Failed to download image: "
  const MetadataPhrase := "metadata could not be loaded"
  const FetchFailedPhrase := "fetch failed"
  const ApiConnectionMessage := "API connection failed. Please check API status or try again later."
  const NetworkMessage := "Network connection error. Please check your internet connection."

  datatype TaskStatus = Processing | Completed | Failed

  /** One entry of the task table. */
  datatype Task = Task(status: TaskStatus, result: Option<Bytes>, error: Option<string>, startTime: int, token: string)

  /** The text fields of a submitted form, and its image file if one was attached. */
  datatype Form = Form(fields: map<string, string>, image: Option<Bytes>)

  datatype Response =
    | Accepted(taskId: string)
    | JsonError(code: int, error: string)
    | StillProcessing(elapsedSeconds: int)
    | TaskFailed(error: string)
    | Image(data: Bytes)
    | InvalidState
  {
    function StatusCode(): int
    {
      match this
      case Accepted(_) => 200
      case JsonError(code, _) => code
      case StillProcessing(_) => 200
      case TaskFailed(_) => 500
      case Image(_) => 200
      case InvalidState => 500
    }
  }

  /** `formData.get(name)` read for truthiness: an absent field reads as "". */
  function Field(form: Form, name: string): string
  {
    if name in form.fields then form.fields[name] else ""
  }

  /** The action a form asks for; a missing or empty one is "submit". */
  function ActionName(form: Form): string
  {
    if Field(form, "action") == "" then "submit" else Field(form, "action")
  }

  datatype Action = SubmitAction | CheckAction(taskId: string) | Rejected(response: Response)

  /** `POST`'s dispatch on the form's action. */
  function Dispatch(form: Form): (a: Action)
    ensures a.SubmitAction? <==> ActionName(form) == "submit"
    ensures a.CheckAction? <==> ActionName(form) == "check" && Field(form, "taskId") != ""
    ensures a.CheckAction? ==> a.taskId == Field(form, "taskId")
    ensures a.Rejected? ==> a.response.JsonError? && a.response.StatusCode() == 400
    ensures Field(form, "action") == "" ==> a.SubmitAction?
  {
    var action := ActionName(form);
    if action == "submit" then SubmitAction
    else if action == "check" then
      if Field(form, "taskId") == "" then Rejected(JsonError(400, NoTaskIdMessage))
      else CheckAction(Field(form, "taskId"))
    else Rejected(JsonError(400, InvalidActionMessage))
  }

  /** What the external image service did for one task: produced an image, returned no
      usable image URL, answered the download with a failing HTTP status, or threw (with or
      without a message). */
  datatype Outcome =
    | Generated(image: Bytes)
    | NoImageUrl
    | DownloadFailed(status: int, statusText: string)
    | Threw(message: Option<string>)

  /** The message of the error a failed outcome raises. */
  function ThrownMessage(o: Outcome): (r: Option<string>)
    requires !o.Generated?
    ensures r.None? <==> o == Threw(None)
    ensures o.NoImageUrl? ==> r == Some(NoImageUrlMessage)
    ensures o.DownloadFailed? ==>
      && r.Some? && DownloadFailedPrefix <= r.value && |o.statusText| <= |r.value|
      && r.value[|r.value| - |o.statusText|..] == o.statusText
    ensures o.Threw? ==> r == o.message
  {
    match o
    case NoImageUrl => Some(NoImageUrlMessage)
    case DownloadFailed(status, text) =>
      var m := DownloadFailedPrefix + IntString(status) + " " + text;
      assert m[|m| - |text|..] == text;
      assert m[..|DownloadFailedPrefix|] == DownloadFailedPrefix;
      Some(m)
    case Threw(m) => m
  }

  /** The worker's rewrite of an error message for the client: the metadata phrase takes
      precedence over the fetch phrase, and anything else passes unchanged. */
  function FriendlyMessage(m: Option<string>): (r: Option<string>)
    ensures m.Some? && Contains(m.value, MetadataPhrase) ==> r == Some(ApiConnectionMessage)
    ensures m.Some? && !Contains(m.value, MetadataPhrase) && Contains(m.value, FetchFailedPhrase)
      ==> r == Some(NetworkMessage)
    ensures m.None? || (!Contains(m.value, MetadataPhrase) && !Contains(m.value, FetchFailedPhrase))
      ==> r == m
  {
    if m.Some? && Contains(m.value, MetadataPhrase) then Some(ApiConnectionMessage)
    else if m.Some? && Contains(m.value, FetchFailedPhrase) then Some(NetworkMessage)
    else m
  }

  /** `task.error || 'Unknown error occurred'`. */
  function FailureText(error: Option<string>): (r: string)
    ensures r != ""
    ensures error.Some? && error.value != "" ==> r == error.value
    ensures error.None? || error.value == "" ==> r == UnknownErrorMessage
  {
    if error.None? || error.value == "" then UnknownErrorMessage else error.value
  }

  /** What `handleSubmission` answers and leaves behind, from the pool `pool0` and the table
      `tasks0` it started with; `picked` is the token the pool handed out and `order` the pool
      as sorted for the walk. No image gives a 400 and changes nothing; an empty pool gives
      a 503 and adds no task; otherwise exactly one processing task is added and its token
      started. */
  ghost predicate SubmissionAnswered(form: Form, taskId: string, now: int,
                                     pool0: seq<TokenUsage>, tasks0: map<string, Task>,
                                     resp: Response, pool: seq<TokenUsage>, tasks: map<string, Task>,
                                     picked: Option<string>, order: seq<TokenUsage>)
  {
    && (form.image.None? ==>
          resp == JsonError(400, NoImageMessage) && tasks == tasks0 && pool == pool0)
    && (form.image.Some? ==>
          Sorted(order, now) && multiset(order) == multiset(pool0) && picked == Walk(order, now).picked)
    && (form.image.Some? && picked.None? ==>
          resp == JsonError(503, PoolExhaustedMessage) && tasks == tasks0 && pool == Walk(order, now).pool)
    && (form.image.Some? && picked.Some? ==>
          && resp == Accepted(taskId)
          && tasks == tasks0[taskId := Task(Processing, None, None, now, picked.value)]
          && pool == ForToken(Walk(order, now).pool, picked.value, Start(now)))
  }

  /** What `checkTaskStatus` answers and leaves behind, from the table `tasks0`: an unknown id
      gives a 404; a processing task stays and reports whole elapsed seconds; a failed or
      completed task is reported and deleted. */
  ghost predicate StatusReported(taskId: string, now: int, tasks0: map<string, Task>,
                                 resp: Response, tasks: map<string, Task>)
  {
    && (taskId !in tasks0 ==> resp == JsonError(404, TaskNotFoundMessage) && tasks == tasks0)
    && (taskId in tasks0 && tasks0[taskId].status == Processing ==>
          resp == StillProcessing((now - tasks0[taskId].startTime) / 1000) && tasks == tasks0)
    && (taskId in tasks0 && tasks0[taskId].status == Failed ==>
          resp == TaskFailed(FailureText(tasks0[taskId].error)) && tasks == tasks0 - {taskId})
    && (taskId in tasks0 && tasks0[taskId].status == Completed ==>
          resp.Image? && tasks0[taskId].result == Some(resp.data) && tasks == tasks0 - {taskId})
  }

  /** A finished task is reported once: a second check of the same id finds nothing. */
  lemma ReportedOnce(taskId: string, now1: int, now2: int, tasks0: map<string, Task>,
                     resp1: Response, tasks1: map<string, Task>, resp2: Response, tasks2: map<string, Task>)
    requires StatusReported(taskId, now1, tasks0, resp1, tasks1)
    requires StatusReported(taskId, now2, tasks1, resp2, tasks2)
    requires taskId in tasks0 && tasks0[taskId].status != Processing
    ensures resp2 == JsonError(404, TaskNotFoundMessage) && tasks2 == tasks1
  {
  }

  /** Every processing task holds its own credential: its token is in use in the pool and
      no other processing task has the same token. A completed task has its image. */
  ghost predicate Consistent(pool: seq<TokenUsage>, tasks: map<string, Task>)
  {
    && DistinctTokens(pool)
    && (forall id :: id in tasks && tasks[id].status == Processing ==> Held(pool, tasks[id].token))
    && (forall id, other ::
          id in tasks && other in tasks && id != other
          && tasks[id].status == Processing && tasks[other].status == Processing
          ==> tasks[id].token != tasks[other].token)
    && (forall id :: id in tasks && tasks[id].status == Completed ==> tasks[id].result.Some?)
  }

  /** Sorting and walking the pool, whatever it picks, keeps the invariant. */
  lemma WalkKeepsConsistent(pool: seq<TokenUsage>, order: seq<TokenUsage>, now: int, tasks: map<string, Task>)
    requires Consistent(pool, tasks) && multiset(order) == multiset(pool)
    ensures Consistent(Walk(order, now).pool, tasks)
  {
    PermutationKeepsDistinct(pool, order);
    WalkKeepsTokens(order, now);
    forall id | id in tasks && tasks[id].status == Processing
      ensures Held(Walk(order, now).pool, tasks[id].token)
    {
      WalkKeepsHeld(pool, order, now, tasks[id].token);
    }
  }

  /** Starting a token that no processing task holds, for a new processing task, keeps
      the invariant. */
  lemma StartKeepsConsistent(pool: seq<TokenUsage>, tasks: map<string, Task>, id: string, x: string, now: int)
    requires Consistent(pool, tasks) && id !in tasks && Held(pool, x)
    requires forall other :: other in tasks && tasks[other].status == Processing ==> tasks[other].token != x
    ensures Consistent(ForToken(pool, x, Start(now)), tasks[id := Task(Processing, None, None, now, x)])
  {
    var t2 := tasks[id := Task(Processing, None, None, now, x)];
    StartHolds(pool, x, now);
    ForTokenKeepsDistinct(pool, x, Start(now));
    forall other | other in t2 && t2[other].status == Processing
      ensures Held(ForToken(pool, x, Start(now)), t2[other].token)
    {
      if other != id {
        ForTokenKeepsOthersHeld(pool, x, Start(now), t2[other].token);
      }
    }
  }

  /** Settling a processing task, by finishing or releasing its token, keeps the invariant. */
  lemma SettleKeepsConsistent(pool: seq<TokenUsage>, tasks: map<string, Task>, id: string, op: TokenOp, settled: Task)
    requires Consistent(pool, tasks) && id in tasks && tasks[id].status == Processing
    requires settled.status != Processing && (settled.status == Completed ==> settled.result.Some?)
    ensures Consistent(ForToken(pool, tasks[id].token, op), tasks[id := settled])
  {
    var x := tasks[id].token;
    var t2 := tasks[id := settled];
    ForTokenKeepsDistinct(pool, x, op);
    forall other | other in t2 && t2[other].status == Processing
      ensures Held(ForToken(pool, x, op), t2[other].token)
    {
      ForTokenKeepsOthersHeld(pool, x, op, t2[other].token);
    }
  }

  class Route {
    /** The process-wide credential pool the route draws from. */
    const manager: TokenManager
    /** `processingTasks`, keyed by task id. */
    var tasks: map<string, Task>

    /** The route's invariant, on the shared pool and the task table. */
    ghost predicate Valid()
      reads this, manager.tokens
    {
      Consistent(manager.Pool(), tasks)
    }

    constructor (manager: TokenManager)
      requires DistinctTokens(manager.Pool())
      ensures Valid() && this.manager == manager && tasks == map[]
    {
      this.manager := manager;
      tasks := map[];
    }

    /** `handleSubmission`. `taskId` is the fresh id the source generates. `picked` is the
        token the pool handed out and `order` the pool as sorted for the walk. */
    method HandleSubmission(form: Form, taskId: string, now: int)
      returns (resp: Response, ghost picked: Option<string>, ghost order: seq<TokenUsage>)
      requires Valid() && taskId !in tasks
      modifies this, manager.tokens
      ensures Valid()
      ensures SubmissionAnswered(form, taskId, now, old(manager.Pool()), old(tasks),
                                 resp, manager.Pool(), tasks, picked, order)
      ensures form.image.Some? && picked.Some? ==> !Held(old(manager.Pool()), picked.value)
    {
      picked, order := None, [];
      if form.image.None? {
        resp := JsonError(400, NoImageMessage);
        return;
      }
      ghost var pool0 := manager.Pool();
      var token;
      token, order := manager.GetToken(now);
      picked := token;
      WalkKeepsConsistent(pool0, order, now, tasks);
      if token.None? {
        resp := JsonError(503, PoolExhaustedMessage);
        return;
      }
      var x := token.value;
      WalkPicksUnheld(pool0, order, now);
      ghost var pool1 := manager.Pool();
      StartKeepsConsistent(pool1, tasks, taskId, x, now);
      tasks := tasks[taskId := Task(Processing, None, None, now, x)];
      manager.StartUsingToken(x, now);
      resp := Accepted(taskId);
    }

    /** `checkTaskStatus`: reports a task and deletes it once it has finished (read-once). */
    method CheckTaskStatus(taskId: string, now: int) returns (resp: Response)
      requires Valid()
      modifies this
      ensures Valid() && manager.Pool() == old(manager.Pool())
      ensures resp != InvalidState
      ensures StatusReported(taskId, now, old(tasks), resp, tasks)
    {
      if taskId !in tasks {
        return JsonError(404, TaskNotFoundMessage);
      }
      var task := tasks[taskId];
      if task.status == Processing {
        return StillProcessing((now - task.startTime) / 1000);
      }
      if task.status == Failed {
        tasks := tasks - {taskId};
        return TaskFailed(FailureText(task.error));
      }
      if task.status == Completed && task.result.Some? {
        tasks := tasks - {taskId};
        return Image(task.result.value);
      }
      resp := InvalidState;
    }

    /** `processImageAsync`, taken as one atomic step once the external service has
        answered: success charges the elapsed time and completes the task; any error frees
        the token uncharged and fails the task with the rewritten message. */
    method ProcessImageAsync(taskId: string, outcome: Outcome, now: int)
      requires Valid() && taskId in tasks && tasks[taskId].status == Processing
      modifies this, manager.tokens
      ensures Valid()
      ensures var task := old(tasks)[taskId];
        outcome.Generated? ==>
          && manager.Pool() == ForToken(old(manager.Pool()), task.token, Finish(now - task.startTime))
          && tasks == old(tasks)[taskId := Task(Completed, Some(outcome.image), None, task.startTime, task.token)]
      ensures var task := old(tasks)[taskId];
        !outcome.Generated? ==>
          && manager.Pool() == ForToken(old(manager.Pool()), task.token, Release)
          && tasks == old(tasks)[taskId := Task(Failed, None, FriendlyMessage(ThrownMessage(outcome)), task.startTime, task.token)]
    {
      var task := tasks[taskId];
      ghost var pool0, tasks0 := manager.Pool(), tasks;
      if outcome.Generated? {
        var done := Task(Completed, Some(outcome.image), None, task.startTime, task.token);
        SettleKeepsConsistent(pool0, tasks0, taskId, Finish(now - task.startTime), done);
        manager.FinishUsingToken(task.token, now - task.startTime);
        tasks := tasks[taskId := done];
        assert manager.Pool() == ForToken(pool0, task.token, Finish(now - task.startTime));
      } else {
        var message := FriendlyMessage(ThrownMessage(outcome));
        var failed := Task(Failed, None, message, task.startTime, task.token);
        SettleKeepsConsistent(pool0, tasks0, taskId, Release, failed);
        manager.ReleaseToken(task.token);
        tasks := tasks[taskId := failed];
        assert manager.Pool() == ForToken(pool0, task.token, Release);
      }
    }

    /** `POST`: dispatches on the form's action. `freshId` is the id a submission would get. */
    method Post(form: Form, freshId: string, now: int)
      returns (resp: Response, ghost picked: Option<string>, ghost order: seq<TokenUsage>)
      requires Valid() && freshId !in tasks
      modifies this, manager.tokens
      ensures Valid()
      ensures Dispatch(form).Rejected? ==>
        resp == Dispatch(form).response && tasks == old(tasks) && manager.Pool() == old(manager.Pool())
      ensures Dispatch(form).CheckAction? ==>
        manager.Pool() == old(manager.Pool()) && StatusReported(Dispatch(form).taskId, now, old(tasks), resp, tasks)
      ensures Dispatch(form).SubmitAction? ==>
        SubmissionAnswered(form, freshId, now, old(manager.Pool()), old(tasks), resp, manager.Pool(), tasks, picked, order)
      ensures resp.Accepted? ==>
        resp.taskId == freshId && freshId in tasks && tasks[freshId].status == Processing
        && Held(manager.Pool(), tasks[freshId].token)
    {
      picked, order := None, [];
      match Dispatch(form)
      case SubmitAction =>
        resp, picked, order := HandleSubmission(form, freshId, now);
      case CheckAction(id) =>
        resp := CheckTaskStatus(id, now);
      case Rejected(r) =>
        resp := r;
    }
  }
}
