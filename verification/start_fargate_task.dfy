/** The Lambda handler that starts a Fargate task (dash/start_fargate_task.py).
    Its configuration comes from the environment when EventBridge triggers
    it and from the event otherwise; ECS `run_task` is a parameter of the
    handler, and the JSON body is a datatype. */
module StartFargateTask {
  import opened Collections
  import opened Text

  const EventBridgeSource := "aws.events"
  const DefaultAssignPublicIp := "DISABLED"
  const FargateLaunchType := "FARGATE"
  const MissingParameters := "Missing required parameters: cluster, taskDefinition, or subnets"
  /** `str(e)` of the KeyError raised when a response has no `tasks`. */
  const MissingTasks := "'tasks'"

  /** The keys of the invocation event the handler reads. */
  datatype Event = Event(
    source: Option<string>,
    cluster: Option<string>,
    taskDefinition: Option<string>,
    subnets: Option<seq<string>>,
    securityGroups: Option<seq<string>>,
    assignPublicIp: Option<string>)

  /** The environment variables the handler reads. */
  datatype Environment = Environment(
    ecsCluster: Option<string>,
    taskDefinition: Option<string>,
    subnets: Option<string>,
    securityGroups: Option<string>,
    assignPublicIp: Option<string>)

  /** The configuration the handler settles on before validating it. */
  datatype Params = Params(
    cluster: Option<string>,
    taskDefinition: Option<string>,
    subnets: seq<string>,
    securityGroups: seq<string>,
    assignPublicIp: string)

  datatype RunTaskRequest = RunTaskRequest(
    cluster: string,
    taskDefinition: string,
    launchType: string,
    subnets: seq<string>,
    securityGroups: seq<string>,
    assignPublicIp: string,
    count: int)

  datatype Task = Task(taskArn: string)
  datatype Failure = Failure(arn: Option<string>, reason: Option<string>)
  datatype RunTaskResponse = RunTaskResponse(tasks: Option<seq<Task>>, failures: Option<seq<Failure>>)

  /** The JSON body: started, not started (with ECS's failures), or an error. */
  datatype Body = Started(taskArn: string) | NotStarted(failures: seq<Failure>) | Error(message: string)
  datatype Response = Response(statusCode: int, body: Body)

  /** The run_task request made, if any, and the response returned. */
  datatype Invocation = Invocation(request: Option<RunTaskRequest>, response: Response)

  /** The EventBridge branch is taken when the event's `source` is `aws.events`. */
  predicate FromEventBridge(event: Event) {
    event.source == Some(EventBridgeSource)
  }

  predicate NonEmpty(s: string) {
    s != ""
  }

  /** `[p for p in s.split(',') if p]`: the non-empty pieces, in order and
      with their multiplicities. */
  function CommaList(s: string): (r: seq<string>)
    ensures forall k :: 0 <= k < |r| ==> r[k] != "" && ',' !in r[k]
    ensures forall x :: x in r <==> x in Split(s, ',') && x != ""
    ensures IsSubsequence(r, Split(s, ','))
    ensures forall x :: multiset(r)[x] == if x != "" then multiset(Split(s, ','))[x] else 0
  {
    var pieces := Split(s, ',');
    var r := Filter(pieces, NonEmpty);
    FilterIsSubsequence(pieces, NonEmpty);
    assert forall k :: 0 <= k < |r| ==> r[k] != "" && ',' !in r[k] by {
      forall k | 0 <= k < |r|
        ensures r[k] != "" && ',' !in r[k]
      {
        assert r[k] in r;
        var j :| 0 <= j < |pieces| && pieces[j] == r[k];
      }
    }
    r
  }

  /** A comma-separated variable written from non-empty, comma-free entries
      reads back as exactly those entries, in order. */
  lemma CommaListReadsBack(entries: seq<string>)
    requires forall k :: 0 <= k < |entries| ==> entries[k] != "" && ',' !in entries[k]
    ensures CommaList(Join(entries, ",")) == entries
  {
    if entries == [] {
      assert Split("", ',') == [""];
    } else {
      SplitJoin(entries, ',');
      FilterKeepsAll(entries, NonEmpty);
    }
  }

  /** The configuration the handler uses: environment variables (lists split
      on commas, empty entries dropped) for EventBridge, event keys otherwise;
      `assignPublicIp` falls back to DISABLED in both. */
  function ResolveParams(event: Event, env: Environment): (p: Params)
    ensures FromEventBridge(event) ==>
      && p.cluster == env.ecsCluster && p.taskDefinition == env.taskDefinition
      && p.subnets == CommaList(env.subnets.GetOr("")) && p.securityGroups == CommaList(env.securityGroups.GetOr(""))
      && (forall k :: 0 <= k < |p.subnets| ==> p.subnets[k] != "")
      && (forall k :: 0 <= k < |p.securityGroups| ==> p.securityGroups[k] != "")
    ensures !FromEventBridge(event) ==>
      && p.cluster == event.cluster && p.taskDefinition == event.taskDefinition
      && p.subnets == event.subnets.GetOr([]) && p.securityGroups == event.securityGroups.GetOr([])
    ensures FromEventBridge(event) && env.assignPublicIp.Some? ==> p.assignPublicIp == env.assignPublicIp.value
    ensures !FromEventBridge(event) && event.assignPublicIp.Some? ==> p.assignPublicIp == event.assignPublicIp.value
    ensures p.assignPublicIp == DefaultAssignPublicIp <==>
      (if FromEventBridge(event) then env.assignPublicIp else event.assignPublicIp) in {None, Some(DefaultAssignPublicIp)}
  {
    if FromEventBridge(event) then
      Params(env.ecsCluster, env.taskDefinition,
             CommaList(env.subnets.GetOr("")), CommaList(env.securityGroups.GetOr("")),
             env.assignPublicIp.GetOr(DefaultAssignPublicIp))
    else
      Params(event.cluster, event.taskDefinition,
             event.subnets.GetOr([]), event.securityGroups.GetOr([]),
             event.assignPublicIp.GetOr(DefaultAssignPublicIp))
  }

  /** Python truthiness of an optional string. */
  predicate Truthy(s: Option<string>) {
    s.Some? && s.value != ""
  }

  /** `all([cluster, task_definition, subnets])`; security groups may be empty. */
  predicate Complete(p: Params) {
    Truthy(p.cluster) && Truthy(p.taskDefinition) && p.subnets != []
  }

  /** The `run_task` call the handler makes for a complete configuration. */
  function RequestFor(p: Params): (req: RunTaskRequest)
    requires Complete(p)
    ensures req.launchType == FargateLaunchType && req.count == 1
    ensures Some(req.cluster) == p.cluster && Some(req.taskDefinition) == p.taskDefinition
    ensures req.subnets == p.subnets && req.securityGroups == p.securityGroups && req.assignPublicIp == p.assignPublicIp
  {
    RunTaskRequest(p.cluster.value, p.taskDefinition.value, FargateLaunchType,
                   p.subnets, p.securityGroups, p.assignPublicIp, 1)
  }

  /** The response for what `run_task` returned. */
  function ResponseFor(outcome: Result<RunTaskResponse>): (resp: Response)
    ensures resp.statusCode == 200 <==> outcome.Ok? && outcome.value.tasks.Some? && outcome.value.tasks.value != []
    ensures resp.statusCode == 200 ==> resp.body == Started(outcome.value.tasks.value[0].taskArn)
    ensures resp.statusCode != 200 ==> resp.statusCode == 500
    ensures outcome.Ok? && outcome.value.tasks == Some([]) ==> resp.body == NotStarted(outcome.value.failures.GetOr([]))
    ensures outcome.Err? ==> resp == Response(500, Error(outcome.error))
    ensures outcome.Ok? && outcome.value.tasks.None? ==> resp == Response(500, Error(MissingTasks))
  {
    match outcome
    case Err(e) => Response(500, Error(e))
    case Ok(r) =>
      if r.tasks.None? then Response(500, Error(MissingTasks))
      else if r.tasks.value != [] then Response(200, Started(r.tasks.value[0].taskArn))
      else Response(500, NotStarted(r.failures.GetOr([])))
  }

  /** `lambda_handler`. `runTask` stands for ECS: what it returns for a
      request, or the exception it raises. */
  function LambdaHandler(event: Event, env: Environment, runTask: RunTaskRequest -> Result<RunTaskResponse>): (inv: Invocation)
    ensures inv.response.statusCode == 200 || inv.response.statusCode == 500
    ensures inv.request.Some? <==> Complete(ResolveParams(event, env))
    ensures inv.request.None? ==> inv.response == Response(500, Error(MissingParameters))
    ensures inv.request.Some? ==>
      && inv.request.value == RequestFor(ResolveParams(event, env))
      && inv.request.value.launchType == FargateLaunchType && inv.request.value.count == 1
      && inv.response == ResponseFor(runTask(inv.request.value))
    ensures inv.response.statusCode == 200 <==>
      inv.request.Some? && runTask(inv.request.value).Ok?
      && runTask(inv.request.value).value.tasks.Some? && runTask(inv.request.value).value.tasks.value != []
  {
    var p := ResolveParams(event, env);
    if !Complete(p) then
      Invocation(None, Response(500, Error(MissingParameters)))
    else
      var req := RequestFor(p);
      Invocation(Some(req), ResponseFor(runTask(req)))
  }

  /** A string of `n` separators splits into `n + 1` empty pieces. */
  lemma {:induction false} SplitSeparatorsOnly(n: nat, c: char)
    ensures Split(seq(n, _ => c), c) == seq(n + 1, _ => "")
  {
    if n > 0 {
      var s := seq(n, _ => c);
      assert s[1..] == seq(n - 1, _ => c);
      SplitSeparatorsOnly(n - 1, c);
      assert seq(n + 1, _ => "") == [""] + seq(n, _ => "");
    }
  }

  /** Whatever ECS does, a configuration with an empty subnet list is never
      sent to it; in the EventBridge branch that covers a SUBNETS variable
      made only of commas. */
  lemma OnlyCommasIsMissing(event: Event, env: Environment, runTask: RunTaskRequest -> Result<RunTaskResponse>, n: nat)
    requires FromEventBridge(event)
    requires env.subnets == Some(seq(n, _ => ','))
    ensures LambdaHandler(event, env, runTask) == Invocation(None, Response(500, Error(MissingParameters)))
  {
    SplitSeparatorsOnly(n, ',');
  }
}
