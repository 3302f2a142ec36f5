/** The RDS monitoring dashboard (dash.py): the database instances of one
    profile flattened into table records with per-field defaults, the
    CloudWatch series of one metric, the recent events of an instance, the
    profile picker and the summary cards. The responses of the cloud calls
    are inputs: `Err` stands for a call that raised. */
module RdsDashboard {
  import opened Collections
  import opened Text

  /** The placeholder shown for a missing text field. */
  const NotAvailable := "N/A"

  /** The `Endpoint` object of a described instance. */
  datatype EndpointInfo = EndpointInfo(address: Option<string>)

  /** One entry of `DBInstances` in a `describe_db_instances` response;
      every key may be missing. */
  datatype DescribedInstance = DescribedInstance(
    identifier: Option<string>,
    engine: Option<string>,
    instanceClass: Option<string>,
    status: Option<string>,
    allocatedStorage: Option<int>,
    endpoint: Option<EndpointInfo>,
    multiAz: Option<bool>,
    publiclyAccessible: Option<bool>)

  /** One row of the instances table: the record the history store persists. */
  datatype InstanceRecord = InstanceRecord(
    identifier: string,
    engine: string,
    instanceClass: string,
    status: string,
    allocatedStorage: int,
    endpoint: string,
    multiAz: bool,
    publiclyAccessible: bool)

  /** The table record of one described instance: present keys are copied,
      missing text becomes "N/A", missing storage 0, missing flags false. */
  function InstanceRecordOf(d: DescribedInstance): (r: InstanceRecord)
    ensures d.identifier.Some? ==> r.identifier == d.identifier.value
    ensures d.identifier.None? ==> r.identifier == NotAvailable
    ensures d.engine.Some? ==> r.engine == d.engine.value
    ensures d.engine.None? ==> r.engine == NotAvailable
    ensures d.instanceClass.Some? ==> r.instanceClass == d.instanceClass.value
    ensures d.instanceClass.None? ==> r.instanceClass == NotAvailable
    ensures d.status.Some? ==> r.status == d.status.value
    ensures d.status.None? ==> r.status == NotAvailable
    ensures d.allocatedStorage.Some? ==> r.allocatedStorage == d.allocatedStorage.value
    ensures d.allocatedStorage.None? ==> r.allocatedStorage == 0
    ensures d.endpoint.Some? && d.endpoint.value.address.Some? ==> r.endpoint == d.endpoint.value.address.value
    ensures d.endpoint.None? || d.endpoint.value.address.None? ==> r.endpoint == NotAvailable
    ensures r.multiAz <==> d.multiAz == Some(true)
    ensures r.publiclyAccessible <==> d.publiclyAccessible == Some(true)
  {
    InstanceRecord(
      d.identifier.GetOr(NotAvailable),
      d.engine.GetOr(NotAvailable),
      d.instanceClass.GetOr(NotAvailable),
      d.status.GetOr(NotAvailable),
      d.allocatedStorage.GetOr(0),
      d.endpoint.GetOr(EndpointInfo(None)).address.GetOr(NotAvailable),
      d.multiAz.GetOr(false),
      d.publiclyAccessible.GetOr(false))
  }

  /** `get_rds_instances`: one record per described instance, in response
      order; a failed call yields the empty table. */
  method GetRdsInstances(response: Result<seq<DescribedInstance>>) returns (table: seq<InstanceRecord>)
    ensures response.Err? ==> table == []
    ensures response.Ok? ==> |table| == |response.value|
    ensures response.Ok? ==> forall k :: 0 <= k < |table| ==> table[k] == InstanceRecordOf(response.value[k])
  {
    table := [];
    if response.Err? {
      return;
    }
    var described := response.value;
    for i := 0 to |described|
      invariant |table| == i
      invariant forall k :: 0 <= k < i ==> table[k] == InstanceRecordOf(described[k])
    {
      table := table + [InstanceRecordOf(described[i])];
    }
  }

  /** The figures on the dashboard's summary cards. */
  datatype Summary = Summary(totalInstances: nat, instancesOnline: nat, totalStorage: int)

  predicate IsAvailable(r: InstanceRecord) {
    r.status == "available"
  }

  /** The sum of the `AllocatedStorage` column. */
  function TotalStorage(table: seq<InstanceRecord>): int
  {
    if table == [] then 0 else table[0].allocatedStorage + TotalStorage(table[1..])
  }

  /** Storage totals add up over a table split in two. */
  lemma {:induction false} TotalStorageAppend(a: seq<InstanceRecord>, b: seq<InstanceRecord>)
    ensures TotalStorage(a + b) == TotalStorage(a) + TotalStorage(b)
  {
    if a != [] {
      assert (a + b)[0] == a[0] && (a + b)[1..] == a[1..] + b;
      TotalStorageAppend(a[1..], b);
    } else {
      assert a + b == b;
    }
  }

  /** The number of rows whose status is "available", counted row by row. */
  function AvailableCount(table: seq<InstanceRecord>): nat {
    if table == [] then 0
    else (if table[0].status == "available" then 1 else 0) + AvailableCount(table[1..])
  }

  /** Keeping the available rows keeps exactly as many rows as are counted
      available. */
  lemma {:induction false} AvailableRowsCounted(table: seq<InstanceRecord>)
    ensures |Filter(table, IsAvailable)| == AvailableCount(table)
  {
    if table != [] {
      AvailableRowsCounted(table[1..]);
    }
  }

  /** The three cards: number of instances, number with status
      "available", total allocated storage. */
  function Summarize(table: seq<InstanceRecord>): (s: Summary)
    ensures s.totalInstances == |table|
    ensures s.instancesOnline == AvailableCount(table)
    ensures s.instancesOnline <= s.totalInstances
    ensures s.instancesOnline == s.totalInstances <==> forall r :: r in table ==> r.status == "available"
    ensures s.instancesOnline == 0 <==> forall r :: r in table ==> r.status != "available"
    ensures s.totalStorage == TotalStorage(table)
  {
    var online := Filter(table, IsAvailable);
    AvailableRowsCounted(table);
    FilterKeepsEveryRow(table, IsAvailable);
    assert online == [] <==> forall r :: r in table ==> !IsAvailable(r) by {
      if online != [] {
        assert online[0] in online;
      }
    }
    Summary(|table|, |online|, TotalStorage(table))
  }

  /** One point of a CloudWatch series. Values are floating point in the
      source; they are only carried here, never computed with. */
  datatype MetricPoint = MetricPoint(timestamp: int, value: real)

  function PointTime(p: MetricPoint): int {
    p.timestamp
  }

  /** One entry of `MetricDataResults`: parallel lists of timestamps and values. */
  datatype MetricDataResult = MetricDataResult(timestamps: seq<int>, values: seq<real>)

  /** The `get_metric_data` query `get_cloudwatch_metrics` sends. */
  datatype MetricRequest = MetricRequest(
    namespace: string,
    metricName: string,
    dimensionName: string,
    dimensionValue: string,
    period: int,
    stat: string,
    startTime: int,
    endTime: int)

  const SecondsPerHour := 3600

  /** The query for the average of `metricName` of one instance over the
      last `hours` hours before `now` (the clock, in seconds). */
  function MetricRequestFor(instanceId: string, metricName: string, period: int, hours: int, now: int): (q: MetricRequest)
    ensures q.endTime == now
    ensures q.endTime - q.startTime == hours * SecondsPerHour
    ensures q.namespace == "AWS/RDS" && q.stat == "Average" && q.period == period
    ensures q.metricName == metricName
    ensures q.dimensionName == "DBInstanceIdentifier" && q.dimensionValue == instanceId
  {
    MetricRequest("AWS/RDS", metricName, "DBInstanceIdentifier", instanceId, period, "Average",
                  now - hours * SecondsPerHour, now)
  }

  /** `Timestamps[i]` paired with `Values[i]`. */
  function Pair(timestamps: seq<int>, values: seq<real>): (r: seq<MetricPoint>)
    requires |timestamps| == |values|
  {
    seq(|timestamps|, i requires 0 <= i < |timestamps| => MetricPoint(timestamps[i], values[i]))
  }

  /** `get_cloudwatch_metrics` after the call: the first result's timestamps
      paired with its values, oldest first. A failed call, a response without
      results, or lists of different lengths (the frame cannot be built and
      the error is caught) all give the empty series. */
  function MetricSeries(response: Result<seq<MetricDataResult>>): (r: seq<MetricPoint>)
    ensures response.Err? || response.value == [] ==> r == []
    ensures response.Ok? && response.value != [] ==>
      var first := response.value[0];
      if |first.timestamps| == |first.values|
      then multiset(r) == multiset(Pair(first.timestamps, first.values))
      else r == []
    ensures SortedBy(r, PointTime)
    ensures |r| <= if response.Ok? && response.value != [] then |response.value[0].timestamps| else 0
  {
    if response.Err? || response.value == [] then []
    else
      var first := response.value[0];
      if |first.timestamps| != |first.values| then []
      else
        var r := SortByKey(Pair(first.timestamps, first.values), PointTime);
        assert |r| == |multiset(r)|;
        r
  }

  /** One entry of `Events` in a `describe_events` response. */
  datatype DescribedEvent = DescribedEvent(
    sourceIdentifier: Option<string>,
    message: Option<string>,
    date: Option<int>,
    sourceType: Option<string>,
    eventCategories: Option<seq<string>>)

  /** One row of the events table. */
  datatype EventRecord = EventRecord(
    sourceIdentifier: string,
    message: string,
    date: int,
    sourceType: string,
    eventCategories: string)

  /** The events row for one event; a missing date is the time of the call. */
  function EventRecordOf(e: DescribedEvent, now: int): (r: EventRecord)
    ensures r.sourceIdentifier == if e.sourceIdentifier.Some? then e.sourceIdentifier.value else NotAvailable
    ensures r.message == if e.message.Some? then e.message.value else NotAvailable
    ensures r.date == if e.date.Some? then e.date.value else now
    ensures r.sourceType == if e.sourceType.Some? then e.sourceType.value else NotAvailable
    ensures e.eventCategories.None? || e.eventCategories.value == [] ==> r.eventCategories == ""
    ensures e.eventCategories.Some? && |e.eventCategories.value| == 1 ==> r.eventCategories == e.eventCategories.value[0]
    ensures e.eventCategories.Some? ==> r.eventCategories == Join(e.eventCategories.value, ", ")
    ensures e.eventCategories.Some? && e.eventCategories.value != [] ==>
      |r.eventCategories| == TotalLength(e.eventCategories.value) + 2 * (|e.eventCategories.value| - 1)
  {
    JoinLength(e.eventCategories.GetOr([]), ", ");
    EventRecord(
      e.sourceIdentifier.GetOr(NotAvailable),
      e.message.GetOr(NotAvailable),
      e.date.GetOr(now),
      e.sourceType.GetOr(NotAvailable),
      Join(e.eventCategories.GetOr([]), ", "))
  }

  /** The arguments of a `describe_events` call, by parameter name. The
      instance filter can be sent under `DBInstanceIdentifier`, the key
      dash.py:113 uses, or as `SourceIdentifier` with `SourceType`. */
  datatype EventsRequest = EventsRequest(
    durationMinutes: int,
    dbInstanceIdentifier: Option<string>,
    sourceIdentifier: Option<string>,
    sourceType: Option<string>)

  const DbInstanceSourceType := "db-instance"

  /** `DescribeEvents` takes no `DBInstanceIdentifier` parameter: the
      client's parameter validation refuses such a request before anything
      is sent. */
  predicate AcceptedByDescribeEvents(q: EventsRequest) {
    q.dbInstanceIdentifier.None?
  }

  const UnknownDbInstanceParameter := "Unknown parameter in input: \"DBInstanceIdentifier\""

  /** The `describe_events` call: `service` stands for RDS, what it returns
      for a request or the error it raises; a request the client refuses
      never reaches it. */
  function DescribeEvents(q: EventsRequest, service: EventsRequest -> Result<seq<DescribedEvent>>): (r: Result<seq<DescribedEvent>>)
    ensures !AcceptedByDescribeEvents(q) ==> r == Err(UnknownDbInstanceParameter)
    ensures AcceptedByDescribeEvents(q) ==> r == service(q)
  {
    if q.dbInstanceIdentifier.Some? then Err(UnknownDbInstanceParameter) else service(q)
  }

  /** `get_rds_events`: one row per event of the response, in response
      order; an error from the call yields the empty table. `now(k)` is the
      clock reading taken for the `k`-th event, since the default date is
      evaluated once per event. */
  method GetRdsEvents(request: EventsRequest, service: EventsRequest -> Result<seq<DescribedEvent>>, now: nat -> int)
    returns (table: seq<EventRecord>)
    ensures !AcceptedByDescribeEvents(request) ==> table == []
    ensures DescribeEvents(request, service).Err? ==> table == []
    ensures DescribeEvents(request, service).Ok? ==>
      && |table| == |DescribeEvents(request, service).value|
      && forall k :: 0 <= k < |table| ==> table[k] == EventRecordOf(DescribeEvents(request, service).value[k], now(k))
  {
    table := [];
    var response := DescribeEvents(request, service);
    if response.Err? {
      return;
    }
    var events := response.value;
    for i := 0 to |events|
      invariant |table| == i
      invariant forall k :: 0 <= k < i ==> table[k] == EventRecordOf(events[k], now(k))
    {
      table := table + [EventRecordOf(events[i], now(i))];
    }
  }

  function NegatedDate(e: EventRecord): int {
    -e.date
  }

  /** The events tab lists the events newest first. */
  function EventsNewestFirst(events: seq<EventRecord>): (r: seq<EventRecord>)
    ensures forall i, j :: 0 <= i < j < |r| ==> r[i].date >= r[j].date
    ensures multiset(r) == multiset(events)
  {
    var r := SortByKey(events, NegatedDate);
    assert forall i, j :: 0 <= i < j < |r| ==> NegatedDate(r[i]) <= NegatedDate(r[j]);
    r
  }

  const MinutesPerDay := 24 * 60
  /** The look-back the events tab asks for: seven days, in minutes, the unit
      of the `Duration` parameter of `DescribeEvents`. */
  const EventsLookBackMinutes := 7 * MinutesPerDay
  /** The `Duration` dash.py:109 passes: 24 * 7, a week counted in hours. */
  const EventsDurationAsWritten := 24 * 7

  /** Whether an event dated `date` lies in the window a `describe_events`
      call with this `Duration` covers at time `now` (seconds). */
  predicate InEventsWindow(date: int, now: int, durationMinutes: int) {
    now - durationMinutes * 60 <= date <= now
  }

  /** The request as written: `Duration` 24 * 7, and the instance id, when
      one is given and is not empty, under `DBInstanceIdentifier`. */
  function EventsRequestAsWritten(instanceId: Option<string>): (q: EventsRequest)
    ensures q.durationMinutes == 168
    ensures q.dbInstanceIdentifier.Some? <==> instanceId.Some? && instanceId.value != ""
    ensures q.dbInstanceIdentifier.Some? ==> q.dbInstanceIdentifier == instanceId
    ensures q.sourceIdentifier.None? && q.sourceType.None?
    ensures AcceptedByDescribeEvents(q) <==> instanceId.None? || instanceId.value == ""
  {
    EventsRequest(EventsDurationAsWritten,
                  if instanceId.Some? && instanceId.value != "" then instanceId else None,
                  None, None)
  }

  /** An event three hours old is within the seven-day window but outside
      the window the request as written covers. */
  lemma AsWrittenWindowMissesRecentEvents(now: int)
    ensures InEventsWindow(now - 3 * SecondsPerHour, now, EventsRequestFor(None).durationMinutes)
    ensures !InEventsWindow(now - 3 * SecondsPerHour, now, EventsRequestAsWritten(None).durationMinutes)
  {
  }

  /** Whatever RDS holds, the request as written for a selected instance (the
      only kind the events tab sends) is refused, so the events table is
      empty. */
  lemma AsWrittenInstanceRequestRefused(instanceId: string, service: EventsRequest -> Result<seq<DescribedEvent>>)
    requires instanceId != ""
    ensures DescribeEvents(EventsRequestAsWritten(Some(instanceId)), service) == Err(UnknownDbInstanceParameter)
  {
  }

  /** The request with the seven-day look-back the code states and the
      instance filter sent the way `DescribeEvents` takes it: the id as
      `SourceIdentifier`, `SourceType` "db-instance". The client always
      passes it on to RDS. */
  function EventsRequestFor(instanceId: Option<string>): (q: EventsRequest)
    ensures AcceptedByDescribeEvents(q)
    ensures q.sourceIdentifier.Some? <==> instanceId.Some? && instanceId.value != ""
    ensures q.sourceIdentifier.Some? ==> q.sourceIdentifier == instanceId && q.sourceType == Some(DbInstanceSourceType)
    ensures q.sourceIdentifier.None? ==> q.sourceType.None?
    ensures forall date, now :: InEventsWindow(date, now, q.durationMinutes) <==> now - 7 * 24 * SecondsPerHour <= date <= now
  {
    if instanceId.Some? && instanceId.value != "" then
      EventsRequest(EventsLookBackMinutes, None, instanceId, Some(DbInstanceSourceType))
    else
      EventsRequest(EventsLookBackMinutes, None, None, None)
  }

  /** The configured profile names (placeholders in the source). */
  const AwsProfiles: seq<string> := ["XXXXXX", "xxxxxxxxx", "+++++++++++++"]

  /** The profile picker: the configured names without repeats, ascending. */
  function ProfileChoices(configured: seq<string>): (r: seq<string>)
    ensures StrictlyAscending(r) && NoDuplicates(r)
    ensures forall p :: p in r <==> p in configured
    ensures |r| <= |configured|
  {
    var r := SortedDistinct(configured);
    AscendingHasNoDuplicates(r);
    r
  }

  /** With the configured names the picker offers `+++++++++++++`, `XXXXXX`,
      `xxxxxxxxx`, in that order ('+' < 'X' < 'x'). */
  lemma ConfiguredProfileOrder()
    ensures ProfileChoices(AwsProfiles) == ["+++++++++++++", "XXXXXX", "xxxxxxxxx"]
  {
    var expected := ["+++++++++++++", "XXXXXX", "xxxxxxxxx"];
    assert StrLt(expected[0], expected[1]) && StrLt(expected[1], expected[2]);
    StrLtTransitive(expected[0], expected[1], expected[2]);
    AscendingListingUnique(ProfileChoices(AwsProfiles), expected);
  }
}
