/** The local history store (rds_database.py): an append-only log of instance
    snapshots and metric samples kept in two tables, `rds_instances` and
    `rds_metrics`, each with an AUTOINCREMENT id. Timestamps are integers
    (seconds); the clock readings SQLite takes for `CURRENT_TIMESTAMP` are
    inputs. */
module RdsDatabase {
  import opened Collections
  import opened Text
  import opened RdsDashboard

  /** A row of `rds_instances`; the two flags are stored as integers. */
  datatype InstanceRow = InstanceRow(
    id: nat,
    instanceId: string,
    engine: string,
    instanceClass: string,
    status: string,
    allocatedStorage: int,
    endpoint: string,
    multiAz: int,
    publiclyAccessible: int,
    timestamp: int)

  /** A row of `rds_metrics`. */
  datatype MetricRow = MetricRow(
    id: nat,
    instanceId: string,
    metricName: string,
    value: real,
    timestamp: int)

  /** What a database file holds for one table when it is opened: nothing
      (the table was never created) or its rows and the largest id issued. */
  datatype TableState<R> = Absent | Present(rows: seq<R>, lastId: nat)

  /** Python's `int(flag)` on a boolean. */
  function StoredFlag(b: bool): (i: int)
    ensures i == 0 || i == 1
    ensures i == 1 <==> b
  {
    if b then 1 else 0
  }

  /** The record a stored row reads back as (a nonzero flag is true). */
  function RecordOfRow(row: InstanceRow): InstanceRecord
  {
    InstanceRecord(row.instanceId, row.engine, row.instanceClass, row.status,
                   row.allocatedStorage, row.endpoint, row.multiAz != 0, row.publiclyAccessible != 0)
  }

  /** The row one INSERT of `store_instances` adds: the record's fields, the
      flags as 0 or 1, the new id and the time of the insert. Nothing of the
      record is lost: it reads back unchanged. */
  function InstanceRowOf(id: nat, rec: InstanceRecord, now: int): (row: InstanceRow)
    ensures RecordOfRow(row) == rec
    ensures row.id == id && row.timestamp == now
    ensures row.multiAz == 0 || row.multiAz == 1
    ensures row.publiclyAccessible == 0 || row.publiclyAccessible == 1
  {
    InstanceRow(id, rec.identifier, rec.engine, rec.instanceClass, rec.status,
                rec.allocatedStorage, rec.endpoint, StoredFlag(rec.multiAz), StoredFlag(rec.publiclyAccessible), now)
  }

  /** The sample a stored metric row reads back as. */
  function PointOfRow(row: MetricRow): MetricPoint
  {
    MetricPoint(row.timestamp, row.value)
  }

  /** The row one INSERT of `store_metrics` adds: the call's instance and
      metric name with the sample's own value and timestamp. */
  function MetricRowOf(id: nat, instanceId: string, metricName: string, p: MetricPoint): (row: MetricRow)
    ensures PointOfRow(row) == p
    ensures row.id == id && row.instanceId == instanceId && row.metricName == metricName
  {
    MetricRow(id, instanceId, metricName, p.value, p.timestamp)
  }

  /** The rows `store_instances` appends after the id counter stood at
      `lastId`: ids lastId+1, lastId+2, ..., row k stamped `clock[k]`. */
  function NewInstanceRows(lastId: nat, batch: seq<InstanceRecord>, clock: seq<int>): seq<InstanceRow>
    requires |clock| == |batch|
  {
    seq(|batch|, k requires 0 <= k < |batch| => InstanceRowOf(lastId + 1 + k, batch[k], clock[k]))
  }

  /** The rows `store_metrics` appends after the id counter stood at `lastId`. */
  function NewMetricRows(lastId: nat, instanceId: string, metricName: string, samples: seq<MetricPoint>): seq<MetricRow>
  {
    seq(|samples|, k requires 0 <= k < |samples| => MetricRowOf(lastId + 1 + k, instanceId, metricName, samples[k]))
  }

  /** AUTOINCREMENT: ids ascend in insertion order and none exceeds the
      largest id issued so far. */
  predicate InstanceIdsIssued(rows: seq<InstanceRow>, lastId: nat) {
    && (forall i, j :: 0 <= i < j < |rows| ==> rows[i].id < rows[j].id)
    && (forall i :: 0 <= i < |rows| ==> 0 < rows[i].id <= lastId)
  }

  predicate MetricIdsIssued(rows: seq<MetricRow>, lastId: nat) {
    && (forall i, j :: 0 <= i < j < |rows| ==> rows[i].id < rows[j].id)
    && (forall i :: 0 <= i < |rows| ==> 0 < rows[i].id <= lastId)
  }

  /** The BETWEEN condition of `get_historical_instances` (inclusive at both ends). */
  function InstanceInRange(start: int, end: int): InstanceRow -> bool {
    (row: InstanceRow) => start <= row.timestamp <= end
  }

  /** The WHERE condition of `get_historical_metrics`. */
  function MetricSelected(instanceId: string, metricName: string, start: int, end: int): MetricRow -> bool {
    (row: MetricRow) => row.instanceId == instanceId && row.metricName == metricName && start <= row.timestamp <= end
  }

  function NegatedInstanceTime(row: InstanceRow): int {
    -row.timestamp
  }

  function NegatedMetricTime(row: MetricRow): int {
    -row.timestamp
  }

  /** The `instance_id` column. */
  function InstanceIdColumn(rows: seq<InstanceRow>): (r: seq<string>)
    ensures |r| == |rows|
    ensures forall x :: x in r <==> exists row :: row in rows && row.instanceId == x
  {
    if rows == [] then [] else [rows[0].instanceId] + InstanceIdColumn(rows[1..])
  }

  /** The `metric_name` column of the rows of one instance. */
  function MetricNameColumn(rows: seq<MetricRow>, instanceId: string): (r: seq<string>)
    ensures forall x :: x in r <==> exists row :: row in rows && row.instanceId == instanceId && row.metricName == x
  {
    if rows == [] then []
    else if rows[0].instanceId == instanceId then [rows[0].metricName] + MetricNameColumn(rows[1..], instanceId)
    else MetricNameColumn(rows[1..], instanceId)
  }

  /** Rows appended inside a query window are all returned by it, on top of
      what the window returned before: the log only grows. */
  lemma AppendedRowsInWindow(rows: seq<InstanceRow>, added: seq<InstanceRow>, start: int, end: int)
    requires forall k :: 0 <= k < |added| ==> start <= added[k].timestamp <= end
    ensures multiset(Filter(rows + added, InstanceInRange(start, end)))
            == multiset(Filter(rows, InstanceInRange(start, end))) + multiset(added)
  {
    FilterAppend(rows, added, InstanceInRange(start, end));
    FilterKeepsAll(added, InstanceInRange(start, end));
  }

  /** `RDSDatabase`: the two tables of the database file, with the
      AUTOINCREMENT counter of each (SQLite's `sqlite_sequence`). */
  class RdsDatabase {
    var instancesTableExists: bool
    var metricsTableExists: bool
    var instances: seq<InstanceRow>
    var metrics: seq<MetricRow>
    var lastInstanceId: nat
    var lastMetricId: nat

    /** A table that was never created holds nothing; ids are as AUTOINCREMENT issues them. */
    ghost predicate WellFormed()
      reads this
    {
      && (instancesTableExists || (instances == [] && lastInstanceId == 0))
      && (metricsTableExists || (metrics == [] && lastMetricId == 0))
      && InstanceIdsIssued(instances, lastInstanceId)
      && MetricIdsIssued(metrics, lastMetricId)
    }

    /** After construction both tables exist. */
    ghost predicate Valid()
      reads this
    {
      WellFormed() && instancesTableExists && metricsTableExists
    }

    /** `RDSDatabase(db_path)`: opens the file, whose tables may or may not
      exist yet, and runs `init_db`. Existing rows are kept. */
    constructor (instancesFile: TableState<InstanceRow>, metricsFile: TableState<MetricRow>)
      requires instancesFile.Present? ==> InstanceIdsIssued(instancesFile.rows, instancesFile.lastId)
      requires metricsFile.Present? ==> MetricIdsIssued(metricsFile.rows, metricsFile.lastId)
      ensures Valid()
      ensures instances == if instancesFile.Present? then instancesFile.rows else []
      ensures metrics == if metricsFile.Present? then metricsFile.rows else []
      ensures lastInstanceId == if instancesFile.Present? then instancesFile.lastId else 0
      ensures lastMetricId == if metricsFile.Present? then metricsFile.lastId else 0
    {
      instancesTableExists := instancesFile.Present?;
      instances := if instancesFile.Present? then instancesFile.rows else [];
      lastInstanceId := if instancesFile.Present? then instancesFile.lastId else 0;
      metricsTableExists := metricsFile.Present?;
      metrics := if metricsFile.Present? then metricsFile.rows else [];
      lastMetricId := if metricsFile.Present? then metricsFile.lastId else 0;
      new;
      InitDb();
    }

    /** `init_db`: CREATE TABLE IF NOT EXISTS for both tables. It creates what
      is missing, never drops or alters a row, and once both tables exist it
      changes nothing, so calling it again is harmless. */
    method InitDb()
      requires WellFormed()
      modifies this
      ensures Valid()
      ensures instances == old(instances) && metrics == old(metrics)
      ensures lastInstanceId == old(lastInstanceId) && lastMetricId == old(lastMetricId)
      ensures old(instancesTableExists && metricsTableExists) ==> unchanged(this)
    {
      if !instancesTableExists {
        instancesTableExists := true;
        instances := [];
        lastInstanceId := 0;
      }
      if !metricsTableExists {
        metricsTableExists := true;
        metrics := [];
        lastMetricId := 0;
      }
    }

    /** `store_instances`: one INSERT per record, in order; `clock[k]` is the
      time of the k-th INSERT. Earlier rows and the metrics table are
      untouched, the new rows carry ids above every existing one, and every
      query window that covers the inserts now also returns them. */
    method StoreInstances(batch: seq<InstanceRecord>, clock: seq<int>)
      requires Valid()
      requires |clock| == |batch|
      modifies this
      ensures Valid()
      ensures instances == old(instances) + NewInstanceRows(old(lastInstanceId), batch, clock)
      ensures lastInstanceId == old(lastInstanceId) + |batch|
      ensures metrics == old(metrics) && lastMetricId == old(lastMetricId)
      ensures forall i, j :: 0 <= i < |old(instances)| <= j < |instances| ==> instances[i].id < instances[j].id
      ensures forall start, end ::
        (forall k :: 0 <= k < |clock| ==> start <= clock[k] <= end) ==>
          multiset(GetHistoricalInstances(start, end))
          == multiset(old(GetHistoricalInstances(start, end))) + multiset(NewInstanceRows(old(lastInstanceId), batch, clock))
    {
      var i := 0;
      while i < |batch|
        invariant 0 <= i <= |batch|
        invariant Valid()
        invariant lastInstanceId == old(lastInstanceId) + i
        invariant instances == old(instances) + NewInstanceRows(old(lastInstanceId), batch[..i], clock[..i])
        invariant metrics == old(metrics) && lastMetricId == old(lastMetricId)
      {
        lastInstanceId := lastInstanceId + 1;
        instances := instances + [InstanceRowOf(lastInstanceId, batch[i], clock[i])];
        i := i + 1;
      }
      assert batch[..i] == batch && clock[..i] == clock;
      var added := NewInstanceRows(old(lastInstanceId), batch, clock);
      forall start, end | forall k :: 0 <= k < |clock| ==> start <= clock[k] <= end
        ensures multiset(Filter(instances, InstanceInRange(start, end)))
                == multiset(Filter(old(instances), InstanceInRange(start, end))) + multiset(added)
      {
        AppendedRowsInWindow(old(instances), added, start, end);
      }
    }

    /** `store_metrics`: one INSERT per sample, in order, each row carrying
      the call's instance id and metric name; the instances table is untouched. */
    method StoreMetrics(instanceId: string, metricName: string, samples: seq<MetricPoint>)
      requires Valid()
      modifies this
      ensures Valid()
      ensures metrics == old(metrics) + NewMetricRows(old(lastMetricId), instanceId, metricName, samples)
      ensures lastMetricId == old(lastMetricId) + |samples|
      ensures instances == old(instances) && lastInstanceId == old(lastInstanceId)
      ensures forall i, j :: 0 <= i < |old(metrics)| <= j < |metrics| ==> metrics[i].id < metrics[j].id
    {
      for i := 0 to |samples|
        invariant Valid()
        invariant lastMetricId == old(lastMetricId) + i
        invariant metrics == old(metrics) + NewMetricRows(old(lastMetricId), instanceId, metricName, samples[..i])
        invariant instances == old(instances) && lastInstanceId == old(lastInstanceId)
      {
        lastMetricId := lastMetricId + 1;
        metrics := metrics + [MetricRowOf(lastMetricId, instanceId, metricName, samples[i])];
      }
      assert samples[..|samples|] == samples;
    }

    /** `get_historical_instances`: exactly the stored rows whose timestamp
      lies in [start, end], each as often as stored, newest first (rows with
      equal timestamps in no particular order). */
    function GetHistoricalInstances(start: int, end: int): (r: seq<InstanceRow>)
      reads this
      ensures forall i, j :: 0 <= i < j < |r| ==> r[i].timestamp >= r[j].timestamp
      ensures forall row :: multiset(r)[row] == if start <= row.timestamp <= end then multiset(instances)[row] else 0
      ensures multiset(r) == multiset(Filter(instances, InstanceInRange(start, end)))
    {
      var r := SortByKey(Filter(instances, InstanceInRange(start, end)), NegatedInstanceTime);
      assert forall i, j :: 0 <= i < j < |r| ==> NegatedInstanceTime(r[i]) <= NegatedInstanceTime(r[j]);
      r
    }

    /** `get_historical_metrics`: exactly the rows of that instance and metric
      whose timestamp lies in [start, end], newest first. */
    function GetHistoricalMetrics(instanceId: string, metricName: string, start: int, end: int): (r: seq<MetricRow>)
      reads this
      ensures forall i, j :: 0 <= i < j < |r| ==> r[i].timestamp >= r[j].timestamp
      ensures forall row :: multiset(r)[row] == if MetricSelected(instanceId, metricName, start, end)(row) then multiset(metrics)[row] else 0
      ensures forall row :: row in r <==> row in metrics && row.instanceId == instanceId && row.metricName == metricName && start <= row.timestamp <= end
    {
      var r := SortByKey(Filter(metrics, MetricSelected(instanceId, metricName, start, end)), NegatedMetricTime);
      assert forall i, j :: 0 <= i < j < |r| ==> NegatedMetricTime(r[i]) <= NegatedMetricTime(r[j]);
      r
    }

    /** `get_available_instances`: every instance id ever stored, once each, ascending. */
    function GetAvailableInstances(): (r: seq<string>)
      reads this
      ensures StrictlyAscending(r) && NoDuplicates(r)
      ensures forall x :: x in r <==> exists row :: row in instances && row.instanceId == x
      ensures |r| <= |instances|
    {
      var r := SortedDistinct(InstanceIdColumn(instances));
      AscendingHasNoDuplicates(r);
      r
    }

    /** `get_available_metrics`: the metric names stored for one instance, once each, ascending. */
    function GetAvailableMetrics(instanceId: string): (r: seq<string>)
      reads this
      ensures StrictlyAscending(r) && NoDuplicates(r)
      ensures forall x :: x in r <==> exists row :: row in metrics && row.instanceId == instanceId && row.metricName == x
    {
      var r := SortedDistinct(MetricNameColumn(metrics, instanceId));
      AscendingHasNoDuplicates(r);
      r
    }
  }
}
