# AWS dashboards: a verified model of the core

The repository is a set of small AWS monitoring tools. Most of it is
Streamlit and boto3 glue. This project models its logic in Dafny and proves
what that logic promises.

- **History store** (`rds_database.py`, module `RdsDatabase`). Class
  `RdsDatabase` holds two append-only SQLite tables, `rds_instances` and
  `rds_metrics`, as sequences of rows, each with its AUTOINCREMENT counter.
  - `init_db` creates whatever table is missing.
  - `store_instances` and `store_metrics` append one row per input row.
  - The four queries select rows by time range (BETWEEN, inclusive), sort them
    newest first, or list distinct values in ascending order.
- **RDS dashboard** (`dash.py`, module `RdsDashboard`).
  - Instance records, with a default for every missing field.
  - The CloudWatch query window, and the metric series: timestamps paired with
    values, oldest first.
  - Event records, with their categories joined by `", "`, and the events tab
    listed newest first.
  - The profile picker, and the three summary cards.
- **EC2 connector** (`Ec2/connect_ec2.py`, module `Ec2Connect`).
  - Reservations are flattened into one listing row per instance.
  - An instance's name comes from its first `Name` tag.
  - The chosen id is validated against the listing.
  - The `aws ssm start-session` argv is built for it.
- **Fargate launcher** (`dash/start_fargate_task.py`, module
  `StartFargateTask`).
  - The configuration comes from the environment for EventBridge, and from the
    event otherwise.
  - Comma lists are cleaned of empty entries.
  - Required parameters are validated.
  - The handler answers with a 200 or a 500 response.
- **Patch dashboard** (`dash/patch_dashboard.py`, module `PatchDashboard`).
  - DynamoDB scan pages are accumulated.
  - Option lists start with the sentinel value.
  - The sidebar filters form a chain, including the creation-date range.
  - The header shows distinct counts.

Two modules hold shared helpers:

- `Collections`: `Option`, `Result`, `Filter` (a boolean mask over rows) and
  `SortByKey`.
- `Text`: code-point string order, sorted distinct listings, and
  `str.join` / `str.split`.

Modelling conventions:

- Every response of a cloud call is an input value. `Err` stands for a call
  that raised.
- Timestamps are integer seconds. A calendar day is a block of 86400 of them.
- The clock readings SQLite takes for `CURRENT_TIMESTAMP` are inputs, one per
  INSERT.
- The `datetime.now()` default of an event's date is evaluated once per event,
  so the events table takes one clock reading per event, also an input.
- The client's parameter validation is modelled for `describe_events`: a
  request with a parameter the API does not define fails before reaching RDS.
- A DataFrame is a sequence of records. A missing or unparseable cell is
  `None`.

## Model

| member | source | states |
|---|---|---|
| RdsDatabase.StoredFlag | rds_database.py:64-65 | `int(flag)` is 0 or 1, and 1 exactly when the flag is true |
| RdsDatabase.InstanceRowOf | rds_database.py:52-66 | the inserted row reads back as the record it was built from; it carries the new id and the insert time; its flags are 0/1 |
| RdsDatabase.MetricRowOf | rds_database.py:77-86 | the inserted row carries the call's instance id and metric name, and reads back as the sample's own value and timestamp |
| RdsDatabase.AppendedRowsInWindow | rds_database.py:94-97 | rows appended inside a query window are returned by it on top of everything it returned before |
| RdsDatabase.RdsDatabase.constructor | rds_database.py:6-8 | opening a file whose tables may be missing gives a store where both tables exist and every existing row is kept, and each AUTOINCREMENT counter is the file's (0 for a table created now), so the next inserts continue from it |
| RdsDatabase.RdsDatabase.InitDb | rds_database.py:10-44 | afterwards both tables exist; no row and no counter changes; once both exist, a further call changes nothing (idempotent) |
| RdsDatabase.RdsDatabase.StoreInstances | rds_database.py:46-69 | the table becomes the old rows followed by one row per record, in input order; ids continue from the counter and exceed every existing id; the metrics table is untouched; every window covering the insert times returns the new rows in addition to what it returned before |
| RdsDatabase.RdsDatabase.StoreMetrics | rds_database.py:71-89 | the table becomes the old rows followed by one row per sample, in input order, with ids above every existing id; the instances table is untouched |
| RdsDatabase.RdsDatabase.GetHistoricalInstances | rds_database.py:91-101 | exactly the rows with start <= timestamp <= end, each as often as stored, in non-increasing timestamp order |
| RdsDatabase.RdsDatabase.GetHistoricalMetrics | rds_database.py:103-114 | exactly the rows of that instance and metric with timestamp in [start, end], with multiplicity, in non-increasing timestamp order |
| RdsDatabase.RdsDatabase.GetAvailableInstances | rds_database.py:116-125 | strictly ascending, no duplicates; holds exactly the instance ids ever stored |
| RdsDatabase.RdsDatabase.GetAvailableMetrics | rds_database.py:127-137 | strictly ascending, no duplicates; holds exactly the metric names stored for that instance |
| Text.SortedDistinct | rds_database.py:120-121 | `SELECT DISTINCT ... ORDER BY` / `sorted(set(...))`: strictly ascending, same values as the input, no longer than it |
| Text.AscendingListingUnique | rds_database.py:120-121 | two strictly ascending listings holding the same values are equal, so a distinct listing does not depend on row order |
| Collections.SortByKey | dash.py:96 | the result is sorted by the key and is a permutation of the input |
| RdsDashboard.InstanceRecordOf | dash.py:40-49 | a present field is copied; otherwise text becomes "N/A", storage 0, the endpoint "N/A" when `Endpoint` or its `Address` is missing, and the flags false |
| RdsDashboard.GetRdsInstances | dash.py:30-54 | one record per `DBInstances` entry, in order; a failed call gives the empty table |
| RdsDashboard.Summarize | dash.py:157-159 | the total is the row count; online is the number of rows whose status is "available", counted row by row; online ≤ total, online equals the total iff every status is "available", and online is 0 iff none is; storage is the column sum |
| RdsDashboard.TotalStorageAppend | dash.py:159 | the storage sum adds up over a table split in two |
| RdsDashboard.AvailableRowsCounted | dash.py:158 | keeping the rows with status "available" keeps exactly as many rows as are counted available |
| RdsDashboard.MetricRequestFor | dash.py:63-88 | the window ends now and spans `hours` hours; the query asks for the Average of that AWS/RDS metric for that DBInstanceIdentifier at that period |
| RdsDashboard.MetricSeries | dash.py:90-99 | a failed call, no results, or lists of different lengths give the empty series; otherwise it is a permutation of the (timestamp, value) pairs, sorted ascending by timestamp |
| RdsDashboard.EventRecordOf | dash.py:119-125 | missing text fields become "N/A" and a missing date the given clock reading; present ones are copied; the categories are the list joined with ", " (absent or empty gives "", one category gives itself), as long as the categories together plus two characters per gap |
| RdsDashboard.GetRdsEvents | dash.py:101-130 | a request the client refuses, or a failed call, gives the empty table; otherwise one row per event, in order, the k-th built with the k-th clock reading |
| RdsDashboard.DescribeEvents | dash.py:112-115 | a request carrying `DBInstanceIdentifier` fails with the unknown-parameter error and never reaches RDS; any other request gets what RDS returns |
| RdsDashboard.EventsNewestFirst | dash.py:290 | the events tab is a permutation of the events in non-increasing date order |
| RdsDashboard.EventsRequestAsWritten | dash.py:108-113 | as written: `Duration` is 168; the id is sent under `DBInstanceIdentifier` iff it is given and non-empty, and the request is accepted iff it is not sent |
| RdsDashboard.AsWrittenWindowMissesRecentEvents | dash.py:109 | a three-hour-old event falls inside the seven-day window but outside the window the written request covers (for a request without an instance; the events tab at dash.py:287 always passes one, see the next row) |
| RdsDashboard.AsWrittenInstanceRequestRefused | dash.py:112-113 | as written, the request for a selected instance is refused whatever RDS holds, so the events tab is empty |
| RdsDashboard.EventsRequestFor | dash.py:108-113 | corrected: always accepted; the id, when given and non-empty, is sent as `SourceIdentifier` with `SourceType` "db-instance"; the covered window is exactly the last seven days |
| RdsDashboard.ProfileChoices | dash.py:17 | the picker is strictly ascending, has no repeats, and offers exactly the configured names |
| RdsDashboard.ConfiguredProfileOrder | dash.py:9-17 | with the configured names the picker reads `+++++++++++++`, `XXXXXX`, `xxxxxxxxx` |
| Ec2Connect.FirstNameTag | Ec2/connect_ec2.py:23-27 | absent iff no tag is keyed `Name`; otherwise the value of the first such tag |
| Ec2Connect.LookUpName | Ec2/connect_ec2.py:22-27 | the tag loop with `break` yields the first `Name` tag's value, or "No Name" without tags or without such a tag |
| Ec2Connect.SummaryOf | Ec2/connect_ec2.py:29-35 | the row keeps the id and state, takes the name from the tags, copies a present address and shows "N/A" for a missing one |
| Ec2Connect.FlattenMembers | Ec2/connect_ec2.py:19-20 | an instance is listed iff some reservation holds it |
| Ec2Connect.FlattenPosition | Ec2/connect_ec2.py:19-35 | instance i of reservation r sits right after all instances of earlier reservations (reservation-then-instance order) |
| Ec2Connect.GetEc2Instances | Ec2/connect_ec2.py:11-45 | the nested loops build exactly one summary per flattened instance, in order; a failed call is an error |
| Ec2Connect.IsListed | Ec2/connect_ec2.py:106 | true iff some listing row has that instance id |
| Ec2Connect.ConnectCommand | Ec2/connect_ec2.py:72-77 | the argv is `aws ssm start-session`, and its options read back as the chosen target, profile and region, whatever those strings are |
| Ec2Connect.ConnectDecision | Ec2/connect_ec2.py:95-112 | a failed listing exits 1; an empty one exits 0; an id not in a non-empty listing exits 1; a connection happens iff the listing is non-empty and holds the chosen id, with the connect argv; every exit code is 0 or 1 |
| Ec2Connect.ConnectsOnlyToReturnedInstances | Ec2/connect_ec2.py:106-108 | end to end, a session is opened iff the chosen id is the id of an instance in some returned reservation |
| Ec2Connect.StateColor | Ec2/connect_ec2.py:57 | green iff the state is "running", red otherwise |
| Text.JoinSplit | dash/start_fargate_task.py:34 | joining the pieces of `s.split(c)` with `c` gives `s` back |
| Text.SplitJoin | dash/start_fargate_task.py:34 | splitting a join of separator-free pieces gives the pieces back |
| Text.JoinAppend | dash.py:124 | joining one more part appends the separator and that part, for any separator string |
| Text.JoinLength | dash.py:124 | a join is as long as its parts together plus one separator per gap |
| StartFargateTask.CommaList | dash/start_fargate_task.py:34-40 | no entry is empty or contains a comma; the entries are the non-empty pieces of the split, in split order (a subsequence) and each as often as it occurs there |
| StartFargateTask.CommaListReadsBack | dash/start_fargate_task.py:34-40 | a variable written from non-empty, comma-free entries reads back as exactly those entries, in order |
| StartFargateTask.SplitSeparatorsOnly | dash/start_fargate_task.py:34 | n commas split into n + 1 empty pieces |
| StartFargateTask.ResolveParams | dash/start_fargate_task.py:30-47 | the EventBridge branch is taken iff `source` is "aws.events"; it reads the environment, with cleaned lists that have no empty entry; the other branch reads event keys, with lists defaulting to []; a set `assignPublicIp` is passed through, and it is DISABLED exactly when it is unset or DISABLED |
| StartFargateTask.RequestFor | dash/start_fargate_task.py:53-69 | the request is FARGATE with count 1 and carries the configuration unchanged |
| StartFargateTask.ResponseFor | dash/start_fargate_task.py:71-101 | 200 iff the call returned a non-empty `tasks`, with the first task's ARN; otherwise 500; an empty `tasks` reports `failures`, defaulting to []; an exception reports its message as the error, and a response without `tasks` reports the KeyError text `'tasks'` |
| StartFargateTask.LambdaHandler | dash/start_fargate_task.py:10-101 | the status is 200 or 500; ECS is called iff cluster and task definition are non-empty and subnets non-empty (security groups may be empty), and then with the request built from the resolved configuration; otherwise 500 with the missing-parameters error; 200 iff the call returned tasks |
| StartFargateTask.OnlyCommasIsMissing | dash/start_fargate_task.py:34-51 | in the EventBridge branch, a SUBNETS variable made only of commas never reaches ECS and gives the missing-parameters error |
| PatchDashboard.ScannedItemsAppend | dash/patch_dashboard.py:28-32 | the loaded items of consecutive page runs concatenate |
| PatchDashboard.ScannedItemsMembers | dash/patch_dashboard.py:28-32 | an item is loaded iff some page carries it; a page without `Items` adds nothing |
| PatchDashboard.LoadDynamoData | dash/patch_dashboard.py:24-33 | scanning stops at the first page without `LastEvaluatedKey`; each further scan starts at the previous page's key; the data is the items of the pages read, in page order |
| PatchDashboard.Present | dash/patch_dashboard.py:51 | `dropna()`: exactly the non-null values, no more of them than cells |
| PatchDashboard.OptionList | dash/patch_dashboard.py:51-55 | the sentinel comes first, then a strictly ascending list of exactly the column's non-null values |
| PatchDashboard.DistinctCount | dash/patch_dashboard.py:81-85 | `nunique()` is the size of the set of non-null values, and at most the row count |
| PatchDashboard.OptionListSize | dash/patch_dashboard.py:51-55 | an option list has one entry more than the column's distinct count |
| PatchDashboard.Metrics | dash/patch_dashboard.py:79-85 | the three header figures are the distinct non-null counts of instanceId, AccountId and PlataformaName, each at most the number of filtered rows |
| PatchDashboard.ApplyEqualityIsFilter | dash/patch_dashboard.py:69-74 | one equality step is the mask "sentinel chosen, or the cell equals the selection" |
| PatchDashboard.EqualityAfterMask | dash/patch_dashboard.py:69-74 | an equality step after a mask is the conjunction of the two masks |
| PatchDashboard.FilterChainIsOneMask | dash/patch_dashboard.py:68-76 | the chain of rebindings equals one filter by the conjunction of its steps, for the date test as written and as corrected alike |
| PatchDashboard.FilterRows | dash/patch_dashboard.py:68-76 | corrected chain: the filtered rows are an order-preserving subsequence of the loaded rows, holding exactly the rows that meet every selection with the end date covering its whole day |
| PatchDashboard.FilterRowsAsWritten | dash/patch_dashboard.py:68-76 | the chain as written: one filter by every selection with both date ends at midnight, an order-preserving subsequence of the loaded rows |
| PatchDashboard.DefaultDates | dash/patch_dashboard.py:58-65 | no range iff no row has a creation date; otherwise the range spans the day of every dated row, and its start and end are each the day of some dated row |
| PatchDashboard.DefaultSelection | dash/patch_dashboard.py:58-65 | every selector at its sentinel and the default dates; with the corrected date filter, a loaded row passes iff there is no range or it has a creation date (as written, see the Findings) |
| PatchDashboard.SentinelsKeepEveryRow | dash/patch_dashboard.py:68-74 | with every sentinel chosen and no date column, every row is kept |
| PatchDashboard.UniformColumnCount | dash/patch_dashboard.py:83 | a column whose non-null cells all hold one value has a distinct count of at most 1 |
| PatchDashboard.SelectedAccountCountsOne | dash/patch_dashboard.py:69-83 | once an account is selected, the "Cuentas Únicas" figure is at most 1, for the chain with any date condition, so both as written and corrected |
| PatchDashboard.CreationDates | dash/patch_dashboard.py:60-61 | exactly the creation dates that parsed |
| PatchDashboard.Min | dash/patch_dashboard.py:60 | the minimum is one of the dates and no date is smaller |
| PatchDashboard.Max | dash/patch_dashboard.py:61 | the maximum is one of the dates and no date is larger |
| PatchDashboard.DayMonotone | dash/patch_dashboard.py:62-63 | a later instant never falls on an earlier day |
| PatchDashboard.AsWrittenDropsRestOfEndDay | dash/patch_dashboard.py:75-76 | a row created on the end date after midnight is in the chosen day range, yet the comparison as written drops it |
| PatchDashboard.AsWrittenDefaultHidesLatestRow | dash/patch_dashboard.py:58-76 | as written, the default view of a table with one item created at 01:00 is empty; corrected, it shows that item |
| PatchDashboard.DefaultSelectionKeepsDatedRows | dash/patch_dashboard.py:58-76 | corrected: the default view hides no row with a parsed creation date, and with no dates at all it hides nothing |

## Left out

- The Streamlit pages, charts and widgets, the `rich` tables, logging, and `st.cache_data` are presentation only.
- The boto3 sessions and clients, STS, and the sqlite3 connect/commit/close calls are not modelled. Each cloud call's response or exception is an input.
- `get_session_for_profile` is not modelled: it only wraps `boto3.Session`.
- Metric values are `real`. They are only carried, never computed with. The bytes-to-GB divisions of the charts (dash.py:218, 267) are not modelled.
- SQLite stores DATETIME as text and compares it as text. Here timestamps are integers, and `CURRENT_TIMESTAMP` is a clock reading passed in per INSERT.
- The FOREIGN KEY of `rds_metrics` is not modelled. It names a non-unique column, and SQLite does not enforce it by default.
- Concurrent writers, transactions and a failing INSERT are not modelled. Each store call is one uninterrupted append.
- RdsDatabase.RdsDatabase.GetHistoricalInstances: SQLite's `ORDER BY timestamp DESC` (rds_database.py:97) leaves the order of rows with equal timestamps unspecified, and `read_sql_query` keeps whatever order SQLite returns. Only the order and the contents (as a multiset) are stated, not one fixed sequence.
- RdsDatabase.RdsDatabase.GetHistoricalMetrics: the same holds for rows with equal timestamps (rds_database.py:110).
- RdsDashboard.MetricSeries: `sort_values` is not stable. Only the order and the permutation are stated for equal timestamps.
- RdsDashboard.EventsNewestFirst: the same holds for events with equal dates.
- Ec2Connect.GetEc2Instances: an instance or tag without `InstanceId`, `State` or `Key` would raise and exit 1. The model's records always carry those keys.
- The prompts, `subprocess.run` and `sys.exit` of the EC2 connector are represented by the `Outcome` value. A failure of the child process is not modelled.
- StartFargateTask.LambdaHandler: a failure of `boto3.client('ecs')` itself, which also yields 500, is not modelled.
- Event values of other JSON types are not modelled, such as `subnets` given as a string. Event keys are typed as strings and string lists.
- StartFargateTask.ResponseFor: a task without `taskArn` is not modelled. ECS always returns one.
- PatchDashboard.LoadDynamoData: the scan is assumed to end. Some page has no `LastEvaluatedKey`, as DynamoDB guarantees.
- A patch-dashboard column that no item has at all makes pandas raise KeyError. The model treats it as an all-null column.
- Values of the patch table are strings; DynamoDB numbers are not modelled.
- PatchDashboard.DefaultDates: a CreationDate column present but wholly unparseable (NaT bounds) is treated like a missing column.
- The parsing of date text (`pd.to_datetime`) and `LastUpdatePatching` are not modelled.
- The charts' `value_counts` and the CSV export are not modelled.
- Time zones are not modelled: one day is 86400 seconds from midnight.

## Findings

| source | as written | input that shows it | evidently intended | confidence | as-written member | corrected member |
|---|---|---|---|---|---|---|
| dash.py:109 | `describe_events` gets `Duration: 24 * 7` = 168. The RDS DescribeEvents API counts `Duration` in minutes, so the window is 2 h 48 min. | an event three hours old, in a request with no instance filter (the only call site, dash.py:287, always passes the selected instance, so it meets the next row first) | the last seven days, as the comment says: 7 * 24 * 60 = 10080 minutes | high; not executed | RdsDashboard.EventsRequestAsWritten, RdsDashboard.AsWrittenWindowMissesRecentEvents | RdsDashboard.EventsRequestFor |
| dash.py:112-115 | With an instance id, `describe_events` gets `DBInstanceIdentifier=instance_id`. DescribeEvents has no such parameter (it filters by `SourceIdentifier` with `SourceType`), so the client refuses the call, the exception is caught at dash.py:128, and the table is empty. The events tab (dash.py:287) always passes the selected instance. | any non-empty instance id, whatever events RDS holds | filter with `SourceIdentifier` = the id and `SourceType` = "db-instance" | high; not executed | RdsDashboard.EventsRequestAsWritten, RdsDashboard.AsWrittenInstanceRequestRefused | RdsDashboard.EventsRequestFor |
| dash/patch_dashboard.py:75-76 | The end date from `date_input` (by default the date of the latest CreationDate) becomes midnight via `pd.to_datetime`. The filter then keeps only `CreationDate <= midnight`, so rows created later that day are dropped, including the latest row. | one item created at 01:00 on day 1: the default view is empty | keep every row created on a day from the start date to the end date | high; not executed | PatchDashboard.FilterRowsAsWritten, PatchDashboard.AsWrittenDefaultHidesLatestRow | PatchDashboard.FilterRows, PatchDashboard.DefaultSelectionKeepsDatedRows |
