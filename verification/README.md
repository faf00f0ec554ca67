# IoT Sensor Dashboard — a Dafny model

This project models the logic of the IoT Sensor Dashboard as pure functions
over immutable data, and proves properties about them:

- **Ingest (backend).** MQTT messages arrive carrying sensor readings. A
  message is checked against the global threshold table. Its reading row is
  stored. An alert labelled `critical` or `warning` is created when some
  parameter is out of range.
- **List endpoints (backend).** These are the REST listings of readings and
  alerts. Each filters, orders newest first, pages, and counts. The helper
  endpoints are latest-per-topic, distinct topics, stats, thresholds,
  recent alerts and severity counts. The tables are sequences of records.
- **Client request builders.** These are the ordered query-string pairs that
  `getSensorData`, `getAlerts` and `getRecentAlerts` send.
- **Client views:**
  - the pagination bar (Previous/Next guards and the window of numbered buttons);
  - the paginated-list state machine shared by the Alerts and Raw Data pages;
  - the breach highlight;
  - the Dashboard's topic titles and its all-or-nothing refresh.

Module layout:

- `common.dfy`: `Option`, `Result`, and JavaScript truthiness of optional text.
- `seqs.dfy`: counting, filtering, subsequences, a stable newest-first sort.
- `lex.dfy`: code-point string order for `/latest`.
- `config.dfy`: the threshold table.
- `models.dfy`: the reading and alert rows.
- `mqtt_client.dfy`: the threshold check, the severity, and the row and alert built from one message.
- `listing.dfy`: paging arithmetic and the generic paginated listing.
- `sensor_data.dfy`, `alerts.dfy`: the endpoints.
- `api_client.dfy`: the query-string builders.
- `pager.dfy`: the pagination bar.
- `list_view.dfy`: the shared view state machine.
- `alerts_view.dfy`, `raw_data_view.dfy`: the two list pages.
- `breach.dfy`: the client-side highlight.
- `dashboard.dfy`: the Dashboard page.

Two safeguards a reader might expect are absent from the code. The model follows the code:

- **No stale-response guard.** The list views carry no request token to drop
  stale responses. Every response is applied as it arrives
  (`ListView.LateResponseWins`).
- **No page clamping.** An out-of-range page is not clamped, and an empty
  table does not return page 1. The backend echoes the requested page back
  with no items (`Listing.FortySevenAtFifteen`). The views only change the
  page through the guarded controls.

## Model

| member | source | states |
|---|---|---|
| Config.ParamsMatchTable | backend/app/config.py:36-44 | the parameter list is exactly the threshold table's keys |
| Config.ParamsDistinct | backend/app/config.py:44 | no parameter is listed twice |
| Config.RangesNonEmpty | backend/app/config.py:36-42 | every configured range has min below max |
| Models.Reading | backend/app/models.py:18-22 | a reading has a column for exactly the five configured parameters |
| MqttIngest.CheckKeys | backend/app/mqtt_client.py:36-44 | scanning keys in order: a key is reported iff it is scanned and violates; the report is an order-preserving subsequence, distinct when the keys are; actual/limit maps have exactly the violated keys, with the payload's values and the table's ranges |
| MqttIngest.CheckThresholds | backend/app/mqtt_client.py:27-46 | a key is violated iff it has a range and a present value outside it; absent or null values never violate; violated keys are a duplicate-free subsequence of the parameter list; both maps are keyed by exactly the violated keys and hold the payload value and the configured range |
| MqttIngest.ExtraKeysIgnored | backend/app/mqtt_client.py:36-37 | payloads that agree on the configured parameters give the same check result, so other keys are ignored |
| MqttIngest.ComputeSeverity | backend/app/mqtt_client.py:49-57 | the label is always critical or warning, and critical iff some violated value lies strictly more than 20% of the span beyond a bound |
| MqttIngest.BuildRow | backend/app/mqtt_client.py:80-91 | the row is refused iff some parameter is an explicit null; otherwise every column holds the payload value, or 0 when the key is missing |
| MqttIngest.BuildAlert | backend/app/mqtt_client.py:94-105 | the alert lists exactly the violating keys, carries their payload values, links to the row, is well formed, and is labelled critical iff some violated value lies more than 20% of the span beyond a bound, warning otherwise |
| MqttIngest.OnMessage | backend/app/mqtt_client.py:80-106 | nothing is stored iff a parameter is null; otherwise the row is stored and an alert exists iff some parameter violates its range, labelled critical iff some violation is beyond the 20% margin |
| MqttIngestExamples.MissingValueStoredAsZeroWithoutAlert | backend/app/mqtt_client.py:82-86 | a missing humidity is stored as 0, which is out of range, yet no alert is raised |
| MqttIngestExamples.NullValueRejected | backend/app/mqtt_client.py:83 | an explicit null humidity makes the message store nothing |
| MqttIngestExamples.SeverityMarginIsStrict | backend/app/mqtt_client.py:55 | temperature 74 (exactly on the margin) is a warning; 74.5 is critical |
| Listing.TotalPages | backend/app/routers/sensor_data.py:55 | total_pages is 0 for no rows, else the least n with n*page_size >= total |
| Listing.TotalPagesUnique | backend/app/routers/alerts.py:52 | any n with (n-1)*page_size < total <= n*page_size equals total_pages |
| Listing.OffsetAgainstTotal | backend/app/routers/sensor_data.py:45-55 | the offset of a page within total_pages falls inside the listing, and the offset of any later page falls past its end |
| Listing.Paginate | backend/app/routers/sensor_data.py:43-55 | items are the ordered listing from offset (page-1)*page_size, with min(page_size, max(0, total-offset)) of them; empty iff page > total_pages |
| Listing.ItemOnItsPage | backend/app/routers/sensor_data.py:45-46 | item i of the listing appears on page i/page_size+1 at position i%page_size |
| Listing.EarlierPagesNewer | backend/app/routers/alerts.py:40-45 | every item on an earlier page is at least as new as every item on a later page |
| Listing.FortySevenAtFifteen | backend/app/routers/alerts.py:42-52 | 47 items at 15 per page: 4 pages, the last with 2 items, page 5 echoed back empty |
| Listing.Newest | backend/app/routers/alerts.py:39-41 | the newest-first listing is a rearrangement of exactly the matching elements (same multiset), counted, in timestamp-descending order |
| Listing.ListingRank | backend/app/routers/alerts.py:40-41 | the element at position j of the newest-first listing is preceded by every strictly newer match and by no more matches than are at least as new as it: its position is fixed up to ties |
| Listing.PaginatedRank | backend/app/routers/alerts.py:40-45 | item i of a page is the element at position offset+i of the newest-first listing, ranked as above |
| Listing.ListPage | backend/app/routers/sensor_data.py:24-56 | out-of-bounds paging is refused; total counts the matches; items match, are newest first and number min(page_size, total-offset); no match is listed more often than it occurs; item i has exactly as many strictly newer matches as offset+i, up to ties |
| Listing.PageWithinListing | backend/app/routers/alerts.py:42-43 | a page is a contiguous run of the ordered listing, so it repeats nothing the listing does not |
| Listing.ListedInOrder | backend/app/routers/sensor_data.py:45-46 | every item of an ordered listing shows up on some page between 1 and total_pages |
| Listing.ListedOnSomePage | backend/app/routers/sensor_data.py:42-48 | every matching element is listed on some page from 1 to total_pages |
| SensorDataApi.GetSensorData | backend/app/routers/sensor_data.py:23-56 | an omitted page is 1 and an omitted page_size 20; 422 iff page < 1 or page_size outside 1..100; total is the number of rows passing the topic and inclusive time filters; items are matching rows, newest first, none repeated, and item i is preceded by offset+i matching rows up to ties |
| SensorDataApi.OmittedPagingIsFirstPage | backend/app/routers/sensor_data.py:25-26 | a request without page or page_size is answered as page 1 of 20 |
| SensorDataApi.MatchingRowListed | backend/app/routers/sensor_data.py:35-48 | every row passing the filters is listed on some page within total_pages |
| SensorDataApi.Tally | backend/app/routers/sensor_data.py:83-87 | per-topic counts: one entry per distinct topic, each equal to the topic's row count, summing to the row count |
| SensorDataApi.GetTopics | backend/app/routers/sensor_data.py:104-108 | each topic that has rows appears exactly once, and no other |
| SensorDataApi.LatestOfTopic | backend/app/routers/sensor_data.py:62-69 | the row of a topic with the greatest id, absent iff the topic has no rows |
| SensorDataApi.LatestForEach | backend/app/routers/sensor_data.py:70-74 | for each requested topic, in order, a row of that topic whose id is maximal among its rows |
| SensorDataApi.GetLatestReadings | backend/app/routers/sensor_data.py:59-76 | one row per distinct topic, each the maximal-id row of its topic, in strictly increasing topic order, covering every topic |
| SensorDataApi.MaxTimestamp | backend/app/routers/sensor_data.py:88 | the newest timestamp of the table, absent iff the table is empty |
| SensorDataApi.GetStats | backend/app/routers/sensor_data.py:79-95 | total_messages is the row count, total_topics the number of distinct topics, topic_counts match per-topic counts and sum to total_messages; latest_timestamp is the newest row's timestamp, absent iff there are no rows |
| SensorDataApi.GetThresholds | backend/app/routers/sensor_data.py:98-101 | the configured table, unchanged, keyed by exactly the parameters |
| AlertsApi.GetAlerts | backend/app/routers/alerts.py:17-53 | an omitted page is 1 and an omitted page_size 20; 422 iff paging is out of bounds; total counts alerts passing the topic, severity and inclusive time filters; items match, number at most page_size, newest first, none repeated, and item i is preceded by offset+i matching alerts up to ties |
| AlertsApi.OmittedPagingIsFirstPage | backend/app/routers/alerts.py:19-20 | a request without page or page_size is answered as page 1 of 20 |
| AlertsApi.NarrowerFilterNoMoreAlerts | backend/app/routers/alerts.py:30-39 | adding or tightening a filter never increases total |
| AlertsApi.GetRecentAlerts | backend/app/routers/alerts.py:56-67 | limit defaults to 10 and must be 1..50; the result has min(limit, count) alerts, newest first, taken from the table, none older than an alert left out |
| AlertsApi.GetAlertCounts | backend/app/routers/alerts.py:70-88 | total, critical and warning counts; critical + warning <= total |
| AlertsApi.CountsCoverLabelledTable | backend/app/routers/alerts.py:74-83 | when every alert is labelled critical or warning the two counts add up to the total |
| AlertsApi.CriticalCountMatchesListing | backend/app/routers/alerts.py:74-78 | the critical count equals the total of the listing filtered to severity critical |
| Seqs.Filter | backend/app/routers/sensor_data.py:35-40 | filtering keeps exactly the satisfying elements, in order, as a subsequence |
| Seqs.SortDesc | backend/app/routers/sensor_data.py:44 | the result is a permutation in non-increasing timestamp order |
| Seqs.TakeNewest | backend/app/routers/alerts.py:62-66 | the first n of the newest-first order: sorted, drawn from the input, none older than anything left out |
| Seqs.CountPermutation | backend/app/routers/alerts.py:39-41 | reordering the rows does not change how many satisfy a filter, so the count and the ordered listing agree |
| Seqs.SortedRank | backend/app/routers/alerts.py:41 | in a newest-first sequence, position j lies between the number of strictly newer and the number of at-least-as-new elements |
| Lex.LessTransitive | backend/app/routers/sensor_data.py:73 | the topic order is transitive |
| Lex.LessTotal | backend/app/routers/sensor_data.py:73 | any two different topics are ordered one way or the other |
| Lex.LessIrreflexive | backend/app/routers/sensor_data.py:73 | no topic is ordered before itself |
| Lex.Sort | backend/app/routers/sensor_data.py:73 | distinct topics sorted into a strictly increasing sequence with the same members |
| ApiClient.SensorDataQuery | frontend/src/services/api.js:12-19 | page then page_size come first, with defaults 1 and 20; keys never repeat and follow page, page_size, topic, severity, start_time, end_time order |
| ApiClient.SensorDataQueryKeys | frontend/src/services/api.js:15-19 | the keys are page, page_size, and each of topic/start_time/end_time exactly when its argument is truthy; never severity |
| ApiClient.SensorDataQueryValues | frontend/src/services/api.js:17-19 | a truthy filter argument is sent as text under its own key |
| ApiClient.Optional | frontend/src/services/api.js:17 | an optional argument adds one pair exactly when it is truthy, holding its value |
| ApiClient.AlertsQuery | frontend/src/services/api.js:47-55 | page then page_size first with their defaults; keys distinct and in the fixed order |
| ApiClient.AlertsQueryKeys | frontend/src/services/api.js:50-55 | the keys are page, page_size, and each filter key exactly when its argument is truthy |
| ApiClient.AlertsQueryValues | frontend/src/services/api.js:52-55 | each truthy filter argument is sent as text under its own key |
| ApiClient.AlertsQueryWithoutSeverity | frontend/src/services/api.js:52-53 | without a severity the alerts request sends the same pairs as the sensor-data request |
| ApiClient.RecentAlertsQuery | frontend/src/services/api.js:61-62 | a single limit pair, 10 when not given |
| Pager.Window | frontend/src/pages/Alerts.jsx:141-144 | buttons are consecutive from max(1, page-2), at most min(total_pages, 5), all within 1..total_pages, and include the current page when it is valid |
| Pager.DropPastRun | frontend/src/pages/Alerts.jsx:144 | dropping candidates past the last page keeps a prefix of the run |
| Pager.WindowClosedForm | frontend/src/pages/RawData.jsx:130-133 | the window equals the run from its start of length min(min(total_pages,5), total_pages-start+1) |
| Pager.Navigate | frontend/src/pages/Alerts.jsx:138-155 | Previous moves down one only above page 1, Next up one only below total_pages, a number only when it is in the window |
| Pager.NavigateStaysInRange | frontend/src/pages/RawData.jsx:127-144 | from a valid page every enabled control leads to a page within 1..total_pages |
| Pager.NavigateKeepsPositive | frontend/src/pages/Alerts.jsx:138-149 | from a page >= 1 no enabled control leads below page 1, whatever the page count |
| ListView.Step | frontend/src/pages/Alerts.jsx:14-34 | a filter change goes to page 1; clicks act only when the pagination bar is shown and the control is enabled; success replaces the snapshot, failure keeps it; loading ends on both |
| ListView.MoveTo | frontend/src/pages/Alerts.jsx:29-31 | the loading flag rises exactly when the page or the filter changed |
| ListView.StepKeepsPagePositive | frontend/src/pages/RawData.jsx:127-144 | no single event moves a view on page >= 1 below page 1 |
| ListView.ReachablePagePositive | frontend/src/pages/Alerts.jsx:138-155 | every reachable view is on a page >= 1, so its requests pass the backend paging check |
| ListView.ClickStaysInRange | frontend/src/pages/Alerts.jsx:138-155 | a click on a valid page of the displayed data keeps the page within 1..total_pages |
| ListView.SnapshotPersists | frontend/src/pages/Alerts.jsx:38 | once data is shown it is never replaced by the spinner again |
| ListView.FailureKeepsSnapshot | frontend/src/pages/Alerts.jsx:18-22 | a failed fetch keeps data, page and filter, and clears loading |
| ListView.LateResponseWins | frontend/src/pages/Alerts.jsx:14-17 | responses are applied in arrival order: an older response arriving last overwrites a newer snapshot |
| AlertsView.Step | frontend/src/pages/Alerts.jsx:61-65 | choosing a topic or severity sets it and returns to page 1; topic loading only sets the options |
| AlertsView.RequestQuery | frontend/src/pages/Alerts.jsx:16 | the request sends the view's page and page size 15, and topic/severity keys exactly when not "All" |
| AlertsView.Blank | frontend/src/pages/Alerts.jsx:16 | the "All" option is sent as an omitted argument, any other selection as itself |
| AlertsView.ServerFilter | frontend/src/pages/Alerts.jsx:16 | the backend filters by topic or severity exactly when that select is not on "All", and never by time |
| AlertsView.AllSelectedMatchesEverything | frontend/src/pages/Alerts.jsx:8-9 | with both selects on "All" every alert matches the request |
| AlertsView.SelectionNeverAddsAlerts | frontend/src/pages/Alerts.jsx:61-65 | picking a topic or severity never lists more alerts than "All" |
| AlertsView.RequestsAlwaysValid | frontend/src/pages/Alerts.jsx:7 | every request the page issues has a page >= 1 and a valid page size |
| RawDataView.Step | frontend/src/pages/RawData.jsx:25-30 | a topic change returns to page 1; a thresholds response without the field sets the empty map |
| RawDataView.RequestQuery | frontend/src/pages/RawData.jsx:16 | the request sends the view's page and page size 20, and a topic key exactly when one is selected |
| RawDataView.NoHighlightWithoutThresholds | frontend/src/pages/RawData.jsx:10 | until thresholds with the field arrive, the thresholds stay empty |
| RawDataView.ServedThresholdsFlagOutOfRange | frontend/src/pages/RawData.jsx:39-43 | with the served thresholds a row's flags are exactly its out-of-range columns |
| RawDataView.Highlights | frontend/src/pages/RawData.jsx:39-47 | no rows before the first snapshot; afterwards one flag row per displayed reading, computed from the current thresholds |
| Breach.IsBreach | frontend/src/pages/RawData.jsx:39-43 | false for a parameter without a range, otherwise true iff the value is outside the closed range |
| Breach.ThresholdsOrEmpty | frontend/src/pages/Dashboard.jsx:34 | a missing thresholds field becomes the empty map |
| Breach.BreachFlags | frontend/src/pages/RawData.jsx:47 | one flag per parameter column, in order |
| Breach.EmptyThresholdsFlagNothing | frontend/src/pages/RawData.jsx:28 | with the empty map no cell is flagged |
| Breach.BreachAgreesWithBackend | frontend/src/pages/Dashboard.jsx:48-52 | with the served thresholds a present value is flagged iff the backend check lists it as violated |
| Breach.FlagMatchesAlert | frontend/src/pages/RawData.jsx:39-43 | for a parameter the message carried, the cell is flagged iff the reading's alert lists it |
| Breach.StoredZeroFlaggedWithoutAlert | frontend/src/pages/RawData.jsx:42 | a missing humidity stored as 0 is flagged by the client although no alert exists |
| Dashboard.Split | frontend/src/pages/Dashboard.jsx:60 | split gives at least one piece, none containing '/' |
| Dashboard.JoinSplit | frontend/src/pages/Dashboard.jsx:60 | joining the pieces with '/' restores the topic |
| Dashboard.LastPieceIsSuffix | frontend/src/pages/Dashboard.jsx:61 | the last piece is the suffix after the last '/' |
| Dashboard.SpaceUnderscores | frontend/src/pages/Dashboard.jsx:61 | every '_' becomes a space, every other character is kept, same length |
| Dashboard.TopicName | frontend/src/pages/Dashboard.jsx:59-62 | the title has no '/' or '_', is as long as the topic's last segment, shows a space where the segment has '_' and the segment's character everywhere else |
| Dashboard.TopicNameExample | frontend/src/pages/Dashboard.jsx:59-62 | sensor/warehouse/cold_storage is titled "cold storage" |
| Dashboard.FetchAll | frontend/src/pages/Dashboard.jsx:23-40 | loading ends; all four parts are replaced when every request succeeds, none otherwise |
| Dashboard.AllOrNothing | frontend/src/pages/Dashboard.jsx:25-36 | after a refresh the four parts are all old or all new |
| Dashboard.OneSnapshotAgrees | frontend/src/pages/Dashboard.jsx:31-32 | refreshed from one table, the topic count equals the number of latest-reading cards |
| Dashboard.SpinnerOnlyBeforeFirstRefresh | frontend/src/pages/Dashboard.jsx:64 | the spinner shows iff no refresh has settled yet |

## Left out

- MQTT plumbing is left out: connecting, subscribing, the daemon thread, and JSON decoding of the message. A message arrives as an already decoded map from parameter name to an optional number. Non-numeric values are not modelled.
- SQL sessions, commits and the engine are left out. Tables are sequences. Row ids and the clock are parameters of `MqttIngest.OnMessage`.
- Alert severity below the margin: the alert row's database default (`warning`) is not needed, because the code always sets the label.
- Tie order: the database leaves the order of rows with equal timestamps open. The listing contracts pin each item's position only up to ties (its number of strictly newer matches), so they hold under every tie order. The model's stable insertion sort picks one concrete order so that the listing is a function.
- Topic ordering for `/latest` uses code-point lexicographic order. The database collation is not modelled.
- Timestamps are integers. Datetime parsing of the `start_time`/`end_time` query values is not modelled. A given time filter always constrains, as a Python datetime is always truthy.
- Readings and thresholds are exact reals. IEEE rounding in `0.2 * span` and in the comparisons is not modelled.
- The simulator, `main.py` (lifespan, CORS), `App.jsx` routing, JSX rendering, CSS classes, `toFixed` and date formatting are left out.
- Polling with `setInterval`, unmount cleanup, and the interleaving of overlapping requests are left out. Any arrival order is a sequence of response events.
- The axios instance, base URL, timeout and percent-encoding are left out. Queries are ordered key/value pairs.
- `getLatestReadings`, `getSensorStats`, `getThresholds`, `getTopics` and `getAlertCounts` send no query string. They appear only as the responses the views receive.
- Dashboard.FetchAll: a successful thresholds response whose body is null makes line 34 throw after lines 31-33 have already applied stats, latest readings and alert counts. The backend always sends an object, so the model takes every successful thresholds response to be one and states the refresh as all-or-nothing.
- ListView.Step: a successful response is taken to be a well-formed page. JavaScript would also store a `null` body unchecked.
