# Optimizely web experiment notifications, modelled in Dafny

The service runs on a schedule. For each configured web project, it reads the first page (25 records) of the Optimizely change history of the last hour. It picks out the experiments whose status changed and fetches each one. It records two flags on each: whether the traffic is split evenly across variations, and whether custom code sends analytics events. It then drops the experiments that only reach the QA audience or a devtest page. The rest are gathered for one notification.

This project models that decision logic in `index.js`, module by module:

- `Wrappers`: `Option`, and `Outcome`, which stands for a JavaScript exception escaping a call (`Threw`).
- `Text`: `String.prototype.includes`, specified by an explicit occurrence.
- `Optimizely`: the API records the code reads, the environment configuration and the project label.
- `TrafficAllocation`: `checkTrafficAllocation`, a pure function.
- `CustomGoals`: `checkCustomGoals`, a method with the nested `forEach` loops.
  - It is proved against a declarative predicate `HasCustomGoals`.
- `Aggregation`: `checkForUpdatedExperimentStatus`.
  - The `experimentIDs` object is a class, `ExperimentTable`, whose `keys` and `entries` the method fills in place.
  - The method is proved equal to a fold, `FirstWins`, over the status changes of the feed.
  - The fold is then characterised declaratively: first change wins, keys in discovery order, later events never alter earlier records.
- `Targeting`: `checkTargeting`, which updates the same `ExperimentTable` in place.
  - It is proved equal to a fold, `TargetRun`, of a per-record verdict `Classify`.
  - The fold is then characterised declaratively:
    - it throws exactly when a fetched experiment has no variations;
    - otherwise it reports exactly the live records, in key order;
    - every fetched record carries its two flags.
- `Pipeline`: the loop of `checkWebProjects` over the projects.
  - It is proved equal to `RunProjects`, which concatenates each project's contribution or propagates an exception.
  - The run takes the QA audience selection as a parameter, a `Selection`. `AsWritten` is the selection `index.js` makes, and `Intended` is the corrected one (see Findings).

The three API reads are parameters of the model:

- `historyOf` answers `GET /changes` for a project.
- `expOf` answers `GET /experiments/{id}`.
- `pageOf` answers `GET /pages/{id}`.

`None` stands for a failed request, which `optimizelyRequest` turns into `false`.

## Model

| member | source | states |
|---|---|---|
| Optimizely.ProjectLabel | index.js:58 | The label is "TH" exactly for the TH project id, and "CK" for every other project |
| Text.Includes | index.js:105 | `s.includes(sub)` holds exactly when `sub` occurs in `s` at some position |
| TrafficAllocation.Remainder | index.js:76-82 | No remainder exactly when the total divides evenly; otherwise the remainder is the share plus what the division leaves over, and it is positive |
| TrafficAllocation.AllowedWeights | index.js:76-85 | The allowed weights are the truncated share, then, exactly when the division is not even, the total minus n-1 shares |
| TrafficAllocation.CheckTrafficAllocation | index.js:74-95 | An empty list passes. On an even split, it accepts exactly when every weight is the share. Otherwise it accepts exactly when every weight is the share or total minus (n-1) shares |
| TrafficAllocation.EvenSplitAddsUp | index.js:74-95 | On an even split, an accepted allocation adds up to the total |
| TrafficAllocation.ThreeWaySplits | index.js:74-95 | For three variations, 3334/3333/3333 passes. 3334/3334/3334 passes although it sums to 10002. 5000/3000/2000 fails |
| CustomGoals.FindCustomCode | index.js:103 | `find` returns nothing exactly when no change is custom code; otherwise it returns the first custom-code change |
| CustomGoals.CheckCustomGoals | index.js:97-126 | The flag is true exactly when the first shared custom-code change calls `optimizely.sendAnalyticsEvents`, or any change of any action of any variation is custom code calling it |
| CustomGoals.NoCodeNoGoals | index.js:101-124 | An experiment without shared changes and without variations has no custom goals |
| CustomGoals.WhereCallsAreFound | index.js:101-123 | A call in a later shared custom-code change is missed; in a variation, a call behind another change is found |
| Aggregation.ExperimentTable.constructor | index.js:47 | The dictionary starts empty and well formed |
| Aggregation.FirstWins | index.js:49-62 | The table folded from the status changes is well formed: keys are distinct, they are exactly the map's keys, and each record is filed under its own id |
| Aggregation.CheckForUpdatedExperimentStatus | index.js:45-65 | Returns a fresh, well-formed dictionary equal to `FirstWins` over the status changes of the feed, labelled with the project |
| Aggregation.FirstSightingWins | index.js:49-62 | An experiment has a record exactly when the feed holds a status change for it, and the record carries the first one |
| Aggregation.ListedIffSighted | index.js:49-62 | An id is listed exactly when some status change concerns it |
| Aggregation.KeysInDiscoveryOrder | index.js:52-60 | Keys are listed in the order in which their first status changes appear |
| Aggregation.LaterSightingsKeepRecords | index.js:52 | Further status changes keep every earlier key in place and every earlier record unchanged |
| Aggregation.LaterEventsKeepRecords | index.js:49-62 | Further audit records keep every earlier key in place and every earlier record unchanged |
| Aggregation.ChangeSightingsMembers | index.js:51-52 | The status changes of one record are exactly its changes of the `status` property, with their new value |
| Aggregation.SightingsAreStatusChanges | index.js:49-52 | The status changes of the feed are exactly the `status` changes of records that carry `changes` |
| Aggregation.ExampleFeedSightings | index.js:49-52 | The status changes of the example feed are "running" then "paused", both for experiment 7 |
| Aggregation.FirstStatusChangeKept | index.js:45-65 | In an example feed, a later "paused" and a name change leave the first "running" record. An entity without changes adds nothing |
| Targeting.QaAudienceAsWritten | index.js:146-148 | As written, the audience is the TH audience when the project id equals the TH audience id, and the CK audience otherwise |
| Targeting.SelectionsAgree | index.js:146-148 | The selection as written and the intended one agree on a project exactly when the two audiences coincide, or the project id is the TH project id exactly when it is the TH audience id |
| Targeting.QaAudienceFor | index.js:146 | The QA audience checked is the TH audience exactly for records labelled TH (corrected selection, see Findings) |
| Targeting.AsWrittenPicksCkAudience | index.js:146 | As written, whenever the TH project id is not the TH audience id, the TH project is checked against the CK QA audience |
| Targeting.IsRunningInQaMode | index.js:145-163 | QA-only exactly when the conditions include the audience and "and", or the first page was fetched and its conditions include "devtest". An experiment that reaches the page test and has no pages is live |
| Targeting.Enrich | index.js:139-143 | The enriched record keeps id, name, status and project, and carries the traffic and custom-goals flags of the fetched experiment |
| Targeting.Classify | index.js:133-163 | Dropped exactly when the fetch fails. A crash exactly when the fetched experiment has no variations. Otherwise the record is enriched and QA-only as `IsRunningInQaMode` says |
| Targeting.TargetRun | index.js:130-170 | The loop keeps the dictionary's key set |
| Targeting.ThrowEndsRun | index.js:139 | After a throw, the remaining keys change nothing |
| Targeting.TargetRunKeepsRecords | index.js:139-143 | The loop keeps id, name, status and project of every record, and leaves records it has not reached untouched |
| Targeting.TargetRunKeepsTable | index.js:130-143 | The loop keeps the dictionary well formed |
| Targeting.AsWrittenReportsQaExperiment | index.js:145-148 | For a TH experiment AND-restricted to the TH QA audience, the audience picked as written yields "live", and the intended audience yields "QA-only" |
| Targeting.ClassifyIgnoresFlags | index.js:133-135 | The verdict depends only on the experiment a record describes, not on flags already written into it |
| Targeting.StepVerdict | index.js:133-137 | The record met at a key gets the original record's verdict |
| Targeting.ThrowsIffVariationsMissing | index.js:139 | The loop throws exactly when one of the visited experiments is fetched without variations |
| Targeting.LiveMembers | index.js:165-167 | A record is reported exactly when some visited experiment is live with it as its enriched record |
| Targeting.RunReportsLive | index.js:128-171 | Without a throw, the loop reports exactly the live records (`Live`), in key order |
| Targeting.RunEnrichesVisited | index.js:137-143 | Without a throw, every visited record whose experiment was fetched is replaced by its enriched record, and every other record is unchanged |
| Targeting.EnrichInPlace | index.js:139-143 | The two writes replace exactly the record under the key with its enriched record |
| Targeting.CheckOne | index.js:133-168 | One turn of the loop changes the dictionary and the pushed list as `TargetStep` says |
| Targeting.CheckTargeting | index.js:128-171 | The dictionary stays well formed. The pushed records, the final dictionary and whether it threw are those of `TargetRun` over the keys and the initial records |
| Pipeline.Then | index.js:286-290 | Two results in sequence throw exactly when either throws; otherwise the reports are concatenated |
| Pipeline.CheckProject | index.js:281-294 | One project's turn yields `ProjectContribution`: nothing for an unreadable or empty history, otherwise the targeting run over the aggregated table, with the QA audience the given selection picks for the project |
| Pipeline.CheckWebProjects | index.js:275-296 | The loop over the projects yields `RunProjects` over each project's `ProjectContribution` under the given selection: the contributions concatenated in project order, or an exception as soon as a project throws. With `AsWritten` this is the program as written |
| Pipeline.RunStopsAtThrow | index.js:286 | Once a project has thrown, the whole run has thrown |
| Pipeline.RunConcatenates | index.js:280-296 | Running two lists of projects in turn equals running their concatenation |
| Pipeline.RunCollectsProjects | index.js:280-296 | The run throws exactly when some project throws; otherwise it reports a record exactly when some project reports it |
| Pipeline.SkippedProjectAddsNothing | index.js:282-293 | A project whose history cannot be read or is empty leaves the run unchanged |
| Pipeline.TableRunThrowsIff | index.js:284-286 | The targeting run over the aggregated table throws exactly when some experiment with a status change is fetched without variations |
| Pipeline.ProjectThrowsIff | index.js:281-286 | A project throws exactly when its history was read and one of its status-changed experiments is fetched without variations |
| Pipeline.ProjectReportsLive | index.js:281-290 | A project that does not throw reports the records of its aggregated table that are live for the audience the selection picks, in discovery order |
| Pipeline.StartProjectContribution | index.js:281-290 | In the example, the TH project contributes exactly the enriched record of experiment 7, under either selection |
| Pipeline.StartEventTable | index.js:45-65 | A single "running" status change yields one TH record with no flags |
| Pipeline.PlainExperimentIsLive | index.js:137-167 | For every audience, an experiment with one full-traffic variation, no code, no audience conditions and no pages is reported with isEqualTrafficAllocation true and hasCustomGoals false |
| Pipeline.TwoProjectRun | index.js:275-296 | Two projects, where the TH one started that experiment and the CK history cannot be read: under either selection the run reports exactly that enriched record |
| Pipeline.AndRestrictedVerdicts | index.js:133-167 | An experiment whose conditions "and1" include "and" and audience "1" is QA-only for audience "1" and live for audience "22222" |
| Pipeline.AsWrittenRunReportsQaExperiment | index.js:146-148 | With TH project "10", TH audience "1" and CK audience "22222", the TH project as written reports an experiment AND-restricted to audience "1"; with the intended selection it reports nothing |

## Left out

- The HTTP layer is not modelled: `optimizelyRequest`, `fetch`, the token and the endpoints. Each read is an oracle parameter. The oracles are total functions, so a read gives the same answer each time during a run.
- An answer that is not what the code expects is modelled by what the code does with it:
  - a failed request or an error object without `variations` is `None` or `variations: None`;
  - an error object returned for the history behaves as an empty history, because its `length` is undefined.
- `getTimestamps`, `getProjectsIDs` and the environment are not modelled. The project ids and the configuration are parameters.
- `buildNotificationMessage`, `sendNotification`, the Express route and the commented-out timer are not modelled. The model stops at the `result` list that would be sent.
- `console.log` and `async`/`await` are not modelled. The model runs the awaits in order, as one run does.
- Overlapping runs are not modelled. `project_id`, `item` and `change` are implicit globals. Only `project_id` is read across an `await`: it is set at index.js:280 and read again at 284 and 287, after the await at 281. A second request could change it mid-run. `item` and `change` are used only inside the synchronous loop at index.js:49-63.
- `Object.keys` order is modelled as insertion order. JavaScript lists array-index-like keys (below 2^32 - 1) first, in numeric order. The model assumes that no experiment id is array-index-like; nothing in the code ensures it.
- The fields the code dereferences without a test are always present in the model: `entity`, `audience_conditions`, `page_ids`, `action.changes` and the change `value`. When one of them is missing at a point where the code reads it, the source throws; the model does not capture that.
- A variation's `weight` is always a number in the model. In the source, a missing or null weight does not throw: `==` compares it with `trafficAllocation[1]`, which is undefined on an even split. Such a variation then passes on an even split and fails on an uneven one. The model does not capture that.
- The history read asks only for the first page of 25 records (index.js:69). The `historyOf` oracle stands for that one page, so records past the 25th are not seen, as in the source.
- The pushed records are values. In the source they are references into the dictionary, but nothing writes to a record after it has been pushed, so the reported values are the same.
- `checkTrafficAllocation` on an empty list is modelled as `true`, the result of `every` on an empty array. The model does not go through the `Infinity`/`NaN` arithmetic.
- Documented behaviour that the code does not follow; the model follows the code:
  - The traffic check does not require the remainder on exactly one variation, and does not require the weights to add up to the total (`TrafficAllocation.ThreeWaySplits`).
  - The shared-code goal check reads only the first custom-code change, not any of them (`CustomGoals.WhereCallsAreFound`).
  - An experiment whose page fetch fails is reported as live, not omitted (index.js:150-158, `Targeting.IsRunningInQaMode`).
  - A fetched error object without `variations` ends the whole run with an exception; not every failure degrades to omission (index.js:139, `Targeting.Classify` through `Crashes`).
- Pipeline.TwoProjectRun: stated for one configuration and one experiment, not for every input.

## Findings

| source | as written | input that shows it | evidently intended | confidence | as-written member | corrected member |
|---|---|---|---|---|---|---|
| index.js:146-148 | The QA audience is picked by comparing `project_id` with `TH_QA_QA_AUDIENCE_ID`, an audience id, so the TH project is checked against the CK QA audience | TH project "10", TH audience "1", CK audience "22222", an experiment with audience conditions "and1" and no pages: it is reported as live | Compare with `TH_QA_PROJECT_ID`, so TH experiments are checked against the TH QA audience; the example is then QA-only and not reported | high; not executed | Targeting.QaAudienceAsWritten, the `AsWritten` selection of Pipeline.CheckWebProjects, with Targeting.AsWrittenPicksCkAudience and Targeting.AsWrittenReportsQaExperiment | Targeting.QaAudienceFor, the `Intended` selection of Pipeline.CheckWebProjects; Pipeline.AsWrittenRunReportsQaExperiment contrasts the two runs |
