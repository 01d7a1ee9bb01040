# Public message board: alert reconciliation, modelled in Dafny

The public message board shows a transit agency's current service alerts
on a display. Its core is a reconciliation pipeline. It takes a snapshot
of route records and a snapshot of alert records and produces an ordered
list of display messages, each of the form `{id, header, description,
routes}`. Each route appears as `{id, abbreviation, color, textColor}`.

This project models that core and proves properties of it.

- `Common.dfy` holds the shared vocabulary:
  - JavaScript's `undefined` and `null` (`Option`).
  - The three states of a fetched snapshot: `Res = Pending | Failed | Ready` stands for `undefined`, `null` and data.
  - Thrown TypeErrors (`Completion = Normal | Throw`).
  - Sort keys as integers extended with ±∞, compared lexicographically as ranks.
  - The object that `forEach` fills as a route index (`IndexBy`, and the loop `BuildIndex`).
- `StableSort.dfy` models `Array.prototype.sort` with a key-subtracting comparator. ES2019 requires that sort to be stable. It is modelled as an insertion sort, proved sorted, a permutation of its input, and order-preserving within each class of equal ranks.
- `PublicMessagesFromGtfs.dfy` models the live pipeline in `src/utils/publicMessagesFromGtfs.js`:
  - the sentinel check;
  - `nestGtfs`: the route index, the drop policy, and de-duplication of route ids in first-appearance order;
  - `filterGtfs`: the abbreviation whitelist;
  - `sortGtfs`: routes by sort order, then alerts by least route sort order, with routeless alerts first;
  - `normalizeGtfs`.

  End-to-end lemmas prove when a run throws and what a shown message can contain:
  - On fetched snapshots a run throws exactly when some alert has no informed-entity list, or some alert that reaches the normalizer lacks a header or description text (`PipelineThrows`).
  - Every shown message comes from a retained alert. It shows only known, whitelisted routes of that alert, each once.
  - When no two alerts share an id, an alert the route snapshot cannot explain is never shown.
  - A general alert is shown in every run that returns messages. One headerless alert elsewhere in the feed makes the whole run throw, and then nothing is shown.
- `InfoPoint.dfy` holds the decoded JSON records of an Avail InfoPoint installation.
- `UsePublicMessages.dfy` models the older InfoPoint pipeline in `src/hooks/usePublicMessages.js`:
  - the join of messages to routes, as a function and as the loop that fills the index;
  - the filter, as written and corrected;
  - the sort by priority, then least route sort order, with general messages last within a priority;
  - normalization;
  - the list/non-list dispatch.
- `UseConfig.dfy` models the configuration strings of `src/hooks/useConfig.js`:
  - the comma-separated whitelist, with split/join round trips;
  - the default InfoPoint location;
  - the trailing-slash rule, applied in place to a `Url` object's `pathname`.
- `UseInfoPointRoutes.dfy` and `UseInfoPointPublicMessages.dfy` model the adapters that reshape InfoPoint data for the GTFS pipeline. Their lemmas expose three shape mismatches:
  - Adapted routes carry `routeTextColor`, but the normalizer reads `textColor`. Every shown route therefore has no text colour (`AdaptedTextColorLost`).
  - Adapted messages have no `headerText`. A message with no `Routes` has no informed entities. Through the GTFS pipeline such input either yields no message at all or throws (`AdaptedMessagesNeverShown`, `AbsentRoutesThrow`, `GeneralMessageThrows`).
  - Adapted routes have no sort order, so each alert's routes stay in entity order (`AdaptedRoutesKeepOrder`).

The model follows the code in these behaviours, some of which a reader might not expect:
- A failed input wins over a pending one (`publicMessagesFromGtfs.js:2-3`): a failed routes snapshot with pending alerts gives the failed state, not the pending one.
- The GTFS sort has no priority key, and it puts routeless alerts first (−∞). The InfoPoint sort, by contrast, orders by priority and puts general messages last within a priority.
- Routes with equal sort order keep their input order. No abbreviation tie-break is applied.
- An alert whose entities mix agency-wide markers with known routes is dropped (`:18-21`), not treated as general.
- A missing header, a missing description, an empty translation list and a missing informed-entity list all throw a TypeError, which ends the whole run. Throws are modelled as `Completion.Throw` results, not as preconditions.
- A `null` InfoPoint location makes the InfoPoint alert fetcher settle to `null`, which is the failed state, not the pending one (`useInfoPointPublicMessages.js:6`).

## Model

| member | source | states |
|---|---|---|
| Common.OrNull | src/hooks/usePublicMessages.js:149-150 | `x \|\| null`: present exactly when the colour is truthy, and then the colour itself |
| Common.MinOf | src/utils/publicMessagesFromGtfs.js:81-82 | the minimum of a non-empty key list is one of the keys and no greater than any of them |
| Common.IndexBy | src/utils/publicMessagesFromGtfs.js:12-13 | every record's id is a key of the route index; each key maps to a record of the list that carries that id |
| Common.IndexByLastWins | src/hooks/usePublicMessages.js:70-72 | for an id carried by several records, the index holds the last of them |
| Common.BuildIndex | src/utils/publicMessagesFromGtfs.js:12-13 | the `forEach` loop that assigns one key per record builds exactly `IndexBy` |
| StableSort.SortBy | src/utils/publicMessagesFromGtfs.js:68-72 | the sorted list has the same length, is a permutation of the input, and is non-decreasing by rank |
| StableSort.SortByStable | src/utils/publicMessagesFromGtfs.js:78-84 | for every rank, the elements of that rank come out in their input order |
| StableSort.SortByKeepsDistinct | src/utils/publicMessagesFromGtfs.js:68-72 | sorting a route list without repeated ids introduces no repeat |
| PublicMessagesFromGtfs.DistinctExcept | src/utils/publicMessagesFromGtfs.js:24-26 | `[...new Set(ids.filter(id => id))]`: every element is a non-empty input id, every non-empty input id is present, and none repeats |
| PublicMessagesFromGtfs.DistinctExceptFirstAppearance | src/utils/publicMessagesFromGtfs.js:24-26 | the distinct ids stand in the order of their first appearance |
| PublicMessagesFromGtfs.NestAlert | src/utils/publicMessagesFromGtfs.js:23-33 | a nested alert keeps id and texts; its route list is, position by position, the index record of each distinct non-empty route id |
| PublicMessagesFromGtfs.NestAll | src/utils/publicMessagesFromGtfs.js:18-34 | nesting throws exactly when some alert has no informed-entity list; otherwise it yields at most one alert per input alert |
| PublicMessagesFromGtfs.Nest | src/utils/publicMessagesFromGtfs.js:11-35 | `nestGtfs` throws exactly when some alert has no informed-entity list, and otherwise never yields more alerts than it was given |
| PublicMessagesFromGtfs.NestAllSingle | src/utils/publicMessagesFromGtfs.js:18-34 | a lone alert with entities nests to its nested form when the snapshot explains it, and to nothing otherwise |
| PublicMessagesFromGtfs.NestAllAppend | src/utils/publicMessagesFromGtfs.js:18-34 | nesting a concatenation succeeds exactly when both parts do, and then gives the parts' results concatenated in order, so order and multiplicity are kept |
| PublicMessagesFromGtfs.NestAllKeepsRetained | src/utils/publicMessagesFromGtfs.js:18-21 | every output alert is the nested form of an input alert whose entities all name known routes or are all agency-wide, and every such input alert is in the output |
| PublicMessagesFromGtfs.NestedRoutesResolved | src/utils/publicMessagesFromGtfs.js:24-31 | a nested alert's routes carry its distinct route ids in order, come from the route snapshot, and repeat no id |
| PublicMessagesFromGtfs.AgencyWideNestsRouteless | src/utils/publicMessagesFromGtfs.js:20-25 | an alert whose entities are all agency-wide, or that has none, is retained and nests with no routes |
| PublicMessagesFromGtfs.PruneRoutes | src/utils/publicMessagesFromGtfs.js:51-55 | the pruned routes are exactly the in-filter routes, in their original relative order, each as often as in the input |
| PublicMessagesFromGtfs.FilterGtfs | src/utils/publicMessagesFromGtfs.js:37-58 | filtering never adds alerts; order and multiplicity are the `FilterGtfsSingle` and `FilterGtfsAppend` rows |
| PublicMessagesFromGtfs.FilterGtfsSingle | src/utils/publicMessagesFromGtfs.js:37-58 | a lone alert survives, pruned, exactly when it passes |
| PublicMessagesFromGtfs.FilterGtfsAppend | src/utils/publicMessagesFromGtfs.js:37-58 | filtering a concatenation gives the parts' results concatenated, so survivors keep their order and multiplicity |
| PublicMessagesFromGtfs.FilterNullIsIdentity | src/utils/publicMessagesFromGtfs.js:39-52 | with a `null` filter nothing is removed and nothing is pruned |
| PublicMessagesFromGtfs.FilterMembership | src/utils/publicMessagesFromGtfs.js:38-43 | an alert survives exactly when the filter is `null`, it has no routes, or some route's short name is listed; it survives pruned |
| PublicMessagesFromGtfs.RoutelessPasses | src/utils/publicMessagesFromGtfs.js:40 | an alert without routes survives every filter unchanged |
| PublicMessagesFromGtfs.FilteredRoutesWhitelisted | src/utils/publicMessagesFromGtfs.js:42-55 | under a list every surviving route is listed, and a surviving alert without routes is an input alert, unchanged |
| PublicMessagesFromGtfs.AlertKey | src/utils/publicMessagesFromGtfs.js:79-82 | an alert's key is −∞ exactly when it has no routes, and otherwise the least of its routes' keys |
| PublicMessagesFromGtfs.SortGtfs | src/utils/publicMessagesFromGtfs.js:61-85 | `sortGtfs` keeps the number of alerts; order, permutation and stability are the `SortGtfs…` rows |
| PublicMessagesFromGtfs.SortGtfsPermutation | src/utils/publicMessagesFromGtfs.js:78-84 | the sorted alerts are a permutation of the input alerts, each with its routes sorted |
| PublicMessagesFromGtfs.SortGtfsRoutesOrdered | src/utils/publicMessagesFromGtfs.js:63-74 | each alert's routes are a permutation of its input routes, ascending by sort order with a missing one as +∞, ties in input order |
| PublicMessagesFromGtfs.SortGtfsAlertsOrdered | src/utils/publicMessagesFromGtfs.js:78-84 | alerts ascend by least route sort order, and every routeless alert precedes every routed one |
| PublicMessagesFromGtfs.SortGtfsStable | src/utils/publicMessagesFromGtfs.js:78-84 | alerts with equal keys keep their input order |
| PublicMessagesFromGtfs.FirstText | src/utils/publicMessagesFromGtfs.js:91-92 | `text.translation[0].text` succeeds exactly when the text exists with a non-empty translation list, and yields the first translation; it throws on the missing text, else on the empty list |
| PublicMessagesFromGtfs.NormalizeAlert | src/utils/publicMessagesFromGtfs.js:88-101 | an alert normalizes exactly when its header and description both have a first translation; a throw is about a text |
| PublicMessagesFromGtfs.NormalizeGtfs | src/utils/publicMessagesFromGtfs.js:87-103 | normalization succeeds exactly when every alert is displayable, and then preserves the count; a throw is about a text |
| PublicMessagesFromGtfs.NormalizeGtfsFields | src/utils/publicMessagesFromGtfs.js:88-101 | message `i` is alert `i`: same id, first header and description text, routes in order as `{routeId, routeShortName, routeColor, textColor}` |
| PublicMessagesFromGtfs.NormalizeHeaderless | src/utils/publicMessagesFromGtfs.js:91 | normalization throws when the first alert has no header |
| PublicMessagesFromGtfs.SentinelPropagation | src/utils/publicMessagesFromGtfs.js:2-3 | the result is failed exactly when an input failed, and pending exactly when neither failed and one is pending |
| PublicMessagesFromGtfs.PublicMessagesFromGtfs | src/utils/publicMessagesFromGtfs.js:1-9 | `publicMessagesFromGtfs` throws only on fetched inputs, and never shows more messages than there are alerts |
| PublicMessagesFromGtfs.PipelineThrows | src/utils/publicMessagesFromGtfs.js:1-9 | on fetched inputs a run throws exactly when some alert has no informed-entity list (then on `informedEntity`), or some alert that has entities, is explained by the snapshot and passes the filter lacks a header or description text (then on a text); otherwise it yields fetched messages |
| PublicMessagesFromGtfs.NormalizerThrows | src/utils/publicMessagesFromGtfs.js:5-8 | once nesting succeeds, normalization throws exactly when an alert reaching it lacks a text |
| PublicMessagesFromGtfs.ShownRoutes | src/utils/publicMessagesFromGtfs.js:23-74 | the routes left after nesting, pruning and sorting come from the snapshot, are named by the alert, are listed, and repeat no id |
| PublicMessagesFromGtfs.StagesSource | src/utils/publicMessagesFromGtfs.js:5-7 | each alert leaving the sort is a retained input alert, nested, pruned and with its routes sorted |
| PublicMessagesFromGtfs.PipelineMessageSource | src/utils/publicMessagesFromGtfs.js:1-9 | every shown message comes from a retained input alert with its id and texts, and shows only known, listed routes of that alert, each once |
| PublicMessagesFromGtfs.ShownRouteInSnapshot | src/utils/publicMessagesFromGtfs.js:1-9 | every shown route is a normalized record of the route snapshot |
| PublicMessagesFromGtfs.UnexplainedAlertHidden | src/utils/publicMessagesFromGtfs.js:15-21 | an alert naming an unknown route, and not all agency-wide, is not shown: when alert ids are unique, no shown message carries its id |
| PublicMessagesFromGtfs.GeneralAlertSorted | src/utils/publicMessagesFromGtfs.js:37-43 | an all-agency-wide alert reaches the sorted list, without routes, under every filter |
| PublicMessagesFromGtfs.GeneralAlertShown | src/utils/publicMessagesFromGtfs.js:1-9 | such an alert is shown under every filter, as a message without routes |
| UsePublicMessages.Join | src/hooks/usePublicMessages.js:67-79 | one message per input message, in order, keeping id, text and priority; an absent `Routes` becomes `[]`; every route id keeps its position and holds a record with that id from the route list, or `undefined` exactly when no route has the id |
| UsePublicMessages.FetchJoin | src/hooks/usePublicMessages.js:67-79 | the index loop followed by the message loop computes exactly `Join` |
| UsePublicMessages.LookupMeaning | src/hooks/usePublicMessages.js:78 | a lookup yields a record with that id from the route list, or `undefined` exactly when no route has the id |
| UsePublicMessages.JoinLastRouteWins | src/hooks/usePublicMessages.js:70-72 | where routes share an id, the join finds the last of them |
| UsePublicMessages.ResolveAll | src/hooks/usePublicMessages.js:95-101 | reading a property of an `undefined` route entry throws, and only then |
| UsePublicMessages.PruneToList | src/hooks/usePublicMessages.js:101 | the pruned routes are exactly the listed ones, in their order, each as often as in the input |
| UsePublicMessages.FilterByList | src/hooks/usePublicMessages.js:93-102 | filtering by a list never adds messages; order and multiplicity are the `FilterByListSingle` and `FilterByListAppend` rows |
| UsePublicMessages.FilterByListSingle | src/hooks/usePublicMessages.js:93-102 | a lone message survives, pruned, exactly when it is general or names a listed route |
| UsePublicMessages.FilterByListAppend | src/hooks/usePublicMessages.js:93-102 | filtering a concatenation gives the parts' results concatenated, so survivors keep their order and multiplicity |
| UsePublicMessages.FilterByListMembership | src/hooks/usePublicMessages.js:93-98 | with a list, a message survives exactly when it is general or some route's abbreviation is listed, and survives pruned |
| UsePublicMessages.FilterByListShape | src/hooks/usePublicMessages.js:94-101 | general messages survive unchanged; survivors show only listed routes; a survivor without routes is an unchanged input message |
| UsePublicMessages.FilterPublicMessagesAsWritten | src/hooks/usePublicMessages.js:92-103 | the filter as written throws only on a `null` list or an unresolved route, and never adds messages |
| UsePublicMessages.FilterPublicMessages | src/hooks/usePublicMessages.js:92-103 | the filter with `null` meaning no filter throws only on an unresolved route, never adds messages, and keeps every message when the list is `null` |
| UsePublicMessages.FilterNullDefect | src/hooks/usePublicMessages.js:101 | without a list the written filter throws exactly when some message has routes, and the corrected one keeps every message and route; with a list the two agree |
| UsePublicMessages.FilterNullCounterexample | src/hooks/usePublicMessages.js:101 | one message with one known route and no list: the written filter throws, the corrected one passes it through |
| UsePublicMessages.Comparable | src/hooks/usePublicMessages.js:113 | `ensureComparable`: a number is itself, anything else +∞, never −∞ |
| UsePublicMessages.MinComparable | src/hooks/usePublicMessages.js:114 | the intended minimum: +∞ for no keys, otherwise one of the keys and no greater than any |
| UsePublicMessages.MinComparableAsWritten | src/hooks/usePublicMessages.js:114 | `Math.min(values)` as written: whenever it yields a number, that number is a lower bound of the keys |
| UsePublicMessages.MinComparableDefect | src/hooks/usePublicMessages.js:114 | the written minimum equals the intended one exactly for at most one route |
| UsePublicMessages.MinComparableCounterexample | src/hooks/usePublicMessages.js:114 | sort orders 5 and 1: intended key 1, written key NaN |
| UsePublicMessages.SortPublicMessages | src/hooks/usePublicMessages.js:112-132 | `sortPublicMessages` with the intended minimum keeps the number of messages; order, permutation and stability are the `SortPublicMessages…` rows |
| UsePublicMessages.SortPublicMessagesPermutation | src/hooks/usePublicMessages.js:116-131 | the sorted messages are a permutation of the input messages, each with its routes sorted |
| UsePublicMessages.SortPublicMessagesRoutesOrdered | src/hooks/usePublicMessages.js:116-122 | each message's routes are a permutation of its own, ascending by sort order with a non-number as +∞, ties in input order |
| UsePublicMessages.SortPublicMessagesOrdered | src/hooks/usePublicMessages.js:123-131 | messages ascend by priority, a non-number last; at equal priority by least route sort order; a general message precedes only messages with no numbered route |
| UsePublicMessages.SortPublicMessagesStable | src/hooks/usePublicMessages.js:123-131 | messages with equal priority and route key keep their input order |
| UsePublicMessages.NormalizePublicMessages | src/hooks/usePublicMessages.js:141-152 | one display message per input message |
| UsePublicMessages.NormalizeFields | src/hooks/usePublicMessages.js:141-152 | message `i` keeps id, text and priority; its routes keep id and abbreviation in order, a falsy colour becoming `null` |
| UsePublicMessages.PublicMessages | src/hooks/usePublicMessages.js:50-56 | the hook's value throws only for a fetched list, and never shows more messages than were fetched |
| UsePublicMessages.PublicMessagesOutcome | src/hooks/usePublicMessages.js:50-56 | pending and failed pass through unchanged; a list throws exactly when a message names an unknown route id |
| UsePublicMessages.PublicMessagesNullFilter | src/hooks/usePublicMessages.js:50-56 | without a list as many messages are shown as were fetched, and each fetched message appears with its id and as many routes as it names |
| UsePublicMessages.PublicMessagesByPriority | src/hooks/usePublicMessages.js:123-126 | shown messages ascend by priority, a non-number priority after every number |
| UseConfig.Split | src/hooks/useConfig.js:89 | `split(',')` yields at least one piece and no piece contains a comma |
| UseConfig.JoinSplit | src/hooks/useConfig.js:89 | joining the pieces with commas gives back the value |
| UseConfig.SplitJoin | src/hooks/useConfig.js:89 | splitting comma-joined comma-free pieces gives back the pieces |
| UseConfig.DropBlank | src/hooks/useConfig.js:89 | the filter keeps exactly the non-empty pieces, in order, each as often as in the input |
| UseConfig.ParseRoutes | src/hooks/useConfig.js:88-90 | `parseRoutes` gives `null` exactly for an absent value, and otherwise only non-empty, comma-free route ids |
| UseConfig.ParseRoutesShape | src/hooks/useConfig.js:88-90 | absent gives `null` and only absent does; `""` gives `[]`; otherwise the non-empty comma-free pieces of the value, in order, each as often as in the value |
| UseConfig.ParseRoutesRoundTrip | src/hooks/useConfig.js:88-90 | a whitelist of non-empty comma-free names, written comma-separated, parses back to itself |
| UseConfig.InfoPointArg | src/hooks/useConfig.js:60 | a missing argument becomes `https://bustracker.pvta.com/InfoPoint/rest/` |
| UseConfig.WithTrailingSlash | src/hooks/useConfig.js:62 | the rule always leaves a trailing slash |
| UseConfig.TrailingSlashRule | src/hooks/useConfig.js:62 | the pathname ends in `/` afterwards, gains at most that one character, is unchanged exactly when it already ended in `/`, and the rule is idempotent |
| UseConfig.ParseInfoPoint | src/hooks/useConfig.js:59-64 | `null` exactly when parsing fails; otherwise a new URL whose pathname got the trailing-slash rule in place |
| UseInfoPointRoutes.AdaptRoutes | src/hooks/useInfoPointRoutes.js:8 | one route record per InfoPoint route |
| UseInfoPointRoutes.AdaptRoutesFields | src/hooks/useInfoPointRoutes.js:8-13 | route `i` copies id, abbreviation, `Color` and `TextColor` without defaulting; no `textColor`, no sort order |
| UseInfoPointRoutes.AdaptedRoutesKeepOrder | src/hooks/useInfoPointRoutes.js:8-13 | the GTFS route sort leaves the adapted routes in their order |
| UseInfoPointRoutes.NormalizedAdaptedRoute | src/hooks/useInfoPointRoutes.js:12 | a normalized adapted route has no text colour |
| UseInfoPointRoutes.AdaptedTextColorLost | src/hooks/useInfoPointRoutes.js:12 | through the GTFS pipeline every shown route has no text colour, and the id, abbreviation and `Color` of an InfoPoint route |
| UseInfoPointPublicMessages.AdaptMessages | src/hooks/useInfoPointPublicMessages.js:9 | one alert per InfoPoint message |
| UseInfoPointPublicMessages.FetchAlerts | src/hooks/useInfoPointPublicMessages.js:6 | never pending; failed exactly when the location is `null`; otherwise one alert per message |
| UseInfoPointPublicMessages.AdaptMessagesFields | src/hooks/useInfoPointPublicMessages.js:9-16 | alert `i` has the message id, no active period, no header, a one-translation description of the text, and one entity per route id in order, undefined when `Routes` is absent |
| UseInfoPointPublicMessages.AdaptedSortedHeaderless | src/hooks/useInfoPointPublicMessages.js:11-15 | every adapted alert reaching the normalizer lacks a header |
| UseInfoPointPublicMessages.AdaptedMessagesNeverShown | src/hooks/useInfoPointPublicMessages.js:9-16 | through the GTFS pipeline adapted messages yield no message or a throw for a missing entity list or header |
| UseInfoPointPublicMessages.AbsentRoutesThrow | src/hooks/useInfoPointPublicMessages.js:14 | a message without `Routes` makes the pipeline throw at nesting |
| UseInfoPointPublicMessages.GeneralMessageThrows | src/hooks/useInfoPointPublicMessages.js:11-15 | with every `Routes` present, a general message makes the pipeline throw for want of a header |

## Findings

| source | as written | input that shows it | evidently intended | confidence | as-written member | corrected member |
|---|---|---|---|---|---|---|
| src/hooks/usePublicMessages.js:114 | `Math.min(values)` receives the array itself. An array of two or more numbers converts to NaN, so the route tie-break never orders routed messages with several routes | two routes with sort orders 5 and 1 give NaN, not 1 | the least route sort order, `Math.min(...values)`, as the doc comment at :27 and :106 promises | high; not executed | UsePublicMessages.MinComparableAsWritten, shown by UsePublicMessages.MinComparableDefect and UsePublicMessages.MinComparableCounterexample | UsePublicMessages.MinComparable, ordered by UsePublicMessages.SortPublicMessagesOrdered |
| src/hooks/usePublicMessages.js:101 | the route pruning calls `routeAbbreviations.includes` without the `instanceof Array` guard of :94, so with no whitelist (`null`) it throws for every message that has routes | no whitelist and one message with one known route | with no whitelist, keep every route, as the doc comments at :30 and :88 promise | high; not executed | UsePublicMessages.FilterPublicMessagesAsWritten, shown by UsePublicMessages.FilterNullDefect and UsePublicMessages.FilterNullCounterexample | UsePublicMessages.FilterPublicMessages, shown by UsePublicMessages.PublicMessagesNullFilter |

The dispatch `UsePublicMessages.PublicMessages` runs the corrected filter and sort.

## Left out

- React hooks and timers (`useState`, `useEffect`, `useMemo`, `useCallback`, `setInterval`, `src/hooks/useRefresh.js`, `usePublicMessages.js:33-48`): asynchronous periodic refresh. Their outputs appear only as the `Pending | Failed | Ready` inputs of the pipelines.
- Network and decoding (`fetch`, `response.json()`, `arrayBuffer()`, protobuf and CSV decoding): I/O and foreign libraries. The model starts from decoded records. A fetch that rejects is the `Failed` input.
- `new URL(...)`: a browser library. `UseConfig.ParseInfoPoint` takes the parser as a parameter that yields the pathname or nothing. Other URL fields, and the normalization the `pathname` setter applies, are not modelled. The `gtfsScheduleUrl` and `gtfsRealtimeAlertsUrl` options only call the parser and are not modelled.
- Presentation and page wiring (`src/App.jsx`, `src/components/`, `src/hooks/useDynamicHeight.js`) and build tooling: display logic only.
- Record fields the pipelines copy by spreading but never read (for example `activePeriod` after nesting) are kept only where they are read or written.
- Route and message ids are modelled as the strings they become as property keys. JavaScript's falsy numeric id `0`, and hits of `in` on inherited properties such as `constructor`, are not modelled.
- PublicMessagesFromGtfs.AlertKey: a route whose sort-order field is absent or empty counts as +∞ in an alert's key, as it does in the route comparator (`:69-70`). The alert comparator (`:81`) applies `Math.min` to the raw fields instead: an absent field gives NaN there, and an empty one gives 0, because `Number("")` is 0. Neither the NaN nor that 0 is modelled. `parseInt` of a non-numeric field also gives NaN, which is not modelled either; sort orders are integers.
- UsePublicMessages.MinComparableAsWritten: only the NaN key is modelled. The order a sort produces with the resulting inconsistent comparator is implementation-defined and is not modelled.
- UsePublicMessages.Comparable: numbers are modelled as integers. Fractional priorities and sort orders are not modelled.
- UsePublicMessages.ResolveAll: all the ways the later stages read a property of an `undefined` route are collapsed into one throw with one reason. Which stage throws first is not modelled.
- `Array.prototype.sort` works in place on arrays that the pipelines have just built. Nothing else holds those arrays, so the sorts are modelled as functions on sequences.
