# Watch set, mode-2 dual writer, TraceQL query builder and panel keys

This Dafny project models four pieces of Grafana:

- **The watch set of the file-backed API storage**
  (`pkg/apiserver/storage/file/watchset.go`).
  - A `WatchSet` hands out node ids from a counter and keeps the registered `WatchNode`s in an id-to-node map.
  - `notifyWatchers` puts each change event on every registered node's live queue. A node that has not started yet also records the event in its buffer.
  - A started node replays its initial events, then its buffer (only when resuming from a non-zero resource version), then drains its live queue.
  - Every raw event goes through `processEvent`. It parses the resource version, applies the resume cursor and the namespace, then the selection predicate. For a modification it also applies the predicate to the old object, which turns the event into an Added or a Deleted event when the object enters or leaves the filtered view.
- **The mode-2 dual writer** (`pkg/apiserver/rest/dualwriter_mode2.go`).
  - Writes go to the legacy store first, then are mirrored into the unified store.
  - `Get` prefers the unified store.
  - `List` returns the legacy list with every item replaced by the unified item of the same name.
  - `Delete` reports only the legacy outcome.
- **The TraceQL query builder of the Tempo search editor**
  (`public/app/plugins/datasource/tempo/SearchTraceQLEditor/utils.ts`).
  - Filters become `{scope.tag op value && ...}`.
  - Tag lists are collected from the scopes the backend reports.
- **Panel keys of the dashboard scene**
  (`public/app/features/dashboard-scene/utils/utils.ts`).
  - Formats `panel-<id>` and reads the id back with JavaScript's `parseInt`.
  - Looks a panel up by key, falling back to a lookup by numeric id.

Layout:

| File | Module | Contents |
|---|---|---|
| `common.dfy` | `Common` | `Option` and `Result` |
| `decimal.dfy` | `Decimal` | decimal digit strings |
| `objects.dfy` | `Objects` | the object record: name, namespace, resource version, UID, labels, annotations, payload |
| `watch_filter.dfy` | `WatchFilter` | the per-event decisions as pure functions |
| `watch_set.dfy` | `WatchSets` | the `WatchSet` and `WatchNode` classes |
| `dual_writer.dfy` | `DualWriterMode2` | the dual writer |
| `traceql_utils.dfy` | `TraceQLUtils` | the query builder |
| `dashboard_utils.dfy` | `DashboardSceneUtils` | panel keys |

How the model represents the source:

- **Channels** are sequences: a node's live queue `updateQueue` and its output `out`.
- **Go map iteration order.** Go leaves the order of ranging over a map unspecified. `cleanupWatchers` and `notifyWatchers` take it as an explicit `order` parameter that lists every registered id once.
- **Store calls.**
  - Each dual-writer operation returns the answer together with the sequence of store calls it made.
  - A backend store is a record of functions plus flags saying which optional interfaces it implements (creater, lister, deleter, updater).
- **Panics.** In `enrichObject`, writing into a nil annotation map panics in Go. The model makes this the `AssignmentToNilMap` error.

Events that reach a node before its start-up replay:

- The node's buffer exists so that the window before `Start`'s goroutine runs does not make the node miss events (watchset.go:41-42). The replay is skipped for a resume cursor of 0 so that no event is sent twice (watchset.go:264-265).
- `Start` registers the node before it launches the goroutine (watchset.go:253-255), and `notifyWatchers` only reaches registered nodes.
- `notifyWatchers` puts the first event a node receives into its buffer *and* onto its live queue (watchset.go:115-122).
- With a non-zero cursor, the goroutine replays the buffer and then drains the live queue (watchset.go:266-280). So when that first event arrives before the replay, it is processed twice.
- `WatchSets.EventBeforeReplay` goes through these steps on the classes: `NewWatch`, `Start`, `NotifyWatchers`, `RunStartup` and `DrainUpdates`. Its contract states that the event's output appears twice for a non-zero cursor and once for cursor 0.

## Model

| member | source | states |
|---|---|---|
| WatchFilter.Atoi | pkg/apiserver/storage/file/watchset.go:138-141 | Go's `strconv.Atoi` on a 64-bit platform. A result is always within int64. A result is given only for an optional `+` or `-` followed by at least one digit and nothing else, and it is the signed decimal value. Such a string is accepted exactly when that value fits. Anything else, including the empty string, is rejected. |
| WatchFilter.AtoiOfDecimal | pkg/apiserver/storage/file/watchset.go:138-141 | Every int64, written in decimal, is parsed back to itself. |
| WatchFilter.Int64Of | pkg/apiserver/storage/file/watchset.go:143 | `int(w.requestedRV)`: the result is an int64 congruent to the cursor modulo 2^64. It is negative exactly when the cursor is 2^63 or more. |
| WatchFilter.IsValid | pkg/apiserver/storage/file/watchset.go:131-157 | An event that matches has always passed the positional filters. The full case table is `WatchFilter.IsValidCases`. |
| WatchFilter.IsValidCases | pkg/apiserver/storage/file/watchset.go:131-157 | An unparseable resource version is an error. A version at or before the cursor, or another namespace, makes the event invalid without an error. Otherwise the predicate decides, or its error is returned. The second flag is true exactly when both positional filters pass and the predicate succeeds. |
| WatchFilter.HandleAddedForFilteredList | pkg/apiserver/storage/file/watchset.go:160-176 | A missing old object is an error. An old object that did not match turns the event into Added with the new object. One that matched gives no event. A predicate error is returned. |
| WatchFilter.HandleDeletedForFilteredList | pkg/apiserver/storage/file/watchset.go:178-211 | A missing old object is an error. An old object that matched turns the event into Deleted, carrying the old object with the new resource version. One that did not match gives no event. A predicate error is returned. |
| WatchFilter.EventOutcome | pkg/apiserver/storage/file/watchset.go:213-249 | Whatever `processEvent` emits passed the positional filters. An Added or Deleted event is only ever forwarded unchanged. The full outcome table is `WatchFilter.EventOutcomeCases`. |
| WatchFilter.EventOutcomeCases | pkg/apiserver/storage/file/watchset.go:213-249 | The full outcome table of `processEvent`: errors, dropped events, and forwarded Added/Deleted events. For a modification it covers the four old/new match combinations, which give the original, Added, Deleted or nothing. Anything emitted passed the cursor and the namespace, and keeps the raw event's resource version. |
| WatchFilter.Emitted | pkg/apiserver/storage/file/watchset.go:213-249 | One raw event puts at most one event on the output. |
| WatchFilter.ProcessAllAppend | pkg/apiserver/storage/file/watchset.go:258-280 | Processing events one after another keeps their order: the output of a concatenation is the concatenation of the outputs. |
| WatchFilter.ProcessAllSnoc | pkg/apiserver/storage/file/watchset.go:276-280 | One more queued event appends exactly its own output. |
| WatchFilter.ProcessAllBounds | pkg/apiserver/storage/file/watchset.go:143-145 | No more outputs than inputs, and every output event is strictly after the resume cursor. |
| WatchSets.EventBeforeReplay | pkg/apiserver/storage/file/watchset.go:115-280 | A node created with no initial events gets one event notified after `Start` and before its replay. For a non-zero resume cursor, it outputs that event's result twice: once from the buffer and once from the live queue. For cursor 0 it outputs the result once. |
| WatchSets.DeliverKeepsValid | pkg/apiserver/storage/file/watchset.go:115-122 | Delivering an event keeps the buffer invariant: the buffer holds exactly the first delivered event, and `started` says whether any was delivered. |
| WatchSets.WatchNode.constructor | pkg/apiserver/storage/file/watchset.go:71-83 | A new node has empty queues and buffer, has not started, and satisfies the buffer invariant. |
| WatchSets.WatchNode.ProcessEvent | pkg/apiserver/storage/file/watchset.go:213-249 | The output grows by exactly what the event's outcome emits. An error is reported exactly when the outcome is an error, and it is that error. |
| WatchSets.WatchNode.Deliver | pkg/apiserver/storage/file/watchset.go:115-122 | The event is appended to the live queue. It is buffered only if the node had not started. The node is then started. |
| WatchSets.WatchNode.Start | pkg/apiserver/storage/file/watchset.go:253-255 | The node is registered under its own id, nothing else in the map changes, and the set stays valid. |
| WatchSets.WatchNode.ProcessEach | pkg/apiserver/storage/file/watchset.go:258-262 | After processing a list of events, the output is the old output followed by each event's output in order. |
| WatchSets.WatchNode.RunStartup | pkg/apiserver/storage/file/watchset.go:257-274 | The output gains the outputs of the initial events (without old objects), then, only for a non-zero cursor, those of the buffered events. |
| WatchSets.WatchNode.DrainUpdates | pkg/apiserver/storage/file/watchset.go:276-281 | Every queued event is processed in order and the queue is emptied. The output is closed exactly when the live queue was closed. |
| WatchSets.WatchNode.Stop | pkg/apiserver/storage/file/watchset.go:285-295 | Only this node's id is removed from the map, and its live queue is closed. A valid set stays valid. |
| WatchSets.WatchSet.constructor | pkg/apiserver/storage/file/watchset.go:56-61 | An empty, valid set whose counter is 0. |
| WatchSets.WatchSet.NewWatch | pkg/apiserver/storage/file/watchset.go:65-86 | The counter goes up by one. The new node gets that id, above every registered id, and is not registered. It is fresh, with the given configuration, empty live and output queues, an empty buffer, nothing delivered, and not started. |
| WatchSets.WatchSet.CleanupWatchers | pkg/apiserver/storage/file/watchset.go:88-95 | Afterwards no node is registered, every node that was registered has a closed live queue, and the counter is unchanged. A stopped node keeps its queued events, its output, its buffer and its started flag. |
| WatchSets.WatchSet.NotifyWatchers | pkg/apiserver/storage/file/watchset.go:99-124 | Every registered node received the wrapped event as `Deliver` describes, and the set stays valid. Unregistered nodes are outside the frame and unchanged. |
| DualWriterMode2.EnrichObject | pkg/apiserver/rest/dualwriter_mode2.go:127-146 | Fails exactly when the copy has no annotation map and the original has annotations (Go's nil-map panic). Otherwise the copy takes the original's labels and holds the annotations of both objects, the original's value winning on a shared key. Nothing else changes. |
| DualWriterMode2.EnrichIdempotent | pkg/apiserver/rest/dualwriter_mode2.go:137-143 | Enriching an already enriched copy from the same original changes nothing. |
| DualWriterMode2.Create | pkg/apiserver/rest/dualwriter_mode2.go:26-57 | A legacy store without create gives the no-create-method error and makes no call. A failed legacy create is returned as it is, without touching the unified store. Otherwise the unified store receives the legacy result enriched from the original, with empty resource version and UID, and its answer is returned. |
| DualWriterMode2.Get | pkg/apiserver/rest/dualwriter_mode2.go:61-73 | The unified store is asked first. The legacy store is asked exactly when the unified one fails, and then its answer is returned. The result succeeds exactly when either store has the object. |
| DualWriterMode2.Delete | pkg/apiserver/rest/dualwriter_mode2.go:148-170 | The answer is always the legacy store's triple. The unified store is asked exactly when the legacy delete succeeded or failed with not-found. |
| DualWriterMode2.DeleteIgnoresUnified | pkg/apiserver/rest/dualwriter_mode2.go:162-169 | Whatever the unified store's delete does, Delete's result is the same. |
| DualWriterMode2.Update | pkg/apiserver/rest/dualwriter_mode2.go:173-220 | The current object is read through `Get`, and a read or transform error aborts the update. A failed legacy update is returned as it is. Otherwise the unified store receives the legacy result, enriched from the updated object and carrying the current object's resource version and UID, and its answer is returned. |
| DualWriterMode2.IndexByName | pkg/apiserver/rest/dualwriter_mode2.go:101-108 | The name index points at an item that has that name. |
| DualWriterMode2.IndexByNameFindsLast | pkg/apiserver/rest/dualwriter_mode2.go:101-108 | A name is in the index exactly when some item has it, and the index points at the last such item. |
| DualWriterMode2.LastNamedIsLast | pkg/apiserver/rest/dualwriter_mode2.go:101-108 | The item found for a name is the one with the highest index among the items of that name. |
| DualWriterMode2.MergedByName | pkg/apiserver/rest/dualwriter_mode2.go:110-119 | The merged list has the legacy list's length, and position by position it is the legacy item or its replacement. |
| DualWriterMode2.MergedByNameItems | pkg/apiserver/rest/dualwriter_mode2.go:110-119 | Each merged item keeps its legacy name. It is the legacy item when the unified list has no item of that name, and otherwise an item of the unified list. |
| DualWriterMode2.IndexNames | pkg/apiserver/rest/dualwriter_mode2.go:101-108 | The first loop of List builds exactly the name index. |
| DualWriterMode2.ReplaceByName | pkg/apiserver/rest/dualwriter_mode2.go:110-119 | The second loop of List turns the legacy array, in place, into the merged list. |
| DualWriterMode2.List | pkg/apiserver/rest/dualwriter_mode2.go:77-125 | No lister gives the lister-missing error with no call. A legacy failure is returned before the unified store is asked. A unified failure is returned. Otherwise the legacy list comes back, metadata included, with its items merged by name. |
| TraceQLUtils.JoinSnoc | public/app/plugins/datasource/tempo/SearchTraceQLEditor/utils.ts:13 | Joining one more item adds the separator and that item, and only the item when the list was empty. |
| TraceQLUtils.SplitJoin | public/app/plugins/datasource/tempo/SearchTraceQLEditor/utils.ts:18 | Joining non-empty items with a character none of them contains, then splitting at it, gives the items back. |
| TraceQLUtils.ValueHelper | public/app/plugins/datasource/tempo/SearchTraceQLEditor/utils.ts:16-24 | A multi-element value and a string-typed value are written in double quotes. |
| TraceQLUtils.ValueHelperDecodes | public/app/plugins/datasource/tempo/SearchTraceQLEditor/utils.ts:16-24 | A multi-element value is one quoted string, and without its quotes it splits at the bar character back into the selections. Otherwise a string-typed value is quoted and any other value is written as it reads. |
| TraceQLUtils.ScopeHelper | public/app/plugins/datasource/tempo/SearchTraceQLEditor/utils.ts:25-33 | The prefix is empty exactly for an intrinsic tag. Any other prefix ends in its only `.`. |
| TraceQLUtils.FilterScopedTag | public/app/plugins/datasource/tempo/SearchTraceQLEditor/utils.ts:45-47 | The scoped tag ends with the tag. The scope prefix before it is empty exactly for an intrinsic. |
| TraceQLUtils.ScopedTagNamesScope | public/app/plugins/datasource/tempo/SearchTraceQLEditor/utils.ts:25-47 | An intrinsic's scoped tag is the bare tag. Any other scoped tag's text before the first `.` is `resource`, `span`, or empty for every other scope. |
| TraceQLUtils.FirstWithId | public/app/plugins/datasource/tempo/SearchTraceQLEditor/utils.ts:36 | `find` by id gives the first filter with that id, or none when no filter has it. |
| TraceQLUtils.FindByIdSnoc | public/app/plugins/datasource/tempo/SearchTraceQLEditor/utils.ts:36 | A filter appended to the list is found only when no earlier filter has its id. |
| TraceQLUtils.TagHelper | public/app/plugins/datasource/tempo/SearchTraceQLEditor/utils.ts:34-43 | The tag is kept as written, except that `duration` may become `traceDuration`. |
| TraceQLUtils.TagHelperRewritesOnlyDuration | public/app/plugins/datasource/tempo/SearchTraceQLEditor/utils.ts:34-43 | The tag is changed only for `duration`, and only to `traceDuration`. That happens exactly when the first `duration-type` filter has the value `trace`. |
| TraceQLUtils.Selected | public/app/plugins/datasource/tempo/SearchTraceQLEditor/utils.ts:11 | A filter is kept exactly when it has a non-empty tag, a non-empty operator and a value of non-zero length. |
| TraceQLUtils.SelectedAppend | public/app/plugins/datasource/tempo/SearchTraceQLEditor/utils.ts:11 | Selection keeps the input order: selecting from a concatenation concatenates the selections. |
| TraceQLUtils.NoneSelected | public/app/plugins/datasource/tempo/SearchTraceQLEditor/utils.ts:11 | Without a complete filter nothing is selected. |
| TraceQLUtils.GenerateQueryFromFilters | public/app/plugins/datasource/tempo/SearchTraceQLEditor/utils.ts:9-14 | The query is always a braced selector. |
| TraceQLUtils.QueryWithoutCompleteFilter | public/app/plugins/datasource/tempo/SearchTraceQLEditor/utils.ts:9-14 | Without a complete filter the query is `{}`. |
| TraceQLUtils.ClausesUnchangedBySnoc | public/app/plugins/datasource/tempo/SearchTraceQLEditor/utils.ts:34-43 | A new filter that does not change the duration-type lookup leaves every existing clause as it was. |
| TraceQLUtils.SelectorSnoc | public/app/plugins/datasource/tempo/SearchTraceQLEditor/utils.ts:9-14 | One more clause goes into the selector before the closing brace, after ` && ` unless it is the first clause. |
| TraceQLUtils.QueryOfAddedFilter | public/app/plugins/datasource/tempo/SearchTraceQLEditor/utils.ts:9-14 | Appending an incomplete filter leaves the query unchanged. Appending a complete one inserts its clause before the closing brace, after ` && ` when there were clauses already. Both hold unless the new filter is the first `duration-type` filter. |
| TraceQLUtils.Uniq | public/app/plugins/datasource/tempo/SearchTraceQLEditor/utils.ts:72 | lodash `uniq`: no duplicates, the same members, and never longer than the input. |
| TraceQLUtils.UniqOfDistinct | public/app/plugins/datasource/tempo/SearchTraceQLEditor/utils.ts:72 | A list without duplicates comes back unchanged. |
| TraceQLUtils.Flatten | public/app/plugins/datasource/tempo/SearchTraceQLEditor/utils.ts:67 | One-level `flat`: an element is present exactly when it is in one of the lists. |
| TraceQLUtils.TagsWhere | public/app/plugins/datasource/tempo/SearchTraceQLEditor/utils.ts:65-77 | No duplicates. A tag is present exactly when a selected scope with tags lists it. |
| TraceQLUtils.GetAllTags | public/app/plugins/datasource/tempo/SearchTraceQLEditor/utils.ts:71-73 | The distinct tags of every scope that has tags. |
| TraceQLUtils.GetUnscopedTags | public/app/plugins/datasource/tempo/SearchTraceQLEditor/utils.ts:65-69 | The distinct tags of the scopes with a non-empty name other than `intrinsic`. |
| TraceQLUtils.GetTagsByScope | public/app/plugins/datasource/tempo/SearchTraceQLEditor/utils.ts:75-77 | The distinct tags of the scopes named exactly the given non-empty scope. |
| TraceQLUtils.RemoveKeeps | public/app/plugins/datasource/tempo/SearchTraceQLEditor/utils.ts:62 | A tag is kept exactly when it is in the list and not among the static tags. |
| TraceQLUtils.RemoveAppend | public/app/plugins/datasource/tempo/SearchTraceQLEditor/utils.ts:62 | Filtering keeps order: filtering a concatenation concatenates the filtered parts. |
| TraceQLUtils.RemoveNothing | public/app/plugins/datasource/tempo/SearchTraceQLEditor/utils.ts:62 | When no element is a static tag, the list is unchanged. |
| TraceQLUtils.GetFilteredTags | public/app/plugins/datasource/tempo/SearchTraceQLEditor/utils.ts:61-63 | The filtered intrinsics followed by the filtered tags. A tag is present exactly when it is an intrinsic or a tag and not static. |
| TraceQLUtils.ReplaceAt | public/app/plugins/datasource/tempo/SearchTraceQLEditor/utils.ts:79-83 | The copy holds the value at the index and keeps every other position. An index past the end grows the copy with holes, and a negative index sets no element. |
| TraceQLUtils.OperatorSelectableValue | public/app/plugins/datasource/tempo/SearchTraceQLEditor/utils.ts:85-114 | Label and value are the operator. A description is present exactly for the eight listed operators. |
| TraceQLUtils.FilterTitle | public/app/plugins/datasource/tempo/SearchTraceQLEditor/utils.ts:49-59 | A fixed title exactly for the tag `name`, and for `service.name` in the resource scope. Otherwise the start-cased scoped tag. |
| DashboardSceneUtils.VizPanelKeyForPanelId | public/app/features/dashboard-scene/utils/utils.ts:3-5 | The key is `panel-` followed by the decimal form of the id. |
| DashboardSceneUtils.ReplaceFirst | public/app/features/dashboard-scene/utils/utils.ts:8 | Only the first occurrence of the pattern is replaced. A string without one is returned unchanged. |
| DashboardSceneUtils.TrimStart | public/app/features/dashboard-scene/utils/utils.ts:8 | `parseInt` skips exactly the leading white space and line terminators. |
| DashboardSceneUtils.LeadingDigits | public/app/features/dashboard-scene/utils/utils.ts:8 | `parseInt` reads the longest run of digits at the front. |
| DashboardSceneUtils.ParseInt | public/app/features/dashboard-scene/utils/utils.ts:8 | NaN exactly when no digit follows the white space and the optional sign. Otherwise the signed value of the leading digits. |
| DashboardSceneUtils.ParseIntOfDecimal | public/app/features/dashboard-scene/utils/utils.ts:25 | `parseInt` reads the decimal form of every integer back. |
| DashboardSceneUtils.PanelKeyIsNotANumber | public/app/features/dashboard-scene/utils/utils.ts:25-28 | A panel key itself never parses as a number. |
| DashboardSceneUtils.PanelIdForVizPanel | public/app/features/dashboard-scene/utils/utils.ts:7-9 | A key of `panel-` followed by digits gives the value of those digits. A key that does not contain `panel-` is read by parseInt as it stands. |
| DashboardSceneUtils.ParseIntOfDigits | public/app/features/dashboard-scene/utils/utils.ts:7-9 | parseInt reads a non-empty string of digits as its decimal value. |
| DashboardSceneUtils.PanelIdRoundTrip | public/app/features/dashboard-scene/utils/utils.ts:3-9 | Reading the id back from the key made for id n gives n. |
| DashboardSceneUtils.FindObject | public/app/features/dashboard-scene/utils/utils.ts:38 | The first object in search order with the key, or none when no object has it. |
| DashboardSceneUtils.FindVizPanelInternal | public/app/features/dashboard-scene/utils/utils.ts:33-48 | An empty key finds nothing. The first object with the key is returned when it is a panel, and raises the not-a-panel error otherwise. No such object gives nothing. |
| DashboardSceneUtils.FindVizPanelByKey | public/app/features/dashboard-scene/utils/utils.ts:14-31 | Whatever is found is a panel of the scene, keyed with the key asked for or with the panel key of the number that key reads as. |
| DashboardSceneUtils.FindVizPanelByKeyOrder | public/app/features/dashboard-scene/utils/utils.ts:14-31 | An empty key finds nothing. A direct match, or its error, wins over the fallback. Without one, a non-numeric key finds nothing, and a numeric key is looked up as the key of the panel with that id. |
| DashboardSceneUtils.LookupByBareId | public/app/features/dashboard-scene/utils/utils.ts:24-30 | When no object is keyed by the bare id, looking it up is the lookup of its panel key. |
| DashboardSceneUtils.LookupByPanelKey | public/app/features/dashboard-scene/utils/utils.ts:19-28 | A panel key is looked up directly, never as a number. |
| DashboardSceneUtils.LookupByIdAgreesWithPanelKey | public/app/features/dashboard-scene/utils/utils.ts:14-31 | A lookup by bare numeric id finds what the lookup by the panel key finds, as long as no object is keyed by the bare id. |

## Left out

- Concurrency in the watch set is not modelled: the mutexes, the goroutine started by `Start`, and channel capacity and blocking. `Start`'s goroutine is split into `RunStartup` and `DrainUpdates`, which the caller runs as steps, so `notifyWatchers` interleaves with them only between steps.
- `WatchSets.WatchNode.Stop`: Go panics when a live queue is closed twice. The model just closes it again.
- `ResultChan`, logging, and the initial capacities of the node map, buffer and channels (watchset.go) carry no behaviour beyond what is modelled.
- Go's unspecified map iteration order is the `order` parameter of `WatchSets.WatchSet.CleanupWatchers` and `WatchSets.WatchSet.NotifyWatchers`.
- `WatchFilter.IsValidCases`: does not model the failure to get an object's metadata accessor (watchset.go:132-136). Every modelled object has metadata.
- `WatchFilter.HandleDeletedForFilteredList`: does not model the accessor failures of watchset.go:195-205, for the same reason.
- The backend stores are fixed functions of their arguments. The model does not capture that a write changes what a later read returns.
- The dual writer drops the request context, the options and the validation functions. `Create`, `Delete`, `Update` and `List` only pass these through to the stores. `Get` passes fresh, empty get options to both stores, whatever the caller gave (dualwriter_mode2.go:62, 72), and the model's `Get` takes no options. Its logging is left out too.
- `DualWriterMode2.Create`: does not model the accessor failure of dualwriter_mode2.go:43-46.
- `DualWriterMode2.Update`: does not model the accessor failures of dualwriter_mode2.go:201-209. The `UpdatedObjectInfo` is a `transform` function, and the legacy store receives the updated object itself rather than a wrapper around it.
- `DualWriterMode2.List`: does not model the failures of `meta.ExtractList`, `meta.SetList` and the accessors (dualwriter_mode2.go:87-90, 96-99, 103-106, 111-114, 121-123).
- `WatchFilter.HandleDeletedForFilteredList`: in Go, the old object's resource version is overwritten in place (watchset.go:207). That object is shared by every node the event was delivered to and belongs to the caller of `notifyWatchers`. The model returns an updated copy, so this shared update is not captured.
- `DualWriterMode2.Create`: in Go, the object the legacy store returned is enriched in place, and its resource version and UID are then cleared in place (dualwriter_mode2.go:37-50). The model builds the mirrored object as a new value, so the change to the legacy store's object is not captured.
- `DualWriterMode2.EnrichObject`: in Go, `enrichObject` updates the copy in place through its accessor. The model returns the updated value instead, so aliasing between the copy and other references is not captured.
- `DashboardSceneUtils.VizPanelKeyForPanelId`: ids are mathematical integers. JavaScript's exponent notation for numbers of 10^21 and above, fractional ids and `-0` are not modelled.
- `DashboardSceneUtils.ParseInt`: returns the exact integer. JavaScript rounds values beyond 2^53 to the nearest double.
- `DashboardSceneUtils.PanelIdForVizPanel`: requires the panel to have a key, as the source's non-null assertion does. A missing key would throw in JavaScript.
- `sceneGraph.findObject` is abstracted to the sequence of scene objects in its search order. The scene-graph library is not part of this model.
- `forceRenderChildren` (dashboard-scene utils.ts:59-68) only triggers UI re-rendering and is left out.
- `TraceQLUtils.FilterTitle`: lodash `startCase` is kept symbolic as the `StartCase` title.
- The `intrinsics` list is a parameter. The search-scope enumeration (the generated data-query types) is not part of this model; its resource and span values are taken to be `resource` and `span`, which lower-casing leaves unchanged.
- `TraceQLUtils.ReplaceAt`: fractional and non-numeric indices are not modelled.
- JavaScript values of other types than the declared ones (a filter value that is neither a string nor an array, say) are not modelled.
