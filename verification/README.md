# Cascade, modelled in Dafny

Cascade runs a pipeline of named steps that pass messages through named
streams. Every message carries a *cascade id*, which records its lineage:

- a source item is `name:count=i`;
- a transform extends its parent's id with `/step`;
- a merge is `[id|id|...]/step`, with the parents in sorted order.

Every message put on a stream is written to a store keyed by
`(stream name, cascade id)`. Before producing, a step checks that store for
its output id. That check is what makes re-running a pipeline idempotent.

A stream hands each message to its consumers:

- every consumer of weight 0 gets a copy;
- exactly one consumer of positive weight gets it, chosen by hashing the id
  into the weight-expanded consumer list.

A manager tracks which steps are registered and which are idle. It signals
completion once every step is idle and every queue is empty.

The model covers four files of the repository:

- `cascade_base.py`: the message lineage functions, the stream, the store
  (as a log of rows), the manager with `restore_state` and `unroll`.
- `cascade_steps.py`: step set-up, one round of each run loop, and the idea
  generator.
- `app.py`: the explorer's id parser, its position analysis and its grouping.
- `cascade_utils.py`: the chat templates of the built-in tokenizers.

Code that changes state in place is modelled as Dafny classes:
`Storage`, `Stream`, `CascadeManager` and `Step`. Their methods change the
fields the Python changes. Each method is proved against a pure function of
the old state, and the lemmas beside that function state what the source
promises. Loops become `while` loops with invariants; pure Python code
becomes functions.

Modules:

- `Base` (base.dfy): `Option`, `Result` and the Python exceptions raised.
- `Text` (text.dfy): string order, `split`/`join`, `index`/`rindex`, decimal `int()` and `str()`.
- `Sorting` (sorting.dfy): `sorted` as an insertion sort, with uniqueness of sorted permutations.
- `Values` (values.dfy): JSON payloads, `Message`, `int()` of a payload, truthiness, ordered dicts.
- `Lineage` (lineage.dfy): `derive_cascade_id`, `merge_cascade_ids`.
- `Store` (store.dfy): the storage table as an insert-only log of rows.
- `Streams` (streams.dfy): `Stream`, and `put`'s routing as the pure function `Deliver`.
- `Unroll` (unroll.dfy): the path and prefix walk of `CascadeManager.unroll`.
- `Manager` (manager.dfy): `CascadeManager`.
- `Wiring` (wiring.dfy): the stream-spec loop of `Step.setup` as a pure fold `Wire`.
- `Steps` (steps.dfy): `Step` with `setup`, one round of each `run` loop, and the pure functions that specify them.
- `IdeaSource` (idea_source.dfy): `StepIdeaSource._setup` and `generate`.
- `Explorer` (explorer.dfy): `parse_cascade_id`, `analyze_cascade_paths`, `group_by_splits`.
- `Chat` (chat.dfy): `InternalTokenizer.apply_chat_template`, `tokenizer_internal`, `build_tokenizer`.

Some external inputs become parameters:

- Python's `hash` is a function `h: string -> int`.
- A transform's `process` is a function `Json -> Result<Json>`.
- A source's `generate` is a function `gen: nat -> Result<Json>`, indexed by
  the item number.
- `random.sample` is a function `pick`. It is constrained by `SamplerSound`:
  it returns that many distinct draws from the population.

An `asyncio` queue read on an empty queue would wait. The model returns
`WouldBlock` instead, and that round is `Blocked`.

A few facts about the code shape the model:

- A step's ports are whatever its stream configuration names, and `setup`
  wires every one of them. The run loops read only the ports named `input`
  (transform, sink) and `output` (transform, source); a missing one is a
  `KeyError`.
- A step whose output id is already stored skips the message. It does not
  publish the stored output again.
- Idempotency rests only on the store's existence check. Nothing claims,
  commits or rolls back work.
- `unroll` cannot take apart a merge nested in a merge
  (`Unroll.PathsOfNestedMerge`), and `parse_cascade_id` ends a merge group at
  its first `]`.

## Model

| member | source | states |
|---|---|---|
| `Text.LeTotalOrder` | cascade_base.py:27 | the string order that `sorted` uses is reflexive, antisymmetric, transitive and total |
| `Text.IndexFrom` | app.py:18 | `str.index(c, start)`: the first position at or after `start` holding `c`, or none when no such position exists |
| `Text.LastIndexOf` | cascade_base.py:252 | `str.rindex(c)`: the last position holding `c`, and none exactly when `c` does not occur |
| `Text.SplitJoin` | cascade_base.py:267-269 | joining parts that avoid the separator and splitting again gives back the parts |
| `Text.JoinSplit` | cascade_base.py:267-269 | splitting and joining again gives back the text |
| `Text.ParseInt` | cascade_steps.py:31 | `int()` of a string accepts exactly optional-sign decimal digits; digits give their decimal value, `-` digits its negation and `+` digits the value itself |
| `Text.ParseIntOfSigned` | cascade_steps.py:31 | `int("-" + str(n)) == -n` and `int("+" + str(n)) == n` |
| `Text.DigitsLeadingZero` | cascade_steps.py:31 | a leading `0` does not change the value of a numeral, so `int("007") == 7` |
| `Text.Split` | cascade_base.py:267 | `str.split` always gives at least one part |
| `Text.Join` | cascade_base.py:269 | the `join` of parts begins with the first part |
| `Text.NatToString` | cascade_steps.py:97 | `str(i)` of a count is a non-empty string of decimal digits |
| `Text.DigitsOfNat` | cascade_steps.py:97 | the digits of `str(n)` read back as `n` |
| `Text.ParseIntOfNat` | cascade_steps.py:97 | `int(str(n)) == n` for every count |
| `Text.NatToStringInjective` | cascade_steps.py:97 | different counts print differently |
| `Sorting.SortBySorted` | cascade_base.py:27 | under a total order the sort result is ordered |
| `Sorting.SortBy` | cascade_base.py:27 | the sort result is a permutation of its input |
| `Sorting.SortedUnique` | cascade_base.py:27 | two ordered permutations of the same elements are equal |
| `Sorting.SortByCanonical` | cascade_base.py:27 | permuting the input does not change the sort result |
| `Values.PyInt` | cascade_steps.py:94 | `int()` of a payload: an int is kept; `True` is 1 and `False` 0; a string converts iff it is a decimal numeral, to the value `ParseInt` gives, and otherwise raises `ValueError`; every other failure is a `TypeError` |
| `Values.Field` | cascade_steps.py:161 | a dict lookup finds a key iff some field has it, and returns the first such field's value |
| `Lineage.ParamLeTotalOrder` | cascade_base.py:21 | the order `sorted` uses on `(key, value)` pairs is total |
| `Lineage.RenderParams` | cascade_base.py:21 | each parameter renders as `k=v`, one per parameter, in order |
| `Lineage.ParamSuffix` | cascade_base.py:20-22 | the suffix is empty iff there are no parameters, and otherwise starts with `:` |
| `Lineage.DeriveId` | cascade_base.py:17-23 | with a parent, the id starts with the parent followed by `/` |
| `Lineage.MergeIds` | cascade_base.py:26-28 | a merged id starts with `[` and ends with `]/` and the step |
| `Lineage.DeriveExtendsPath` | cascade_base.py:17-23 | with an empty parent the id is the step segment; otherwise the id's `/`-parts are the parent's parts plus one new segment |
| `Lineage.ParamSuffixSorted` | cascade_base.py:20-22 | non-empty parameters give `:` and the `,`-join of the `k=v` renderings of a key-sorted permutation of them |
| `Lineage.DeriveIgnoresParamOrder` | cascade_base.py:20-22 | permuting the parameters does not change the derived id |
| `Lineage.MergeIdsShape` | cascade_base.py:26-28 | a merged id is `[`, the `\|`-join of a sorted permutation of the parents, `]/` and the step |
| `Lineage.MergeIgnoresOrder` | cascade_base.py:26-28 | any permutation of the same parents yields the same merged id |
| `Store.Storage.constructor` | cascade_base.py:31-64 | a new store holds no rows |
| `Store.Storage.Store` | cascade_base.py:74-79 | a row is inserted iff no row with the same stream and id exists (the primary key of line 62); the log grows by exactly that row |
| `Store.Storage.Exists` | cascade_base.py:66-72 | `exists` holds iff some stored row has that stream and id, the key `Store` refuses to insert twice |
| `Store.MessagesOf` | cascade_base.py:81-91 | a message is listed for a stream iff a row of that stream holds it |
| `Store.MessagesOfAppend` | cascade_base.py:81-91 | a new row extends only its own stream's message list, at the end (the `created_at` order, taken to be insertion order) |
| `Store.StreamNames` | cascade_base.py:93-96 | each stream with a row is listed once, and no other |
| `Store.MessagesOfAbsent` | cascade_base.py:93-96 | a stream that is not listed has no messages |
| `Store.MessagesOfUniqueIds` | cascade_base.py:62 | under the primary key, one stream's messages have pairwise different ids |
| `Store.FirstWithId` | cascade_base.py:98-112 | the first row, in log order, whose message has the id, or none when no row has it |
| `Store.GetMessage` | cascade_base.py:98-112 | a message is found iff some row has that id; the one found has the id and is stored |
| `Streams.Repeat` | cascade_base.py:142 | `[c] * n` holds `n` copies of `c`, none when `n <= 0` |
| `Streams.Expand` | cascade_base.py:138-142 | every entry of the weight-expanded list is a registered consumer |
| `Streams.RepeatCount` | cascade_base.py:142 | `[c] * n` holds `c` exactly max(n, 0) times and nothing else |
| `Streams.ExpandCount` | cascade_base.py:138-142 | each consumer occurs in the weighted list as often as its positive weight (never when its weight is 0 or negative), and the list is as long as the total weight |
| `Streams.Chosen` | cascade_base.py:144-147 | a consumer is hashed to iff the weighted list is non-empty, and it is a registered consumer |
| `Streams.ChosenSpec` | cascade_base.py:144-147 | some consumer is chosen iff some weight is positive, and the chosen consumer's weight is positive, so a weight-0 consumer is never the hashed choice |
| `Streams.Broadcast` | cascade_base.py:139-141 | the broadcast adds no queue and only appends to queues |
| `Streams.BroadcastSpec` | cascade_base.py:139-141 | exactly the weight-0 consumers get the message appended; every other queue is unchanged |
| `Streams.Deliver` | cascade_base.py:137-148 | `put` adds no queue and only appends to queues |
| `Streams.DeliverSpec` | cascade_base.py:138-148 | a consumer's queue gets the message appended iff its weight is 0 or it is the hashed choice; no queue appears or disappears |
| `Streams.DeliverNoConsumers` | cascade_base.py:134-135 | with no consumers nothing is enqueued |
| `Streams.Stream.constructor` | cascade_base.py:115-118 | a new stream has no consumers |
| `Streams.Stream.RegisterConsumer` | cascade_base.py:120-122 | the consumer gets a fresh empty queue and the given weight; re-registering keeps its place in the order; other consumers are unchanged |
| `Streams.Stream.CheckExists` | cascade_base.py:124-126 | `check_exists` asks the storage about this stream's name and the id, as `Store.Storage.Exists` |
| `Streams.Stream.Put` | cascade_base.py:128-150 | the message is stored unless `_no_store` (a duplicate key fails before anything is enqueued), then routed as `Deliver` says; with no consumers no queue changes |
| `Streams.Stream.Dispatch` | cascade_base.py:137-148 | the queues become `Deliver` of the old queues |
| `Streams.Stream.Spread` | cascade_base.py:138-142 | the loop builds the weight-expanded list and gives every weight-0 consumer the message |
| `Streams.Stream.Get` | cascade_base.py:152-158 | an unknown consumer is a `ValueError`; an empty queue waits; otherwise the head is returned and removed, and nothing else changes |
| `Streams.Stream.IsEmpty` | cascade_base.py:160-162 | true iff every consumer queue is empty |
| `Unroll.StepName` | cascade_base.py:243-245 | the text before the first `:` of a segment (all of it when there is none) |
| `Unroll.StepNameOfSegment` | cascade_base.py:243-245 | the step name of a derived segment `step:k=v,...` is the step |
| `Unroll.Record` | cascade_base.py:270-275 | one lookup only adds a key to the history |
| `Unroll.WalkPath` | cascade_base.py:266-275 | walking one path only adds keys to the history |
| `Unroll.Paths` | cascade_base.py:247-262 | the only error taking an id apart is `ValueError` |
| `Unroll.Walk` | cascade_base.py:264-275 | walking paths only adds keys to the history, and no path adds none |
| `Unroll.UnrollOf` | cascade_base.py:239-277 | `unroll` succeeds iff the id can be taken apart, and otherwise raises `ValueError` |
| `Unroll.PathsOfChain` | cascade_base.py:251-262 | an id without `[` is its own single path (none when empty) |
| `Unroll.PathsOfGroup` | cascade_base.py:251-258 | a leading group `[a\|b]...` yields its `\|`-parts |
| `Unroll.PathsOfMerge` | cascade_base.py:251-262 | the paths of a merged id are its parents, in sorted order |
| `Unroll.PathsOfNestedMerge` | cascade_base.py:250-258 | merging ids one of which holds a `[` (every id with each `]` after some `[`, as lineage ids are) raises `ValueError` |
| `Unroll.NestedFails` | cascade_base.py:250-253 | an id opening with `[` that has a second `[` before any `]` raises `ValueError` |
| `Unroll.PathsCut` | cascade_base.py:250-258 | when the text before some `[` already fails, the whole id fails |
| `Unroll.WalkPathKeys` | cascade_base.py:265-275 | the history gains exactly the step names of the stored prefixes of a path |
| `Unroll.WalkPathKeeps` | cascade_base.py:273-275 | an entry not overwritten by a later stored prefix keeps its value |
| `Unroll.WalkPathLastHit` | cascade_base.py:273-275 | a step name holds the payload of its last stored prefix |
| `Unroll.UnrollRecordsOwnStep` | cascade_base.py:239-277 | unrolling a stored derived id records the step's own payload under the step's name |
| `Manager.Replay` | cascade_base.py:185-186 | replaying with `_no_store` leaves the log alone and delivers the messages in order |
| `Manager.DeliverAllNoConsumers` | cascade_base.py:182-186 | replaying into a stream without consumers leaves it without queues |
| `Manager.AllIdleIff` | cascade_base.py:208 | with idle steps a subset of steps, equal sizes mean equal sets |
| `Manager.CollectPaths` | cascade_base.py:248-262 | the merge-peeling loop computes `Paths` |
| `Manager.LookupPaths` | cascade_base.py:265-275 | the prefix loop computes `Walk` over the paths |
| `Manager.CascadeManager.constructor` | cascade_base.py:165-170 | a new manager has no streams, no steps, no idle steps and has not completed |
| `Manager.CascadeManager.GetStream` | cascade_base.py:173-177 | a stream is created only on the first request for its name, with no consumers; afterwards the same stream is returned and nothing changes |
| `Manager.CascadeManager.RestoreState` | cascade_base.py:179-186 | storage is never written; every stored stream exists afterwards and its queues are the old queues with its stored messages delivered in the order `MessagesOf` lists them; other streams are unchanged |
| `Manager.CascadeManager.RestoreStream` | cascade_base.py:182-186 | one stream of the restore loop is fetched and replayed, and the restore invariant grows by that name |
| `Manager.CascadeManager.ReplayStream` | cascade_base.py:184-186 | one stream's stored messages are re-delivered without writing storage |
| `Manager.CascadeManager.MarkStepIdle` | cascade_base.py:188-195 | the step is added to both steps and idle steps; completion is set iff it was set or every step is now idle and every stream empty; nothing else changes |
| `Manager.CascadeManager.MarkStepActive` | cascade_base.py:197-204 | the step is added to steps and removed only from idle steps; completion and streams are unchanged |
| `Manager.AllStreamsEmpty` | cascade_base.py:209 | `all(stream.is_empty() ...)`: every stream's consumer queues are empty; `CheckCompletion` and `MarkStepIdle` state completion through it |
| `Manager.CascadeManager.CheckCompletion` | cascade_base.py:206-232 | completion becomes set iff the idle and step counts agree and every stream is empty; once set it stays set |
| `Manager.CascadeManager.RegisterStep` | cascade_steps.py:23 | the step becomes known; nothing else changes |
| `Manager.CascadeManager.Unroll` | cascade_base.py:239-277 | the history is `UnrollOf` the id over the stored rows |
| `Wiring.ParseSpec` | cascade_steps.py:28-29 | a spec without `:` is a producer on that stream; otherwise the text splits at its last `:` into stream and weight |
| `Wiring.ParseConsumerSpec` | cascade_steps.py:28-31 | `stream:n` parses to that stream with weight `n` |
| `Wiring.Fetch` | cascade_steps.py:30-33 | `get_stream` on the registry adds the stream, empty, only when it is new |
| `Wiring.Enrol` | cascade_base.py:120-122 | registration sets the consumer's weight and empties its queue; other consumers are unchanged |
| `Wiring.Bind` | cascade_steps.py:28-34 | one entry adds its stream and touches no other stream |
| `Wiring.WireOne` | cascade_steps.py:27-34 | after a failure nothing changes; an entry fails iff its weight does not parse; a good entry adds its stream and binds its port to it |
| `Wiring.Wire` | cascade_steps.py:26-34 | after a failure nothing changes; streams and ports are only added |
| `Wiring.WireOneFails` | cascade_steps.py:31 | an entry fails iff wiring had already failed or its weight does not parse |
| `Wiring.WireFails` | cascade_steps.py:26-34 | wiring fails iff some entry's weight does not parse |
| `Wiring.WireFailureStays` | cascade_steps.py:26-34 | once an entry fails, the rest of the loop changes nothing |
| `Wiring.WireOneBinds` | cascade_steps.py:28-34 | a successful entry binds its port to its stream |
| `Wiring.WireBinds` | cascade_steps.py:26-34 | after successful wiring every port is bound to its configured stream, and the streams known are the old ones plus the configured ones |
| `Wiring.LastWeightOnAt` | cascade_steps.py:31 | when a stream is consumed twice, the last entry's weight wins |
| `Wiring.BindEnrols` | cascade_steps.py:28-31 | a consumer entry registers the step on its stream with the parsed weight |
| `Wiring.WireRegisters` | cascade_steps.py:26-34 | after successful wiring the step consumes every stream named by a consumer entry, with the weight of the last such entry |
| `Wiring.WireKeepsOthers` | cascade_steps.py:26-34 | wiring a step never changes another consumer's weight or queue |
| `Steps.RootId` | cascade_steps.py:97 | the step name of a source's item id (the part before the first `:`) is the source's own name, so `unroll` files the item under it; `RootIdIsDerived` and `RootIdInjective` give the rest |
| `Steps.RootIdIsDerived` | cascade_steps.py:97 | a source's item id is the id `derive_cascade_id` gives for the step with `count=i` and no parent |
| `Steps.RootIdInjective` | cascade_steps.py:97 | different item numbers give different ids |
| `Steps.SetupHook` | cascade_steps.py:148-199 | `_setup` fails exactly when the idea source lacks `count` or `schema`, the template step lacks `template`, or the completion step has no truthy `model`; other steps never fail |
| `Steps.TransformIteration` | cascade_steps.py:52-81 | a round ends active iff the input queue had a message; otherwise queues and log are untouched |
| `Steps.TransformMessage` | cascade_steps.py:60-76 | every message received leaves the step active |
| `Steps.TransformSkipsExisting` | cascade_steps.py:63-66 | when the derived id is already stored the input is consumed, nothing is published and storage is unchanged |
| `Steps.TransformPublishes` | cascade_steps.py:63-76 | a published message has the derived id, the processed non-null payload and the step as source; it was not stored before; the log grows by that one row, it is routed on the output stream, and unique keys stay unique |
| `Steps.TransformRedeliverySkips` | cascade_steps.py:63-66 | once a message has been published, a later delivery of the same input id is skipped |
| `Steps.SourceErrorStays` | cascade_steps.py:114-116 | the first exception ends the generation loop |
| `Steps.SourceItem` | cascade_steps.py:97-109 | one item adds no stream |
| `Steps.SourceEmit` | cascade_steps.py:96-109 | the generation loop adds no stream |
| `Steps.SourceRunSpec` | cascade_steps.py:94-109 | a run adds no stream, and without an `output` port it writes nothing |
| `Steps.SourceItemRow` | cascade_steps.py:97-109 | one item either leaves the log alone or appends exactly the new row for `name:count=i` |
| `Steps.SourceEmitGrows` | cascade_steps.py:96-109 | the loop only appends to the log and keeps keys unique |
| `Steps.SourceEmitRows` | cascade_steps.py:96-109 | every row the loop adds is an item of this source below the item count |
| `Steps.SourceCovers` | cascade_steps.py:96-109 | after a run without exception, every item id below the count is stored unless its generator gave `None` |
| `Steps.SourceAllStored` | cascade_steps.py:99-100 | when every item id is already stored the run changes nothing |
| `Steps.SourceRerunEmitsNothing` | cascade_steps.py:96-109 | re-running a completed source emits nothing and writes nothing |
| `Steps.SinkMessage` | cascade_steps.py:132-135 | a received message leaves the sink active and changes no queue |
| `Steps.SinkIteration` | cascade_steps.py:124-140 | a sink round ends active iff the input queue had a message; otherwise no queue changes |
| `Steps.SinkRecordsTransform` | cascade_steps.py:238-251 | the sink's history of a transform's output holds the transform's stored payload under its name |
| `Steps.TakeFrom` | cascade_steps.py:58 | `get` on the input stream as a change of the registry: unknown consumer, waiting, or the head popped |
| `Steps.EmitOn` | cascade_steps.py:76 | `put` of a new message appends its row and routes it on that stream |
| `Steps.EnrolIn` | cascade_steps.py:31 | `register_consumer` changes only that stream's registry entry |
| `Steps.StreamFor` | cascade_steps.py:30-33 | `get_stream` inside set-up: only a new name adds an empty stream |
| `Steps.FetchFor` | cascade_steps.py:28-33 | one entry's stream is fetched and, for a consumer spec with a parsing weight, the step is registered; the registry follows `Bind` or `Fetch` |
| `Steps.WireEntry` | cascade_steps.py:27-34 | one pass of the set-up loop does what `WireOne` says |
| `Steps.WireLoop` | cascade_steps.py:26-34 | the set-up loop does what `Wire` says, ports and registry alike |
| `Steps.Emit` | cascade_steps.py:96-109 | the generation loop does what `SourceEmit` says |
| `Steps.EmitItem` | cascade_steps.py:97-109 | one pass of the generation loop does what `SourceItem` says |
| `Steps.Step.constructor` | cascade_steps.py:13-18 | a new step has its name, configs and params, no manager and no ports |
| `Steps.Step.Setup` | cascade_steps.py:20-36 | the step is registered; ports and registry are what `Wire` gives; a weight `int()` rejects is a `ValueError`, otherwise `_setup`'s result; storage is untouched |
| `Steps.Step.TransformOnce` | cascade_steps.py:52-81 | one round of the transform loop: marked idle (which may set completion), then queues, log, outcome and idleness are as `TransformIteration` says |
| `Steps.Step.Receive` | cascade_steps.py:58-81 | receiving and handling a message after the idle mark |
| `Steps.Step.Accept` | cascade_steps.py:60-76 | marked active, then the message is handled as `TransformMessage` says |
| `Steps.Step.Handle` | cascade_steps.py:62-76 | existence check, `process` and publication as `TransformMessage` says |
| `Steps.Step.SourceRun` | cascade_steps.py:89-116 | the source is marked active, generates as `SourceRunSpec` says, and always ends idle, which may set completion |
| `Steps.Step.Produce` | cascade_steps.py:94-109 | `max_items` is parsed (default 1), then the items are generated |
| `Steps.Step.SinkOnce` | cascade_steps.py:124-140 | one round of the sink loop: marked idle, then the outcome, queues and idleness are as `SinkIteration` says; storage is untouched |
| `Steps.Step.SinkReceive` | cascade_steps.py:130-135 | receiving and sinking a message after the idle mark |
| `Steps.Step.SinkAccept` | cascade_steps.py:132-135 | marked active, then the message's history is unrolled |
| `IdeaSource.IdeaSetup` | cascade_steps.py:148-152 | set-up succeeds iff both `count` and `schema` are given, else `ValueError` |
| `IdeaSource.Member` | cascade_steps.py:162-173 | `key in v` fails only with `TypeError`, for a number, bool or null; on a dict it holds exactly when `v[key]` succeeds |
| `IdeaSource.Index` | cascade_steps.py:163 | `param['sample']` succeeds iff the value is a dict with that key |
| `IdeaSource.GetField` | cascade_steps.py:164 | `param.get(k, d)` gives the key's value when present and the default when missing, and fails on a non-dict |
| `IdeaSource.SetField` | cascade_steps.py:169 | `result[key] = v` sets that key and leaves every other key as it was, adding at most one field |
| `IdeaSource.Population` | cascade_steps.py:165 | `random.sample` accepts a list or a string as population |
| `IdeaSource.FieldValue` | cascade_steps.py:162-174 | a number, bool or `None` schema entry is a `TypeError`, and only a dict entry gives a value |
| `IdeaSource.Item` | cascade_steps.py:160-176 | the inner loop building one item; its meaning is carried by `ItemSnoc`, `ItemOmits`, `ItemHolds`, `ItemFields` and `ItemFailureStays` |
| `IdeaSource.ItemSnoc` | cascade_steps.py:160-174 | an item is the item of the schema without its last entry, with that entry's value set when it gives one |
| `IdeaSource.ItemOmits` | cascade_steps.py:160-174 | a key no schema entry names is not in the item |
| `IdeaSource.ItemHolds` | cascade_steps.py:160-174 | with distinct schema keys each key holds the value its entry gives |
| `IdeaSource.GenerateSpec` | cascade_steps.py:154-178 | without `count` it is a `KeyError`; a result is a dict or a list |
| `IdeaSource.FieldValueShape` | cascade_steps.py:162-174 | a `sample` field gives one draw when one is asked and `always_array` is false, otherwise a list of that many draws taken without replacement from the population; a `constant` field gives its value; a field with neither is omitted |
| `IdeaSource.ItemFields` | cascade_steps.py:160-174 | an item holds exactly the schema keys that produce a value, each with its field's value |
| `IdeaSource.ItemFailureStays` | cascade_steps.py:161-174 | the first failing field ends the item |
| `IdeaSource.Items` | cascade_steps.py:159-176 | `count` items are built, the k-th as `Item` says |
| `IdeaSource.ItemsFailureStays` | cascade_steps.py:159-176 | the first failing item ends generation |
| `IdeaSource.GenerateShape` | cascade_steps.py:154-178 | a count of 1 gives one object, any other count a list of that many objects |
| `IdeaSource.Generate` | cascade_steps.py:154-178 | the nested loops compute `GenerateSpec` |
| `IdeaSource.GenerateItems` | cascade_steps.py:159-176 | the outer loop reading `params['schema']` on each pass: no items for a count below 1, `KeyError` without a schema, `AttributeError` when it is not a dict, otherwise the `count` items `Items` describes |
| `IdeaSource.BuildItem` | cascade_steps.py:160-176 | the inner loop builds `Item` |
| `Explorer.NonEmpty` | app.py:24-32 | only empty components are dropped |
| `Explorer.Unbracket` | app.py:15-21 | removing merge groups fails only with `ValueError` |
| `Explorer.Components` | app.py:9-34 | `parse_cascade_id` fails only with `ValueError` |
| `Explorer.ParseCascadeId` | app.py:9-34 | the scan computes `Components`: merge groups removed, then the non-empty `/`-parts |
| `Explorer.ScanOne` | app.py:15-29 | one pass of the scan keeps the loop invariant |
| `Explorer.ScanGroup` | app.py:16-21 | a merge group is skipped up to its `]` (and one `/` after it) without changing what is left to parse, or an unclosed `[` fails |
| `Explorer.ScanChar` | app.py:22-29 | any other character ends or extends the current component and keeps the loop invariant |
| `Explorer.UnbracketSkip` | app.py:16-21 | a merge group is skipped up to its first `]` together with one `/` right after it |
| `Explorer.UnbracketOpen` | app.py:16-21 | a leading merge group, with one `/` right after it, is dropped |
| `Explorer.UnbracketUnclosed` | app.py:18 | a `[` with no later `]` makes the scan fail with `ValueError` |
| `Explorer.SlashEnds` | app.py:23-26 | a `/` ends the current component, which is kept iff non-empty |
| `Explorer.CharExtends` | app.py:27-28 | any other character extends the current component |
| `Explorer.TrailingKept` | app.py:31-32 | a non-empty trailing component is kept |
| `Explorer.ComponentsWellFormed` | app.py:9-34 | every component is non-empty and holds neither `/` nor `[` |
| `Explorer.UnbracketFailsIff` | app.py:16-18 | the scan raises iff some `[` has no later `]`, and then the error is `ValueError` |
| `Explorer.ComponentsFailIff` | app.py:18 | `parse_cascade_id` raises `ValueError` exactly on an unclosed `[` |
| `Explorer.ComponentsOfJoin` | app.py:9-34 | parsing the `/`-join of well-formed components gives them back |
| `Explorer.ComponentsOfDerived` | app.py:9-34 | parsing a derived id gives the parent's components followed by the step |
| `Explorer.ParseAll` | app.py:42 | the list comprehension parses every id, or raises the first error |
| `Explorer.ParseAllEach` | app.py:42 | the k-th parsed path is the components of the k-th id |
| `Explorer.ParsePaths` | app.py:42 | the parse loop computes `ParseAll` |
| `Explorer.ValuesAtIff` | app.py:45-47 | a value is seen at position i iff some path has it there |
| `Explorer.CollectValues` | app.py:45-47 | the nested loops fill each position's set with `ValuesAt` |
| `Explorer.MaxLen` | app.py:53 | no path is longer, and some path has that length |
| `Explorer.FirstAtIn` | app.py:57 | the common value taken is one of the values seen there |
| `Explorer.Classify` | app.py:55-59 | the position loop; its meaning is carried by `ClassifyCount`, `ClassifyUnique`, `ClassifyComplete` and `ClassifyCommon` |
| `Explorer.ClassifyCount` | app.py:55-59 | every position below the longest path is classified once |
| `Explorer.ClassifyUnique` | app.py:55-59 | every unique position has more than one value seen there, and the unique positions increase |
| `Explorer.ClassifyComplete` | app.py:55-59 | every position without exactly one value is unique |
| `Explorer.SinglePositions` | app.py:55-59 | the positions below `n` with exactly one value seen, in increasing order |
| `Explorer.ClassifyCommon` | app.py:55-59 | the common list has one value per single-valued position, in position order, and the j-th is the only value seen at the j-th such position |
| `Explorer.ClassifyPositions` | app.py:55-59 | the classification loop computes `Classify` |
| `Explorer.DefaultAxes` | app.py:61-70 | splits followed by compares is the unique list; there is one compare, the last, iff there are two or more unique positions |
| `Explorer.AnalyzeSpec` | app.py:36-72 | no messages is a `ValueError`; there is at most one compare position |
| `Explorer.AnalyzeSpecMeaning` | app.py:36-72 | a successful analysis had messages; its splits and compares are the increasing unique positions, at most one compare, and the j-th common value is the sole value at the j-th single-valued position |
| `Explorer.AnalyzeCascadePaths` | app.py:36-72 | the method computes `AnalyzeSpec`, including `ValueError` for no messages |
| `Explorer.PyIndex` | app.py:82 | Python list indexing, negative indices from the end, `IndexError` outside |
| `Explorer.Pick` | app.py:82 | the key tuple holds the indexed components in order; `IndexError` iff some index is out of range |
| `Explorer.EntryOf` | app.py:79-85 | a message's keys; the defaults are `('all',)` and `('value',)` |
| `Explorer.Entries` | app.py:78-85 | a successful pass gives one entry per message |
| `Explorer.EntriesErrorStays` | app.py:78-88 | the first failing message ends the grouping |
| `Explorer.Grouped` | app.py:76-88 | the `defaultdict` appends; its meaning is carried by `GroupedKeys` and `GroupedSelect` |
| `Explorer.GroupedKeys` | app.py:76-88 | there is a group exactly for each split key that occurs, and the key order lists each once |
| `Explorer.GroupedSelect` | app.py:76-88 | each group holds exactly the `(compare_key, msg)` pairs with its split key, in input order |
| `Explorer.GroupBySplits` | app.py:74-90 | the loop computes `GroupBy` |
| `Explorer.GroupBy` | app.py:74-90 | grouping succeeds iff every message gives its entry |
| `Explorer.GroupEntry` | app.py:79-85 | one pass of the loop builds `EntryOf` |
| `Chat.Contents` | cascade_utils.py:39-41 | the comprehension fails only with `KeyError` |
| `Chat.FirstWith` | cascade_utils.py:43-45 | the first message with that role, and none when no message has it |
| `Chat.ContentsSpec` | cascade_utils.py:39-45 | the comprehension succeeds iff every message has a role and those of the role have content; its head is the first such message's content, and it is empty iff there is none |
| `Chat.Render` | cascade_utils.py:50-64 | the rendering holds at least the three texts and ends with the assistant text |
| `Chat.RenderExtendsPrompt` | cascade_utils.py:50-64 | in both layouts the assistant text follows the prompt verbatim |
| `Chat.RenderHeader` | cascade_utils.py:50-64 | vicuna opens with `SYSTEM: ` and alpaca with `### Instruction:` and a newline |
| `Chat.ApplyChatTemplateSpec` | cascade_utils.py:38-47 | the first system message or the default, the first user message, and the first assistant message or "" are rendered; no user message is an `IndexError`; a message lacking a read key is a `KeyError` |
| `Chat.ApplyChatTemplate` | cascade_utils.py:38-47 | it fails only with `KeyError` or `IndexError`, and an empty conversation is an `IndexError` |
| `Chat.BuildTokenizer` | cascade_utils.py:67-73 | `None` gives no tokenizer, an internal name its table entry unchanged, any other name a pretrained tokenizer by that name |
| `Chat.BuiltInFormats` | cascade_utils.py:49-71 | `internal:vicuna` and `internal:alpaca` give the vicuna and alpaca layouts |

## Left out

- The SQLite storage class (cascade_base.py:30-112), its threads and transactions: storage is an insert-only log of `(stream, message)` rows, so a duplicate key fails as the primary key makes it.
- `get_message` is modelled as returning the first stored row with the id. SQL without `ORDER BY` fixes no row.
- Store.MessagesOf: `get_all_messages` orders rows by `created_at` (cascade_base.py:84), which `CURRENT_TIMESTAMP` fills to the second (cascade_base.py:61). The model assumes the clock never goes back and that rows stamped in the same second come back in insertion order.
- Store.StreamNames: `get_all_streams` (cascade_base.py:95) has no `ORDER BY`. The model lists names by first appearance, and no contract depends on that order.
- `asyncio` queues, events, tasks, cancellation and `wait_for_completion`: each loop is modelled as one sequential round. Awaiting an empty queue is the `Blocked` outcome; the `while True` around a round is not modelled.
- Python's `hash`, `process`, `generate` and `random.sample` are parameters: nothing is claimed about their values.
- `print`, debug output and the progress line of `_check_completion`.
- Text.ParseInt: accepts only ASCII decimal digits with an optional sign. Python's `int()` also accepts other Unicode decimal digits, surrounding whitespace and `_` separators; those are not modelled.
- Values.PyInt: `Json` has no floating-point values, so `int()` of a float (`int(2.5) == 2`) is not modelled.
- Steps.Step.Setup: requires the step's existing ports to be wired into the manager already, which holds for a freshly constructed step. The manager and ports are stored once the loop is over; nothing reads them in between.
- `StepExpandTemplate.process` (jinja2), `StepLLMCompletion.process` with `universal_llm_request` (aiohttp), `AutoTokenizer`, and `StepJSONSink`'s md5 file name, directory creation and file write. External code is not modelled. The sink's outcome carries the id and the entries of the unrolled history it would write, but not the order in which the file lists them (see `Unroll.WalkPath` below).
- Chat.ApplyChatTemplate: the `tokenize`, `add_generation_prompt` and `bos_token` arguments are ignored by the source and not modelled. Message contents are strings.
- Unroll.Paths: `unroll` keeps only the text before each `[` and the `|`-parts inside the group; the text after its `]` is dropped (cascade_base.py:255-258). So for `[a|b]/m` neither the merge step's own output nor anything derived from it appears in the history. `ValueError` is raised only for a `[` with no later `]` (cascade_base.py:252-253). The model does the same; a merge nested in a merge is such a case (`Unroll.PathsOfNestedMerge`).
- Unroll.WalkPath: the history is a `map<string, Json>`, which has no order. In the source it is a dict (cascade_base.py:241), and `result[step_name] = ...` (cascade_base.py:275) keeps a key where it was first assigned. That order is observable: `json.dump` writes the sink's file in it (cascade_steps.py:249-252), and the explorer iterates `history.items()` in it (app.py:174). For `s:count=0/t` the file lists `s` before `t`. The model states which keys the history holds and their values (`WalkPathKeys`, `WalkPathKeeps`, `WalkPathLastHit`), not the order of the keys.
- Unroll.Record: one assignment into the history; it does not model where the key is placed, for the reason given under `Unroll.WalkPath`.
- Unroll.Walk: the history's key order is not modelled, as under `Unroll.WalkPath`.
- Unroll.UnrollOf: the returned dict is modelled as a map, so its first-assignment key order is not modelled, as under `Unroll.WalkPath`.
- Manager.LookupPaths: the prefix loop fills a map, so the dict's first-assignment key order is not modelled, as under `Unroll.WalkPath`.
- Manager.CascadeManager.Unroll: the result is `UnrollOf`'s map, so the returned dict's key order is not modelled, as under `Unroll.WalkPath`.
- Manager.CascadeManager.RegisterStep: `Step.setup` calls `register_step` (cascade_steps.py:23), but `CascadeManager` (cascade_base.py:164-277) does not define it, so the code as shown would raise `AttributeError` there. The model assumes it adds the step name to the known steps and changes nothing else.
- `generate` receives the item number so that different items may differ; the source calls it without arguments.
- The streamlit `main` of app.py, `cascade_main.py`, `main.py` and the example pipelines: configuration and UI only.
- `universal_llm_request` (cascade_utils.py:8-31): network I/O.
