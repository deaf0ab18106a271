# EVE industry cost-index report, modelled in Dafny

`index_checker.py` is a scheduled job. It lists the industry cost indices of the solar systems that one or more alliances hold in EVE Online, and posts the list to Slack or Discord. This project models the pure pipeline between the game-API answers and the text handed to the webhooks, and proves properties of it:

- **Ownership filter** (module `Sovereignty`). From the sovereignty-structures payload it keeps the records whose alliance is targeted and whose structure is an infrastructure hub (type 32458) or a territorial claim unit (type 32226). It yields each system id once, in order of first occurrence.
- **Region filter** (`Regions`). This is `filterByRegions`. It walks every configured region, each constellation of the region and each system of the constellation, and emits every tracked system whose id is the system just reached. The region and constellation endpoints are maps. A region or constellation with no entry is a `LookupError`, the model's stand-in for the `KeyError` the code raises on the error payload. The filter emits one copy per traversal path that reaches a tracked id (`Regions.SelectCount`), not the tracked systems whose id lies in the reached set.
- **Activity config** (`Activities`). This is the `config_idx` dict built in `GetIndices`. The user's `enabled_indices` dict comes first, in its own order, with every recognised key rewritten to `{enabled, display_name}`. Then come the recognised activities the user left out, disabled and in declaration order. Sections therefore come in declaration order only for the appended activities, not for the ones the user named. A key the user names that is not one of the six keeps its bare boolean.
- **Aggregation** (`Aggregation`, `Ranking`). This is `parseIndicesBySystemList` with `is_activity`. For every configured activity it collects the (system name, cost index) pairs above the display threshold, then sorts them ascending with a stable sort and reverses them.
- **Rendering** (`Report`, `Text`). This is `buildOutputString`. It emits one section per enabled activity, a leading newline before the first section, the fenced code block, the "Nothing to report." case and the `{0:7} {1:>8}` columns, and finally applies `rstrip()`. A bare boolean left in the config by an unrecognised user key is subscripted with `['enabled']`, which raises `TypeError`; the model reports this as `NotAnActivity`, the only way rendering can fail (`Pipeline.ReportForSucceeds`).
- **The whole run** (`Pipeline`). This is `GetIndices` from the sovereignty payload to the output string, with each HTTP answer taken as an input.

Cost indices are Dafny `real`s. The percentage formatter `indexFormatter` is a parameter `fmt: real -> string`. Python's exceptions are `Result` failures.

## Model

| member | source | states |
|---|---|---|
| `Sovereignty.QualifyingIds` | index_checker.py:118-120 | An id is listed exactly when some record qualifies: the alliance is targeted, the structure is type 32458 or 32226, and the record is in that system. |
| `Sovereignty.OwnedSystemIds` | index_checker.py:118-122 | The owned ids hold no duplicates. They are exactly the ids of qualifying records, ordered by the first record that qualifies each one. |
| `Sovereignty.OwnedOnce` | index_checker.py:121-122 | A system qualified by any number of records appears exactly once. |
| `Regions.Matching` | index_checker.py:87-89 | The innermost loop emits exactly the tracked systems whose id is the system reached. |
| `Regions.Select` | index_checker.py:86-89 | Every emitted system comes from the tracked list, and its id was reached. Every such system is emitted. |
| `Regions.SystemsOfConstellationsSpec` | index_checker.py:84-86 | The constellation loop succeeds exactly when every constellation has an entry. It then reaches exactly the systems some constellation lists. |
| `Regions.ReachedSpec` | index_checker.py:82-86 | The traversal `Regions.Reached` succeeds exactly when every region and every constellation it lists has an entry. It then reaches exactly the systems on some region-constellation path. |
| `Regions.SelectCount` | index_checker.py:82-89 | A tracked system is emitted once per traversal path that reaches its id, times its copies in the tracked list. |
| `Regions.FilterByRegionsSpec` | index_checker.py:77-91 | `filterByRegions` returns a list exactly when every configured region and each of its constellations has an entry. The list then holds exactly the tracked systems on some region-constellation path. |
| `Regions.FilterByRegionsCount` | index_checker.py:82-91 | In a successful filter, each tracked system appears its tracked-list count times the number of paths reaching its id. |
| `Regions.SelectOrder` | index_checker.py:82-89 | With distinct tracked ids, the output's ids are the reached ids that are tracked, in discovery order rather than tracked-list order. |
| `Regions.FilterByRegionsIdempotent` | index_checker.py:82-89 | With distinct tracked ids and no system reached twice, filtering the filtered list again returns it unchanged. |
| `Regions.DuplicatedRegionNotIdempotent` | index_checker.py:82-89 | A region listed twice emits its system twice, and a second filter emits it four times. |
| `Activities.DisplayNames` | index_checker.py:138-145 | The six recognised keys carry the titles Manufacturing, Reaction, ME Research, TE Research, Invention and Copying. |
| `Activities.Missing` | index_checker.py:146-151 | The appended slots are exactly the recognised keys the user left out. Each is disabled and carries its own title. |
| `Activities.MissingOrder` | index_checker.py:146-151 | The appended slots follow declaration order, each key once. |
| `Activities.Assemble` | index_checker.py:146-152 | The config holds the user's keys first, in their order, then every other recognised key, with no key twice. A titled key is enabled exactly when the user set it to true. An untitled key keeps the user's flag unconverted. |
| `Activities.AssembleConfig` | index_checker.py:135-152 | Without `enabled_indices` the config is empty. Otherwise it has the keys, order and slot contents stated for `Assemble`, over the six recognised activities. |
| `Activities.AsWrittenNeedsEveryKey` | index_checker.py:146-151 | The loop as written, `Activities.AssembleAsWritten`, succeeds only when the user names all six activities. It then yields the corrected config. |
| `Activities.ManufacturingAloneRaises` | index_checker.py:149-150 | A dict naming manufacturing alone makes the written loop raise on the undefined name `false`. The corrected assembly gives six slots. |
| `Aggregation.EntriesFor` | index_checker.py:22-23 | The filtered entries are exactly those of the given activity. The first of them is the first such entry in the list. |
| `Aggregation.FirstCost` | index_checker.py:39-40 | There is no cost exactly when no entry belongs to the activity. Otherwise the cost is that of the first entry that does. |
| `Aggregation.CollectedMembers` | index_checker.py:32-41 | A pair is collected by `Aggregation.Collected` exactly when some index record matches a tracked system by id, and the record's first entry for the activity has that cost index, strictly above the threshold. |
| `Aggregation.Aggregate` | index_checker.py:25-48 | The result has exactly the configured keys, each present even when empty. Each list is a permutation of the collected pairs, non-increasing, and lists equal costs in the reverse of their insertion order. |
| `Aggregation.AggregateAboveThreshold` | index_checker.py:40-41 | Every ranked pair is strictly above the threshold and comes from a matching record and system. |
| `Ranking.InsertMultiset` | index_checker.py:45 | One insertion step of the sort adds exactly the new pair. |
| `Ranking.InsertSorted` | index_checker.py:45 | Inserting into an ascending list keeps it ascending and adds exactly the new pair. |
| `Ranking.InsertStable` | index_checker.py:45 | Among pairs with equal cost, the inserted pair goes first and the others keep their order. |
| `Ranking.SortAscending` | index_checker.py:45 | The sort is ascending, a permutation, and stable: equal costs keep their input order. |
| `Ranking.Rank` | index_checker.py:44-46 | Sorting then reversing gives a non-increasing permutation with equal costs in reverse insertion order. |
| `Text.PadRight` | index_checker.py:70 | `{0:7}`: the name, then spaces up to at least 7 characters. |
| `Text.PadLeft` | index_checker.py:70 | `{1:>8}`: spaces, then the formatted index, ending at column 8 at least. |
| `Text.RStrip` | index_checker.py:74 | `rstrip()` keeps a prefix that ends in no whitespace, and removes only whitespace. |
| `Text.RStripAppend` | index_checker.py:74 | Stripping a text whose tail holds a non-whitespace character strips only that tail. |
| `Report.LineLayout` | index_checker.py:70 | One line holds the name, spaces to column 7, a space, spaces, the formatted index ending 8 columns later at least, and a newline. |
| `Report.EmitSucceeds` | index_checker.py:55-70 | The loop `Report.Emit` succeeds exactly when every value is a converted activity and every enabled key has a list. |
| `Report.PlannedEnabled` | index_checker.py:55-57 | On such input the sections planned are exactly the enabled activities, in config order, each with its own list. |
| `Report.EmitSpec` | index_checker.py:54-72 | The loop's text is the planned sections in config order. A single newline comes before the first section and before no other. |
| `Report.BuildOutput` | index_checker.py:51-74 | The final text has no trailing whitespace. |
| `Report.LastSectionStripped` | index_checker.py:64-74 | The final strip removes only the last section's trailing newlines. It leaves "Nothing to report." when that list is empty, and the closing fence otherwise. |
| `Report.BuildOutputShape` | index_checker.py:51-74 | The text is empty when nothing is enabled. Otherwise it is a newline, every section but the last in full, then the last section's header and its placeholder or lines and fence. |
| `Report.DisabledInvisible` | index_checker.py:56-57 | Removing a disabled activity from the config leaves the text unchanged. |
| `Pipeline.Run` | index_checker.py:114-155 | A successful run's text has no trailing whitespace. |
| `Pipeline.ReportFor` | index_checker.py:152-155 | The report after the region filter has no trailing whitespace. |
| `Pipeline.ConfigRenderable` | index_checker.py:146-152 | The assembled config renders exactly when the user named no key outside the six activities. |
| `Pipeline.AggregateCovers` | index_checker.py:26-29 | Every slot of the config has a list. |
| `Pipeline.MissingListNever` | index_checker.py:64 | With a list for every key, the report never fails for want of one. |
| `Pipeline.ReportForSucceeds` | index_checker.py:135-155 | After the region filter, the run fails exactly when a user key is not a recognised activity, and then only for that reason. |
| `Pipeline.RunSucceeds` | index_checker.py:114-155 | The run succeeds exactly when every region and constellation resolves and every user key is recognised. A lookup failure happens exactly when resolution fails. A missing list never happens. |
| `Scenarios.ManufacturingAssembled` | index_checker.py:135-152 | With line 150 read as intended (see Findings), the dict `{"manufacturing": True}` becomes six slots: manufacturing enabled, then reaction, ME research, TE research, invention and copying, disabled. |
| `Scenarios.JitaListed` | index_checker.py:36-74 | Under that six-slot config, Jita at 15% against a 10% threshold is listed, and the report is its header, the line `Jita      15.00%` and the closing fence. |
| `Scenarios.AtThresholdExcluded` | index_checker.py:40-66 | Under that config, a cost index equal to the threshold is left out, and the section reads "Nothing to report.". |
| `Scenarios.AmarrFirst` | index_checker.py:44-46 | Under that config, Amarr at 30% is ranked ahead of Jita at 20%, although Jita was collected first. |
| `Scenarios.AppendedSlotsInvisible` | index_checker.py:56-57 | The five disabled slots appended to that config leave the text exactly as for manufacturing alone. |

## Left out

- HTTP calls (index_checker.py:83, 85, 114, 132) are not modelled. Their answers are inputs: the sovereignty records, the region and constellation maps, and the industry index.
- The webhook senders (lines 94-107) are not modelled. They only deliver the finished text.
- Name resolution (lines 124-128) is a foreign service, so it is the parameter `resolveNames` of `Pipeline.Run`.
- Environment variables, loading the config file, `print` and the `__main__` entry point (lines 96, 104, 166-178) are process plumbing.
- `indexFormatter` (line 19) is float formatting. The model keeps it as an uninterpreted function `fmt`.
- Cost indices are exact `real`s, not IEEE doubles. The code only compares and sorts them.
- The in-place overwrite of `system[1]` (line 69) is not modelled. Each list is rendered once, so the model formats on the fly.
- JSON value types are not modelled: the user's `enabled_indices` values are booleans. Truthiness of other JSON values is left out.
- Activities.AssembleConfig: requires distinct user keys, which a Python dict always has.
- Activities.AssembleConfig: models `false` at line 150 as the evidently intended `False`. The code as written is modelled separately (see Findings).
- Regions.FilterByRegionsIdempotent: holds only when tracked ids are distinct and no system is reached twice. `Regions.DuplicatedRegionNotIdempotent` shows that without them a second filter changes the list.
- Pipeline.Run: its own contract states only that the text is trimmed. What the run computes is stated stage by stage, and its outcome by `Pipeline.RunSucceeds`.
- Pipeline.ReportFor: its own contract states only that the text is trimmed. Its outcome is stated by `Pipeline.ReportForSucceeds`.
- Report.BuildOutput: its own contract states only that the text is trimmed. Its content is stated by `Report.BuildOutputShape`, its success by `Report.EmitSucceeds`.

## Findings

| source | as written | input that shows it | evidently intended | confidence | as-written member | corrected member |
|---|---|---|---|---|---|---|
| index_checker.py:150 | `{ 'enabled' : false }` evaluates the undefined name `false` and raises `NameError` | `enabled_indices` = `{"manufacturing": true}` | `False`: the activity the user left out is stored disabled | high; not executed | `Activities.ManufacturingAloneRaises` | `Activities.AssembleConfig` |
