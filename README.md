# Zeitgeist event log: engine, extensions and data hub

Zeitgeist logs user activity as *events*. An event has a timestamp, an interpretation, a manifestation, an actor, an origin, an optional payload and a list of *subjects*, which are the files or URIs it concerns. This project models three parts of the system in Dafny and proves properties of the model:

- **The engine** (`engine.dfy`, with `glob.dfy`, `templates.dfy`, `moves.dfy` and `ranking.dfy`).
  - It stores events under increasing ids and interns every attribute value into per-table rows.
  - It answers `get_events` through an event cache and selects events with templates.
  - Templates support `!` negation, `*` prefix matching and ontology-aware interpretation and manifestation types.
  - The `optimize_glob` rewrite turns a prefix match into a range query.
  - Inserting a move event rewrites the `current_uri` of earlier events.
  - Matching events are grouped, ranked and cut to a limit by result type.
  - The engine source is not part of this model. The engine's behaviour is taken from what `test/engine-test.py` asserts of it.
- **The extensions collection** (`extension.dfy`). It loads and unloads extension classes and keeps a table of their published methods. It runs every extension's insert hook, stopping at the first block, and every get hook, without stopping.
- **The data hub logger** (`datahub.dfy`). It keeps a queue of data sources whose items still have to be sent to the engine, and a flag saying that an update is in progress. The flag decides whether a new idle callback is registered and when the callback stops.

`datamodel.dfy` holds the `Event` and `Subject` values. `wrappers.dfy` holds the `Option`, `Result` and `Outcome` types that stand in for `None` and for raised exceptions.

State that the source changes in place is modelled as a Dafny `class`:
- the event store, `Engine.EventStore`;
- the extension collection, `Extensions.ExtensionsCollection`;
- the hub, `DataHub.DataHub`.

Each method keeps a `Valid()` invariant and states its new state: field by field for a single operation, and for a batch of inserts as the fold of single inserts over the events, with the tables stated as growing by exactly what the batch stores and the cache as only losing entries. Template matching, the glob rewrite, the move rewrite and ranking are pure functions of the stored events, with lemmas about them.

## Model

| member | source | states |
|---|---|---|
| Glob.UpperBound | test/engine-test.py:888-908 | there is no upper bound exactly when the prefix consists of U+10FFFF code points only |
| Glob.UpperBoundShape | test/engine-test.py:888-897 | the upper bound drops the trailing U+10FFFF code points and raises the last remaining one by one |
| Glob.OptimizeGlobExact | test/engine-test.py:842-908 | for every prefix (empty, non-ASCII, ending in or made of U+10FFFF) and every value, the range filter holds exactly when the value starts with the prefix |
| Glob.SameRows | test/engine-test.py:842-908 | on any table the range query returns the same rows, in the same order, as `GLOB 'prefix*'` |
| Glob.CountSelected | test/engine-test.py:842-908 | the range query returns as many rows as start with the prefix |
| Glob.TestRowHeads | test/engine-test.py:846-853 | the code points that start the two non-ASCII rows of the test table |
| Glob.TestRowCountAscii | test/engine-test.py:855-862 | prefix "h" selects 2 of the 6 rows |
| Glob.TestRowCountUnicode | test/engine-test.py:864-870 | prefix "ä ☠ å" selects 1 row |
| Glob.TestRowCountAll | test/engine-test.py:880-886 | the empty prefix selects all 6 rows |
| Glob.TestRowCountMaxLast | test/engine-test.py:888-897 | a prefix ending in U+10FFFF selects 1 row |
| Glob.TestRowCountMaxOnly | test/engine-test.py:899-908 | a prefix made only of U+10FFFF selects 1 row |
| Templates.ParseFilter | test/engine-test.py:639-724 | an empty field imposes nothing; subject text and storage take the value literally; otherwise the leading `!`, the value and the trailing `*` spell the field back |
| Templates.NegationIsComplement | test/engine-test.py:639-704 | `!v` matches a value exactly when `v` does not, with or without `*` |
| Templates.LiteralBang | test/engine-test.py:706-715 | on subject text `!boo` matches only the text "!boo" |
| Templates.WildcardIsPrefix | test/engine-test.py:791-816 | `p*` matches exactly the values starting with `p` |
| Templates.WildcardIsRangeQuery | test/engine-test.py:791-816 | `p*` matches exactly the values that the `optimize_glob` range of `p` selects |
| Templates.FieldsOnly | test/engine-test.py:639-724 | a template without subject templates matches an event with a subject exactly when its four event fields match |
| Templates.EventNegationIsComplement | test/engine-test.py:639-704 | a template with `!v` in interpretation, manifestation, actor or origin selects exactly the events the template with `v` leaves out |
| Templates.OntologyExamples | test/engine-test.py:726-746 | `!AUDIO` rejects only audio; `!MEDIA` rejects media, audio and video but not a document; `MEDIA` accepts audio |
| Moves.ApplyMove | test/engine-test.py:972-1033 | a move keeps the number of stored events, their ids and their numbers of subjects |
| Moves.MoveOnlyEarlier | test/engine-test.py:1009-1033 | a move changes only current URIs, and leaves move events and events at or after its timestamp untouched |
| Moves.MoveReachesEarlier | test/engine-test.py:1009-1033 | on an earlier non-move event, a subject whose current URI is the moved URI gets the new location, and any other subject keeps its current URI |
| Moves.TimeWarp | test/engine-test.py:1009-1033 | moving A to X at 500 rewrites the A events at 100, 200 and 300 and leaves the B event at 400 and the A event at 500 |
| Moves.MoveEventsAreNotRewritten | test/engine-test.py:973-994 | after x→y at 200 and y→x at 300 the plain event is back at x while the stored first move keeps y |
| Ranking.Insert | test/engine-test.py:338-360 | inserting a group adds exactly that group to the sequence |
| Ranking.InsertSorted | test/engine-test.py:338-360 | inserting into a sequence sorted by the order keeps it sorted |
| Ranking.Sort | test/engine-test.py:338-360 | the result is sorted by the order and is a permutation of the groups |
| Ranking.SortDistinct | test/engine-test.py:1063-1399 | sorting keeps the group keys distinct |
| Ranking.SortPartition | test/engine-test.py:1063-1399 | sorted groups still partition the events by key, with correct representatives and sizes |
| Ranking.AddEventPartition | test/engine-test.py:1063-1399 | adding one event to a partition by key yields the partition of the longer event list |
| Ranking.GroupByPartition | test/engine-test.py:1063-1399 | grouping yields one group per distinct key; its size counts that key's events and its representative is the most recent one (the oldest for `OldestActor`) |
| Ranking.AllRankedPartition | test/engine-test.py:1063-1399 | the ranked groups are a partition of the matching events by the result type's key |
| Ranking.RankedCorrect | test/engine-test.py:1063-1399 | the result has one entry per key, up to the limit, sorted by the result type's order; each entry is its group's representative; everything the limit cuts ranks no better than what it keeps |
| Ranking.RankedCoversAllKeys | test/engine-test.py:1063-1399 | without a limit every key of a matching event appears in the result |
| Ranking.PerEventKeys | test/engine-test.py:1065-1093 | events with distinct ids have as many per-event keys as events |
| Ranking.PerEventResult | test/engine-test.py:1065-1093 | ungrouped and unlimited, the result has one id per event and holds exactly the ids of the events |
| Extensions.PlainExtension | _zeitgeist/engine/extension.py:20-74 | a class that keeps `Extension`'s hooks returns every event unchanged from both hooks |
| Extensions.InsertChainAppend | _zeitgeist/engine/extension.py:123-130 | running two lists of insert hooks runs the second on the first's result, unless the first blocked the event |
| Extensions.InsertBlockedStaysBlocked | _zeitgeist/engine/extension.py:123-130 | once a hook returns `None`, no later hook runs and the event stays blocked |
| Extensions.GetFoldAppend | _zeitgeist/engine/extension.py:108-121 | get hooks compose: the second list sees whatever the first returned |
| Extensions.DefaultHooksIdentity | _zeitgeist/engine/extension.py:36-74 | with only default hooks both chains hand every event back unchanged |
| Extensions.GetHooksSeeBlockedEvents | _zeitgeist/engine/extension.py:108-121 | a `None` from one get hook is passed to the next hook, which may return an event again |
| Extensions.RegisterAllKeeps | _zeitgeist/engine/extension.py:97-99 | registering methods never drops or rebinds a method already registered |
| Extensions.RegisterAllPass | _zeitgeist/engine/extension.py:97-99 | registration succeeds exactly when the names are distinct, attributes of the class and not yet taken; it then adds exactly those names, each bound to the class |
| Extensions.Without | _zeitgeist/engine/extension.py:106 | removing a class name from the hook order removes exactly that name and keeps the order free of duplicates |
| Extensions.DistinctCard | _zeitgeist/engine/extension.py:132-133 | a duplicate-free order of names has as many entries as the set of names |
| Extensions.ExtensionsCollection.constructor | _zeitgeist/engine/extension.py:79-82 | a new collection has no extensions and no methods |
| Extensions.ExtensionsCollection.LoadDefaults | _zeitgeist/engine/extension.py:83-85 | the new state and outcome are those of loading the defaults in turn from the old state and stopping at the first failure (`Extensions.LoadAll`), with the methods a failed load registered kept; when all loads succeed every default is stored |
| Extensions.LoadAllStoresEach | _zeitgeist/engine/extension.py:83-85 | when every default loads, each one is stored under its class name and no earlier extension is lost |
| Extensions.ExtensionsCollection.Hooks | _zeitgeist/engine/extension.py:114 | the loaded extensions, one per name, in the order they were first loaded |
| Extensions.ExtensionsCollection.Count | _zeitgeist/engine/extension.py:132-133 | `len` is the number of extensions in the hook order |
| Extensions.ExtensionsCollection.GetAttr | _zeitgeist/engine/extension.py:144-148 | a registered name gives its method; any other name gives `AttributeError` |
| Extensions.ExtensionsCollection.LoadedMethodsReachable | _zeitgeist/engine/extension.py:97-100 | every method a loaded extension published is found by name, bound to that extension |
| Extensions.ExtensionsCollection.RegisterMethod | _zeitgeist/engine/extension.py:139-142 | a taken name gives `ValueError` and changes nothing; a new name adds exactly that entry |
| Extensions.ExtensionsCollection.Load | _zeitgeist/engine/extension.py:90-100 | a non-subclass gives `TypeError` and a missing method list gives `ValueError`, both changing nothing; otherwise the methods are registered in turn, and the extension is stored under its class name only when all of them went in; the new state and outcome are `Extensions.LoadInto` of the old state |
| Extensions.ExtensionsCollection.Unload | _zeitgeist/engine/extension.py:102-106 | an unknown class gives `KeyError` and changes nothing; otherwise exactly the stored extension's methods and the extension itself are removed |
| Extensions.ExtensionsCollection.ApplyInsertHooks | _zeitgeist/engine/extension.py:123-130 | the result is the insert-hook chain over the loaded extensions in order |
| Extensions.ExtensionsCollection.ApplyGetHooks | _zeitgeist/engine/extension.py:108-121 | `None` gives `None`; otherwise the result is the fold of every get hook in order |
| DataHub.DataHub.constructor | src/zeitgeist_loggers/zeitgeist-datahub.py:26-38 | the sources are those of every datasource file in order; all of them are queued, the flag is set and one idle callback is registered |
| DataHub.DataHub.LoadDatasourceFile | src/zeitgeist_loggers/zeitgeist-datahub.py:46-60 | a failed import adds nothing; a module adds its several sources, its single source, or nothing without `__datasource__`; nothing else changes |
| DataHub.DataHub.UpdateDbWithSource | src/zeitgeist_loggers/zeitgeist-datahub.py:62-73 | the source ends up queued, never twice; a callback is registered and the flag set only when no update was in progress |
| DataHub.DataHub.UpdateDbAsync | src/zeitgeist_loggers/zeitgeist-datahub.py:75-102 | exactly the head is removed, also after an unknown service or a swallowed type error; an empty queue or another D-Bus error raises; the callback runs again exactly while sources are left, and the flag is cleared when none are |
| DataHub.ContributedAllAppend | src/zeitgeist_loggers/zeitgeist-datahub.py:31-33 | the sources of two lists of files are those of the first list followed by those of the second |
| DataHub.FailedImportContributesNothing | src/zeitgeist_loggers/zeitgeist-datahub.py:48-55 | a file that fails to import or exports nothing contributes no source, wherever it is in the list |
| Engine.Validate | test/engine-test.py:195-222 | an event passes exactly when it has no preassigned id, has a subject and has valid current URIs; a preassigned id and a missing subject are the errors reported |
| Engine.Normalize | test/engine-test.py:95-118 | a missing timestamp becomes `now`; a non-move subject without a current URI gets its URI; nothing else changes |
| Engine.Prepare | test/engine-test.py:195-222 | a refused event gives its error; a prepared event has the new id and a subject; with no hooks it is the completed event |
| Engine.Lookup | test/engine-test.py:224-227 | a found event is stored under that id; an unknown id gives nothing |
| Engine.LookupStored | test/engine-test.py:77-93 | every stored event is found by its id |
| Engine.FindDuplicate | test/engine-test.py:120-135 | it finds a stored event equal to the new one up to the id, and only such an event |
| Engine.Remove | test/engine-test.py:137-141 | exactly the events whose id is not deleted remain |
| Engine.RemoveKeepsOrder | test/engine-test.py:137-141 | removing events keeps the ids increasing |
| Engine.EntrySetByTable | test/engine-test.py:143-155 | an event needs a row in a table for exactly the values it sets in that table's fields |
| Engine.EntriesIn | test/engine-test.py:143-155 | the entries hold exactly the values of each listed table, tagged with that table |
| Engine.GatherMember | test/engine-test.py:157-193 | a row is referenced exactly when some stored event refers to it |
| Engine.MoveReferences | test/engine-test.py:1009-1033 | after a move the stored events refer only to rows they referred to before or that the move event refers to, and to the same payloads |
| Engine.MovedUriIsMoveTarget | test/engine-test.py:1009-1033 | a current URI that a move changed is the new location of one of the move's subjects |
| Engine.Filter | test/engine-test.py:236-505 | a query keeps exactly the stored events that match, and no more of them than there are |
| Engine.FilterKeepsOrder | test/engine-test.py:236-505 | the selected events keep increasing ids |
| Engine.FilterComplement | test/engine-test.py:791-808 | two complementary tests split the events between them |
| Engine.FindAllSelected | test/engine-test.py:236-505 | ungrouped, the result has one id per selected event, up to the limit, and every id is that of a stored event the query selects; without a limit, every selected event's id is in it |
| Engine.NegatedActorSplits | test/engine-test.py:791-808 | the `ge*` and `!ge*` actor templates together select every event once (2 + 3 of 5) |
| Engine.SingleTemplate | test/engine-test.py:236-505 | with storage unconstrained, a one-template query selects an event in range exactly when the template matches it |
| Engine.InsertKeepsInvariants | test/engine-test.py:77-93 | inserting under the next id keeps the ids increasing and every event with a subject, and refers only to old rows and the new event's |
| Engine.RemoveKeepsInvariants | test/engine-test.py:157-193 | deleting keeps the ids increasing and refers to no new row or payload |
| Engine.StillCurrent | test/engine-test.py:1031-1033 | the cache keeps exactly the entries whose event is still stored as cached |
| Engine.StoredIdsSurvive | test/engine-test.py:229-234 | ids reported by earlier inserts remain stored after later ones |
| Engine.ReadOne | test/engine-test.py:224-234 | one read through the cache gives the stored event for the id and caches it when found |
| Engine.ReadThrough | test/engine-test.py:224-234 | one result per requested id, in order, each the stored event or nothing; the cache keeps its entries and gains every found id |
| Engine.HookEach | test/engine-test.py:224-227 | one result per event; an unknown id stays nothing |
| Engine.Get | test/engine-test.py:224-234 | one answer per id, in order: the stored event through the get hooks, or nothing; the cache only grows and stays a copy of stored events |
| Engine.InternRow | test/engine-test.py:143-155 | an existing value keeps its row; a new value gets its table's next row, and each table's counter rises by the number of its new rows |
| Engine.InternEntries | test/engine-test.py:143-155 | exactly the values set gain a row, existing rows keep their ids, and each table's counter rises by the number of its new rows |
| Engine.InternPayload | test/engine-test.py:595-626 | a non-empty payload gets a row, existing rows keep their ids, and the payload counter rises by the number of new rows |
| Engine.EmptyCounters | test/engine-test.py:143-155 | every table starts at row 0 |
| Engine.StoreEvent | test/engine-test.py:77-93 | the event is stored last under the next id, its values and payload are interned, and only still-current cache entries remain; the tables grow by exactly that event's rows and payload, old rows and payloads keep their ids and the counters count the new ones |
| Engine.Insert | test/engine-test.py:120-222 | a refused event gives its error and a duplicate gives the stored id, both changing nothing; any other event is stored under the next id; the tables grow by exactly what the insert stores (`Engine.StoredBy`): old rows and payloads keep their ids, the row and payload counters rise by the number of new rows, and the cache only loses entries |
| Engine.DropEvents | test/engine-test.py:157-193 | the events go, with their cache entries; each table keeps exactly the rows the remaining events refer to |
| Engine.EventStore.constructor | test/engine-test.py:39-57 | a new store is empty, with empty tables and cache |
| Engine.EventStore.InsertEvent | test/engine-test.py:77-222 | a refused event gives its error and a duplicate gives the stored event's id, both leaving the store unchanged; any other event is stored under the next id (a move first rewrites earlier events), its values and payload interned, and stale cache entries dropped; the new events, last id and reported id are those `Engine.Inserted` gives for the old store; the tables grow by exactly what it stores, with old rows and payloads keeping their ids, the counters counting the new rows and the cache only losing entries |
| Engine.EventStore.InsertEvents | test/engine-test.py:195-222 | the new store, last id and reported ids are those of inserting the events one after another (`Engine.InsertedAll`); one id per event; a refused event gives 0 (exactly those with no hooks); every reported id is stored; a batch of refused events changes nothing; the tables grow by exactly the rows and payloads of the events the batch stores (`Engine.StoredByAll`), old rows and payloads keep their ids, the counters count the new rows, and the cache only loses entries |
| Engine.InsertAll | test/engine-test.py:195-222 | the batch loop on the store's values: the result is the fold `Engine.InsertedAll`, and the tables grow by what `Engine.StoredByAll` says the batch stores |
| Engine.InsertNext | test/engine-test.py:195-222 | one more event of the batch keeps the loop's relation to the fold and to the tables |
| Engine.InsertedCases | test/engine-test.py:120-222 | one insert, case by case: a refused event and a duplicate store nothing and keep the events, any other prepared event is appended under the next id |
| Engine.RefusedStoresNothing | test/engine-test.py:195-222 | a batch of events that all fail the checks keeps the events and last id and stores nothing |
| Engine.NothingStored | test/engine-test.py:195-222 | tables that grow by nothing are unchanged, counters and cache included |
| Engine.StoredOne | test/engine-test.py:143-155 | the rows and payloads one stored event refers to are its own |
| Engine.TablesGrowCompose | test/engine-test.py:195-222 | growing the tables by two runs of stored events is growing them by both in order |
| Engine.CountersCompose | test/engine-test.py:143-155 | counters that count the new rows of two steps count those of both |
| Engine.InsertedAlone | test/engine-test.py:143-155 | a one-event batch without hooks of a valid event that duplicates nothing stores exactly that event, completed, under the next id |
| Engine.InsertedFirst | test/engine-test.py:137-141 | on an empty store that batch reports id 1, and deleting id 1 leaves no event |
| Engine.DeleteSingle | test/engine-test.py:137-141 | after inserting one event and deleting it by its id, the store has no events, rows or payloads |
| Engine.ReinsertedRows | test/engine-test.py:143-155 | re-inserting the event into emptied tables gives exactly its rows |
| Engine.InsertAfterDelete | test/engine-test.py:143-155 | the interning tables are empty after the delete, and after inserting the event again they hold exactly the rows that event refers to |
| Engine.SingleInsertGet | test/engine-test.py:77-93 | a valid event inserted into a new store without extensions and read back by the returned ids gives exactly one answer: the event with its defaults filled in and id 1 |
| Engine.InsertedAll | test/engine-test.py:195-222 | inserting a batch reports one id per event and never lowers the last id |
| Engine.AppendedStored | test/engine-test.py:77-93 | storing an event under the next id keeps the ids increasing, keeps every earlier id in place and finds the new event by its id |
| Engine.InsertReadsBack | test/engine-test.py:77-93 | with no hooks, a valid event that duplicates nothing is stored under the next id and reads back as the normalized event with that id |
| Engine.InsertedStored | test/engine-test.py:120-135 | one insert keeps the ids increasing and the earlier ids in place, and any nonzero id it reports, new or duplicate, is stored |
| Engine.InsertedAllStored | test/engine-test.py:229-234 | after a batch the ids still increase, the earlier ids stay in place and every nonzero reported id is stored |
| Engine.InsertedReports | test/engine-test.py:195-222 | one insert reports 0 for an event that fails the checks, and, with no hooks, a nonzero id for one that passes them |
| Engine.InsertedAllReportsAt | test/engine-test.py:195-222 | the id a batch reports for its k-th event is 0 when that event fails the checks and, with no hooks, nonzero when it passes them |
| Engine.InsertedAllReports | test/engine-test.py:195-222 | the ids a batch reports are 0 exactly for the refused events when there are no hooks, and 0 for every event failing the checks otherwise |
| Engine.EventStore.GetEvents | test/engine-test.py:224-234 | one answer per id, in order: the stored event through the get hooks, or nothing for an unknown id; the cache only grows |
| Engine.EventStore.DeleteEvents | test/engine-test.py:157-193 | the events go; each table keeps exactly the referenced rows under their old ids; deleting everything empties every table |
| Engine.EventStore.ClearCache | test/engine-test.py:1031-1033 | the cache is emptied and the store stays valid, so later answers are unchanged |
| Engine.EventStore.FindEvents | test/engine-test.py:236-505 | the events behind `find_eventids`, each read as `get_events` reads it |

## Left out

- The engine source is not part of this model. Its behaviour is taken from the assertions of `test/engine-test.py`, and the SQL row counts of the tests become the row maps of `Engine.EventStore`.
- Where the engine's own documentation and its tests differ, the model follows the tests. A move rewrites only events strictly earlier than the move, and never stored move events (test/engine-test.py:973-994, 1009-1033). A negated interpretation also rejects descendant types (test/engine-test.py:741-745). All subject templates of one event template must hold of the same subject row (`Templates.TemplateMatchesRow`), as test/engine-test.py:475-505 asserts with its "no subject with two different interpretations" query, although the documentation lets different subjects satisfy them.
- `find_related_uris` (test/engine-test.py:911-968) is not modelled: its co-occurrence computation lives in the engine source, which is not part of this model, and the tests fix only its output on fixture data.
- The JSON fixtures loaded by `import_events` are not modelled, because their files are not part of this model. Tests that depend on their data are stated as general lemmas over any stored events, not as concrete counts.
- The byte-string prefix case of `optimize_glob` (test/engine-test.py:872-878): strings are modelled as code points only.
- Storage media availability is a parameter (`mounted`); the storage table and its updates are not modelled.
- The clock: the time used for events without a timestamp is a parameter (`now`).
- Engine.Normalize: subjects of a move event are left as given.
- Engine.Prepare: a hook that returns an event without subjects is reported as `NoSubjects`; the engine's own handling of that case is not modelled, because neither the tests nor the extension code fix it.
- Engine.FindDuplicate: a duplicate is an event equal to a stored one in every field but the id.
- Engine.InternEntries: an empty string is an unset field and gets no row.
- Engine.EventStore.InsertEvents: the direct statement of which ids are 0 uses `Validate` only; which events hooks block is part of the fold `Engine.InsertedAll` that the method equals, not of a separate clause.
- Engine.EventStore.InsertEvents: the caller's `Event` objects are not completed in place. The source sets the timestamp (test/engine-test.py:95-118) and the id (test/engine-test.py:620-625) on the objects passed in; here events are immutable values, and the completed event is the one stored, which `Engine.InsertReadsBack` and `Engine.SingleInsertGet` read back.
- Ranking.KeyOf: groups by the subject fields of the event's first subject, not of the subject row that matched the templates, so an event whose other subject matched is ranked under its first subject's value.
- Engine.EventStore.GetEvents: the entries for duplicate ids are immutable values, so their independence holds by construction and is not stated.
- Ranking.Sort: ties are broken by the representative's timestamp and id only; sort stability is not stated.
- The order of Python's dictionary iteration over loaded extensions is modelled as the order in which the classes were first loaded.
- `ExtensionsCollection.__repr__` and the extension instances' reference to the engine are not modelled.
- The data hub's module import through `__import__` and `glob`, the `gobject` main loop, the "reload" signal connections (src/zeitgeist_loggers/zeitgeist-datahub.py:40-44), `print`/gettext and the D-Bus `insert_items` call are not modelled. Import results, the number of items a source yields and the insert call's outcome are parameters. Registering an idle callback and asking the loop to quit are counters.
- The engine's D-Bus front end, the full-text indexer, the blacklist extension and the Twitter data source are outside this model.
