# Verified model of the AI controller's cores

A Dafny 4.11 model of six parts of the controller, with proofs of what they promise. `dafny verify dfyconfig.toml`
checks everything.

- **Artifact store** (`Calendar`, `ArtifactKeys`, `Cursor`, `ArtifactMetadata`, `Listing`, `Turns`, `Paging`,
  `SidecarCache`, `ArtifactModel`, `ArtifactLaws`, `ArtifactRebuild`, `ArtifactRuns`, `ArtifactLosses`,
  `ArtifactService`). An
  in-memory index is a disposable cache over metadata sidecars in key-value storage. `ArtifactModel` gives every
  operation as a function on the whole state (`World`: stored objects, index entries in Map order, number of storage
  calls); the classes of `ArtifactService` do the same step by step and are proved equal to it. `Env.fails` says which
  storage calls throw; what the operations keep is proved for every such function: whatever fails, the index never
  claims a record its sidecar does not hold, and it is exactly what a rebuild would read (`ArtifactRebuild.Agrees`)
  until a rebuild itself throws half way. `ArtifactLosses` shows, input by input, what the drafts that the conditions
  exclude do to the store, most of them where nothing fails. `Paging` follows the cursors of a list or a search while
  time passes between the calls.
- **Streaming parser and process slot** (`ClaudeStream`, `ClaudeAdapter`). The text a run yields and its outcome do
  not depend on how stdout was cut into chunks or how timeout and abort fall between them; over every interleaving of
  overlapping calls each call gets the result its own events determine.
- **Cross-repository planner** (`StableSort`, `Planner`). The plan does not depend on the order of the reports, and a
  repository that fails to report costs the plan its own items and nothing else. `StableSort.Sort` is shown to be the
  only function that keeps the promise ECMA-262 makes for Array.prototype.sort, so it stands for every engine.
- **Approval gate** (`Approval`, `ApprovalOverlap`). Over every run of any request, what reaches the inner core under
  the policy's gate is one for one what was approved; over every interleaving of overlapping calls each call goes
  through a gate of its own.
- **Attention dispatcher** (`Attention`) and **placeholder resolver** (`EnvPlaceholders`).

What each operation answers is also stated without the functions that compute it: which field a criterion reads
(`Listing.QueryByOwner` and its companions), what a saved record holds (`ArtifactLaws.SavedRecord`), which events of an
output line count (`ClaudeStream.TerminatedLine`), whose result a task gets (`Approval.TaskGetsItsResult`), what a plan
makes of the reports that arrived (`Planner.PlanOfReports`).

Foreign code is a parameter: storage failures and listing order, JSON text, SHA-256, `Number`, UTF-8 decoding,
`localeCompare`, `trim`/`toLowerCase` of searches, the JSON parse of an output line, the approver, the task runner, the
configuration, the notification policy. Where a theorem needs something of it, the assumption is a predicate on the
parameter (`ArtifactModel.Lawful`, `Cursor.Conforming`, `StableSort.Collation`). Ids, times and process events are
arguments. A promise that rejects is a result (`None`, `Threw`, `Failed`, an `Outcome`).

Some promises hold only under a condition, which is then proved exact, with the failing inputs beside it:

- A record survives a restart unchanged if and only if none of its texts looks like an ISO timestamp, its year has four
  digits and its mimeType is data (`ArtifactMetadata.RecordReadBackIffPlain`). The last part fails for types such as
  `constructor`, which a look-up in an object literal resolves to an inherited function that JSON leaves out
  (`ArtifactLosses.MethodTypeForgotten`, `ConstructorFileChanges`).
- Index and storage agree if every rebuild without failures finds the records of the index. A save, whichever of its
  storage calls throws, leaves them so if and only if the draft is plain in that sense and, where its extension is
  `meta.json` or ends in `.meta.json`, its content reads as a record that the index held already
  (`ArtifactRebuild.SaveAlwaysAgreesIff`). Of the saves that return, and of those that throw, this is exact by itself:
  one that throws needs only the second part, one that returns is not harmed by `meta.json`
  (`SaveThrowsAgreesIff`, `SaveAgreesIff`). What goes wrong otherwise is in `ArtifactLosses.ForeignRecordFound`,
  `UnreadableContentStopsRebuild` and `TimestampTitleLost`. Rebuild takes a content object for a sidecar if and only if
  its extension is one of those (`ArtifactKeys.ContentMistakenForSidecarIff`).
- A delete leaves every indexed record with its sidecar, whichever storage calls throw, if and only if the extension
  is not `meta.json` (`ArtifactRebuild.DeleteBackedIff`, `ArtifactLosses.MetaJsonExtensionLosesSidecar`). Whole runs
  therefore use drafts that are plain and have neither extension; that agreement alone does not last is shown by
  `ArtifactLosses.DeletedRecordComesBack`.
- Every call of a page walk, of list and of search alike, reads the clock anew. Under every clock that does not go back
  the walk shows exactly what matched at its beginning if and only if there is no age limit, or all that matches but
  for the age limit fits on one page, or all but one page of it was created at the same time as the newest
  (`Paging.WalkAlwaysExactIff`). Under a given clock it does if and only if the match set is the same at each page
  (`Paging.WalkExactIff`), which the totals of the pages tell (`Paging.WalkShowsEverything`). Otherwise items can repeat
  (`Paging.WalkWithAgeLimitRepeats`), but nothing that matched at the start is missed (`Paging.WalkMissesNothing`).
- Resolving a rendered template gives what the template means, for all variables, if and only if no literal, nor
  adjacent literals together, contain a placeholder (`EnvPlaceholders.ResolvingFillsIff`, `LiteralsMakePlaceholder`).

## Model

| member | source | states |
|---|---|---|
| StableSort.AnyStableSortIsSort | src/artifacts/ArtifactIndex.ts:80-84 | A result of Array.prototype.sort is stable and sorted if and only if it is `Sort` of the input, so the sort is determined |
| StableSort.SortCommutesWithFilter | src/autonomy/AutonomousPlanningEngine.ts:27-30 | Dropping elements before or after the stable sort gives the same sequence |
| StableSort.SortIgnoresOrder | src/artifacts/ArtifactIndex.ts:80-84 | Where only identical elements tie, the order of the input does not matter |
| Calendar.ParseOfPrint | src/artifacts/ArtifactIndex.ts:8-15 | For years 0 to 9999, toISOString matches the reviver's pattern and parses back to the same instant |
| Calendar.PrintOfParse | src/artifacts/ArtifactIndex.ts:8-15 | A text of the pattern with valid fields prints back to itself |
| Calendar.PatternIffFourDigitYear | src/artifacts/ArtifactIndex.ts:8-15 | toISOString matches the pattern exactly for the years 0 to 9999 |
| Calendar.FromTime | src/artifacts/ArtifactService.ts:223-228 | The UTC fields of a time value are valid calendar fields and denote that time value |
| Calendar.FieldsUnique | src/artifacts/ArtifactService.ts:223-228 | Only one set of valid calendar fields denotes a time value |
| Calendar.MonthLengths | src/artifacts/ArtifactService.ts:223-228 | Months have the lengths they are known to have |
| Calendar.KnownDates | src/artifacts/ArtifactService.ts:223-228 | A leap day of 2000, the first of March 2100 and the second before the epoch have their known fields |
| Calendar.YearsPrinted | src/artifacts/ArtifactIndex.ts:8-15 | toISOString prints the year 12024 as +012024 and the year -44 as -000044 |
| ArtifactKeys.DifferentArtifactsDifferentKeys | src/artifacts/ArtifactService.ts:223-236 | No content or metadata key of one artifact is a key of another, whatever the dates and extensions |
| ArtifactKeys.PrefixIffSameIdAndDay | src/artifacts/ArtifactService.ts:223-228 | Two artifacts share a key prefix exactly when they share id and UTC day |
| ArtifactKeys.DayPathIsIsoDateIff | src/artifacts/ArtifactService.ts:223-228 | The day directory of a key is the date of toISOString with slashes exactly for the years 1000 to 9999, because the key does not pad the year |
| ArtifactKeys.OwnKeysCollideIff | src/artifacts/ArtifactService.ts:230-236 | An artifact's content and sidecar share a key exactly for the extension meta.json |
| ArtifactKeys.ContentMistakenForSidecarIff | src/artifacts/ArtifactIndex.ts:69-73 | The suffix test takes a content key for a sidecar exactly for the extensions meta.json and *.meta.json |
| ArtifactKeys.KeysOnLeapDay | src/artifacts/ArtifactService.ts:223-236 | The keys of an artifact made on 29 February 2000 are 2000/02/29/ with its id and, after a dot, its extension or meta.json |
| Cursor.Base64UrlRoundTrip | src/artifacts/ArtifactService.ts:180-188 | Every byte string survives unpadded base64url (section 5 of RFC 4648) |
| Cursor.CursorRoundTrip | src/artifacts/ArtifactService.ts:180-190 | decodeCursor of encodeCursor(n) is n for every natural n, through decimal text, UTF-8 and base64url |
| Cursor.CursorInjective | src/artifacts/ArtifactService.ts:180-182 | Different offsets get different cursors |
| Cursor.CharsOfAlphabet | src/artifacts/ArtifactService.ts:180-182 | The 64 characters of a cursor are those of base64url in their order |
| Cursor.CursorOfFifty | src/artifacts/ArtifactService.ts:180-182 | The cursor of offset 50 is NTA |
| Cursor.NoOffsetIsTheFirst | src/artifacts/ArtifactService.ts:184-190 | A cursor that is absent, empty, no number, infinite or negative leads to offset 0, any other to the number it reads as |
| ArtifactMetadata.ReadBackIffPlain | src/artifacts/ArtifactIndex.ts:10-15 | For any value tree, stringify then parse with the reviver gives the value back exactly if no text looks like a timestamp, every date has a four-digit year and nothing in it is a function |
| ArtifactMetadata.RecordReadBackIffPlain | src/artifacts/ArtifactIndex.ts:74-76 | A metadata record written by save reads back unchanged, createdAt a date again, exactly under that condition on its fields, mimeType among them |
| ArtifactMetadata.WrittenFields | src/artifacts/ArtifactService.ts:72 | The object stringified into a sidecar has every field of the record under its own name, createdAt as toISOString prints it, and no other field |
| Listing.QueryExact | src/artifacts/ArtifactIndex.ts:51-53 | A query returns just the records that match, each once, by falling createdAt and, where that is equal, by id |
| Listing.QueryByOwner | src/artifacts/ArtifactIndex.ts:87-89 | A nonempty repositoryId, workflowId or correlationId finds just the records with that text in that field |
| Listing.QueryByKindAndHash | src/artifacts/ArtifactIndex.ts:90-91 | So do type and contentHash |
| Listing.QueryByOrigin | src/artifacts/ArtifactIndex.ts:92-93 | So do derivedFromArtifactId and supersedesArtifactId |
| Listing.QueryByTagsAndTime | src/artifacts/ArtifactIndex.ts:94-102 | Tags find the records that have all of them; createdAfter and createdBefore are inclusive; olderThanDays counts days of 86400 seconds, inclusive |
| Listing.QueryIsIntersection | src/artifacts/ArtifactIndex.ts:86-104 | A filter finds exactly what each of its criteria alone finds, and the empty filter finds every record |
| Listing.SearchExact | src/artifacts/ArtifactIndex.ts:55-65 | A search finds those of the matching records in whose lower-case title or a lower-case tag the trimmed lower-case text stands somewhere; a blank text finds all of them |
| Listing.OlderThanIsCreatedBefore | src/artifacts/ArtifactIndex.ts:97-102 | An age limit in days accepts the records that the corresponding latest creation time accepts; an empty text criterion accepts what no criterion accepts |
| Listing.QueryIgnoresMapOrder | src/artifacts/ArtifactIndex.ts:80-84 | Two indexes holding the same records answer every query alike, however their maps are ordered |
| Listing.QueryIgnoresPaging | src/artifacts/ArtifactIndex.ts:47-53 | The match set does not depend on limit and cursor |
| Turns.PagesForIsCeiling | src/artifacts/ArtifactService.ts:167-178 | PagesFor(n, limit) is max(1, ceil(n / limit)) |
| Turns.NothingSkipped | src/artifacts/ArtifactService.ts:167-178 | Offsets that advance by the limit skip no entry of a list that grows only in front between the calls |
| Paging.PageOf | src/artifacts/ArtifactService.ts:167-178 | A page holds the next `limit` entries and the number of all, and its cursor leads just past its entries while any are left |
| Listing.PageShows | src/artifacts/ArtifactService.ts:167-195 | A page of list or search shows, from its cursor's offset on, as many entries as the limit or else 50 allows, each with the id, title, type, size, createdAt and tags of its record |
| Paging.ListServes | src/artifacts/ArtifactService.ts:95-97 | At any time and cursor, list gives such a page of those records that are old enough by then, out of what its filter finds but for the age limit, newest first |
| Paging.SearchServes | src/artifacts/ArtifactService.ts:99-101 | So does search, out of what it finds but for the age limit |
| Paging.WalkShowsEverything | src/artifacts/ArtifactService.ts:95-101 | With limit at least 1, whatever the clock reads at each call of list or search: the match set is the same at every page exactly if all pages report the same total, and then following cursors ends after the pages that PagesFor counts and their items are the whole match set in order without gap or repeat |
| Paging.WalkExactIff | src/artifacts/ArtifactService.ts:167-178 | The items of the walk are the match set of its beginning, in order without gap or repeat, if and only if the match set is the same at every page |
| Paging.WalkAlwaysExactIff | src/artifacts/ArtifactService.ts:167-178 | They are under every clock that does not go back if and only if, as can be checked before the walk, there is no age limit, or what matches but for it fits on one page, or all but one page of it is as new as the newest |
| Paging.SameWithoutAgeLimit | src/artifacts/ArtifactIndex.ts:97-102 | Without olderThanDays the match set is the same at every page, whatever the clock does |
| Paging.WalkMissesNothing | src/artifacts/ArtifactIndex.ts:97-102 | While the clock does not go back, every record that matched when the walk began is shown, since records that come of age later are newer and go in front |
| Paging.WalkWithAgeLimitRepeats | src/artifacts/ArtifactIndex.ts:97-102 | Three records, an age limit of zero days and limit 1: when one comes of age after the first page, the second page repeats the first and reports another total |
| Listing.CursorsRoundTrip | src/artifacts/ArtifactService.ts:180-190 | The service's cursor coding is one over which such a walk works |
| SidecarCache.AddBoth | src/artifacts/ArtifactService.ts:72-73 | Adding a record with its sidecar keeps the cache sound and coherent |
| SidecarCache.RemoveBoth | src/artifacts/ArtifactService.ts:162-165 | Removing a record with its sidecar keeps the cache sound and coherent |
| ArtifactLaws.UnknownIdIsFresh | src/artifacts/ArtifactService.ts:44 | In a coherent state an id that the index does not know clashes with no sidecar either |
| ArtifactLaws.PlainDraftIff | src/artifacts/ArtifactService.ts:49-70 | The record made of a draft is plain exactly if the draft's own fields are, its type is no inherited name and the year has four digits |
| ArtifactLaws.SaveStores | src/artifacts/ArtifactService.ts:43-76 | A save that returns leaves content and sidecar under their keys and the record, with size and hash of the content, in the index; one that throws leaves the index alone and at most the content behind |
| ArtifactLaws.SavedRecord | src/artifacts/ArtifactService.ts:49-70 | The record that a save returns has each text of the draft in the field of the same name and no other texts but hash and tier hot, the draft's tags or none, its related ids, and the mime type of its type, spelled out |
| ArtifactLaws.SaveKeepsStep | src/artifacts/ArtifactService.ts:43-76 | A save of a safe draft under a fresh id keeps index and sidecars in step, whichever call throws; safe is plain and neither meta.json nor *.meta.json as extension |
| ArtifactRebuild.AgreesIff | src/artifacts/ArtifactIndex.ts:67-78 | A rebuild in which nothing fails finds the records of the index, in whatever order keys are listed, exactly if every sidecar key reads as a record of the index and every record is read from some |
| ArtifactRebuild.SaveAgreesIff | src/artifacts/ArtifactService.ts:43-76 | A save that returns keeps index and rebuild in agreement exactly if the draft is plain and, where its extension ends in .meta.json, its content reads as a record of the index |
| ArtifactRebuild.SaveThrowsAgreesIff | src/artifacts/ArtifactService.ts:43-76 | However storage fails, a save that throws keeps index and rebuild in agreement exactly if content under an extension meta.json or *.meta.json reads as a record that the index held |
| ArtifactRebuild.SaveAlwaysAgreesIff | src/artifacts/ArtifactService.ts:43-76 | However storage fails, a save, whether it returns or throws, keeps them in agreement exactly if in addition the draft is plain |
| ArtifactRebuild.DeleteBackedIff | src/artifacts/ArtifactService.ts:162-165 | However storage fails, a delete leaves every record of the index with its sidecar exactly if the record's extension is not meta.json |
| ArtifactLosses.MetaJsonExtensionLosesSidecar | src/artifacts/ArtifactService.ts:162-165 | With extension meta.json a delete whose second call throws leaves an indexed record with no object in storage |
| ArtifactLosses.MethodTypeForgotten | src/artifacts/ArtifactService.ts:219-221 | Saved under a type that names an inherited function, any plain draft comes back from a rebuild without a mimeType, where the index holds the function |
| ArtifactLosses.ConstructorFileChanges | src/planner/TaskArtifactRecorder.ts:119-143 | So does the artifact that the recorder makes of a changed file x.constructor, whatever its content, repository, correlation id and related artifacts |
| ArtifactLosses.TimestampTitleLost | src/artifacts/ArtifactIndex.ts:8-15 | A draft whose title is a timestamp as toISOString prints it leaves index and storage in disagreement, even where nothing fails |
| ArtifactLosses.ForeignRecordFound | src/artifacts/ArtifactIndex.ts:69-76 | Under extension x.meta.json, content that is another record's JSON is taken in by the rebuild although the index never held it |
| ArtifactLosses.UnreadableContentStopsRebuild | src/artifacts/ArtifactIndex.ts:69-76 | Under extension x.meta.json, content that is no JSON makes every rebuild throw |
| ArtifactLosses.DeletedRecordComesBack | src/artifacts/ArtifactIndex.ts:69-76 | Under an extension ending in .meta.json, content that is the JSON of an indexed record leaves index and storage in agreement, yet when that record has been deleted a rebuild returns with it |
| ArtifactLaws.DeleteKeepsStep | src/artifacts/ArtifactService.ts:103-110 | A delete keeps index and sidecars in step, whichever call throws |
| ArtifactLaws.DeleteManyKeepsStep | src/artifacts/ArtifactService.ts:117-147 | So does a batch, after any number of its ids |
| ArtifactLaws.BatchPartitions | src/artifacts/ArtifactService.ts:117-147 | Every position of the request is in exactly one list; deleted, not-found and failed are free of duplicates, disjoint and together the requested ids |
| ArtifactLaws.BatchIndex | src/artifacts/ArtifactService.ts:124-143 | Not-found are the ids the index never had, skipped the repeats in request order, and the index is the old one without the deleted ids |
| ArtifactLaws.DeleteManyReports | src/artifacts/ArtifactService.ts:112-147 | Both hold of deleteMany whichever storage calls throw |
| ArtifactLaws.FailedMeansThrown | src/artifacts/ArtifactService.ts:137-143 | The failed list is empty exactly when no storage call of the batch threw |
| ArtifactRuns.DeleteManyObjects | src/artifacts/ArtifactService.ts:162-165 | A batch only erases objects: all of those of deleted artifacts, none that belongs to no requested artifact |
| ArtifactRuns.DeleteByFilterReports | src/artifacts/ArtifactService.ts:149-154 | Deletion by filter attempts exactly the records that the query with that filter finds and removes no other from the index, whatever fails |
| ArtifactRuns.DeleteByFilterClears | src/artifacts/ArtifactService.ts:152-154 | With nothing failed the same query is then empty and the records that do not match survive in order |
| ArtifactRuns.DeleteByFilterIgnoresPaging | src/artifacts/ArtifactIndex.ts:47-53 | What is deleted does not depend on limit and cursor |
| ArtifactRuns.DeleteAllAddsUp | src/application/ApplicationService.ts:787-796 | Deleted plus remaining is the total before, whatever fails; confirmed and with nothing failing the index is empty afterwards; unconfirmed nothing changes |
| ArtifactRebuild.SidecarsRead | src/artifacts/ArtifactIndex.ts:69-77 | A pass over sidecars that all read and never disagree about an id adds exactly their records, once each; only a throwing read stops it |
| ArtifactRebuild.RebuildRestores | src/artifacts/ArtifactIndex.ts:67-78 | Over tidy sidecars a rebuild leaves a sound index, a coherent one if it returns, and returns unless a storage call throws |
| ArtifactRebuild.RebuildAgrees | src/artifacts/ArtifactIndex.ts:25-29 | Where index and storage agree, a rebuild that returns, whatever may throw, finds the records the index already held |
| ArtifactRebuild.SameAnswersAfterRestart | src/artifacts/ArtifactService.ts:95-101 | Queries, list pages and searches are the same after a restart |
| ArtifactRuns.EveryRunKeepsStep | src/artifacts/ArtifactService.ts:43-165 | Over every run of save, delete, deleteMany, deleteByFilter and rebuild, saves under fresh ids and of safe drafts, with any storage calls failing: the index is sound, and agrees with what a rebuild would read unless the last rebuild threw |
| ArtifactService.ArtifactIndex.Add | src/artifacts/ArtifactIndex.ts:35-37 | Afterwards get finds the record under its id and finds all others as before; an id that was present keeps its place, a new one goes last, and ids stay unique |
| ArtifactService.ArtifactIndex.Remove | src/artifacts/ArtifactIndex.ts:39-41 | Afterwards get finds nothing under the id and finds all others as before; ids stay unique |
| ArtifactService.ArtifactIndex.Rebuild | src/artifacts/ArtifactIndex.ts:67-78 | State and outcome are those of the specification function, early ends included |
| ArtifactService.ArtifactService.WriteContent | src/artifacts/ArtifactService.ts:197-217 | Size and hash taken piece by piece are those of the whole content, however it is cut |
| ArtifactService.ArtifactService.Save | src/artifacts/ArtifactService.ts:43-76 | State and result are those of the specification function; a safe save keeps the store coherent |
| ArtifactService.ArtifactService.RemoveFromStorage | src/artifacts/ArtifactService.ts:162-165 | Content first, then sidecar, the second only if the first did not throw |
| ArtifactService.ArtifactService.Delete | src/artifacts/ArtifactService.ts:103-110 | State and verdict are those of the specification function; soundness and coherence are kept |
| ArtifactService.ArtifactService.DeleteMany | src/artifacts/ArtifactService.ts:117-147 | The loop computes the specified batch; its report is a partition and matches the index; soundness and coherence are kept |
| ArtifactService.ArtifactService.DeleteByFilter | src/artifacts/ArtifactService.ts:152-154 | State and report are those of the specification function |
| ArtifactService.ArtifactService.RebuildIndex | src/artifacts/ArtifactService.ts:156-160 | Whatever the index held, over tidy sidecars it is sound afterwards, and coherent if the rebuild returned |
| ClaudeStream.SplitIsInverseOfJoin | src/claude/ClaudeAdapter.ts:103-104 | The pieces hold no newline and joined by newlines they are the text |
| ClaudeStream.SplitAppend | src/claude/ClaudeAdapter.ts:100-104 | Text that arrives later only extends the last piece of the split |
| ClaudeStream.ChunkingIrrelevant | src/claude/ClaudeAdapter.ts:100-123 | However the text is cut into chunks, buffer, yielded texts and result flags are those of the whole text split at once |
| ClaudeStream.EachLineOnItsOwn | src/claude/ClaudeAdapter.ts:106-117 | What is yielded is, line by line and in order, the nonempty text of each text delta |
| ClaudeStream.LineAdds | src/claude/ClaudeAdapter.ts:113-122 | By its shape alone: a stream_event around a content_block_delta around a text_delta with nonempty text adds just that text, a result event sets the two flags, any other event or none changes nothing |
| ClaudeStream.TerminatedLine | src/claude/ClaudeAdapter.ts:100-122 | Each further line that ends in a newline adds to the parse of the whole output what its event's shape says; a line without its newline adds nothing yet |
| ClaudeStream.LineReads | src/claude/ClaudeAdapter.ts:107-111 | A line is parsed without the white space around it, a blank one not at all |
| ClaudeStream.TrimIsMiddle | src/claude/ClaudeAdapter.ts:107-108 | trim takes white space off both ends, all of it and nothing else |
| ClaudeStream.SpacesAre | src/claude/ClaudeAdapter.ts:107-108 | White space is the 25 characters that ECMA-262 names |
| ClaudeStream.LastResultCounts | src/claude/ClaudeAdapter.ts:118-121 | The flags are those of the last result event |
| ClaudeStream.OutcomeOfInterleaving | src/claude/ClaudeAdapter.ts:71-139 | For every interleaving of chunks, timeout and abort the yielded texts are those of the whole text and the outcome is the first that applies of timeout, cancellation, bad exit, error result with its subtype as message, success |
| ClaudeAdapter.ClaudeAdapter.Stream | src/claude/ClaudeAdapter.ts:48-145 | The loops compute that run and its outcome; a call that finds the slot taken or no repository changes nothing; the slot is free at the end |
| ClaudeAdapter.ClaudeAdapter.Execute | src/claude/ClaudeAdapter.ts:40-46 | It returns only for a successful run, with the texts of the whole output in one piece and exit code 0, and leaves the slot as it was |
| ClaudeAdapter.EveryCallGetsItsOwnResult | src/claude/ClaudeAdapter.ts:49-144 | Over every interleaving of calls each call's state and result are those its own events determine, and the slot belongs to the one call that is running |
| ClaudeAdapter.SlotFreedByItsOwner | src/claude/ClaudeAdapter.ts:140-144 | The slot is cleared only by the end of the run that took it and never passes to another call directly |
| ClaudeAdapter.RefusedCallIsInvisible | src/claude/ClaudeAdapter.ts:49-53 | Taking a refused call out of a trace changes no other call's state or result |
| ClaudeAdapter.ExitCodeIsItsOwn | src/claude/ClaudeAdapter.ts:40-46 | After a run that succeeded the shared exit code that execute returns is that run's own, whatever other calls do, until another run ends |
| Planner.TiesAreLocal | src/autonomy/AutonomousPlanningEngine.ts:74-84 | Items tie exactly when priority, category and repository agree |
| Planner.PlanIsOrdered | src/autonomy/AutonomousPlanningEngine.ts:27-38 | The plan holds every recommendation once, ordered by priority, category, repository |
| Planner.PlanIsItsSections | src/autonomy/AutonomousPlanningEngine.ts:11-12 | The plan is the twelve sections critical/blocking, critical/advisory, ... low/informational one after the other, each sorted by repository alone |
| Planner.TiesKeepReportOrder | src/autonomy/AutonomousPlanningEngine.ts:27-30 | Within a tie the plan keeps the order of that repository's own report |
| Planner.ReportReadBack | src/autonomy/AutonomousPlanningEngine.ts:40-50 | With distinct repositories, the items of a repository are its recommendations, every one once and unaltered |
| Planner.ConfidenceFollowsCategory | src/autonomy/AutonomousPlanningEngine.ts:58-67 | Confidence is high exactly for blocking items and low exactly for informational ones |
| Planner.PlanWithoutRepositories | src/autonomy/AutonomousPlanningEngine.ts:27-38 | Planning without some repositories is the full plan filtered, in the same order |
| Planner.FailedReportsOnlyDropItems | src/application/ApplicationService.ts:820-827 | When any set of repositories fails to report, items and repositories considered are those of the full plan without them |
| Planner.PlanOfReports | src/application/ApplicationService.ts:820-827 | Of any settled outcomes with distinct repositories: those that reported are considered, in order; the items of each are its recommendations, every one once and unaltered; no other repository has an item; the items are by priority, category and repository |
| Planner.PlanIgnoresReportOrder | src/autonomy/AutonomousPlanningEngine.ts:27-38 | Every permutation of reports with distinct repositories gives the same items |
| Approval.LegacyFlagsAreAList | src/approval/ApprovalPolicy.ts:6-31 | Exactly the listed kinds are gated, in manual mode only, where the legacy flags count as the list of their two kinds if there is no list and have no say beside one |
| Approval.EveryRunIsSafe | src/approval/ApprovalEngine.ts:18-49 | A run of any request keeps the log settled: every check follows the policy, every prompt a gated check, every decision its prompt, every arrival an ungated check or its own approval; and the gated arrivals are in order exactly the approved requests |
| Approval.EverySequenceIsSafe | src/approval/ApprovalEngine.ts:18-49 | So does any sequence of requests from an empty log |
| Approval.DeniedNeverArrives | src/approval/ApprovalEngine.ts:43-45 | A task request that was denied reaches the inner core at no later time unless it has passed the gate anew after the denial: checked again, and then ungated or prompted and approved again |
| Approval.DenialStands | src/approval/ApprovalEngine.ts:18-49 | So it is over the log of any sequence of requests |
| Approval.GateTaskOutcome | src/approval/ApprovalEngine.ts:31-81 | A task is checked once, prompted exactly if gated, handed on at most once and, if its result comes back, unless denied; the result is stamped as gated exactly if it was; a denied task's result is a failure with a reason |
| Approval.TaskGetsItsResult | src/approval/ApprovalEngine.ts:18-81 | A task that arrived at the inner core, ungated or approved, comes back with the core's own result for it at that log, stamped with whoever approved it; a denied one with a failure that gives the denial's reason; otherwise it throws because the core or the approver did; its correlation id is its own or a new one |
| Approval.StepsAreAPrefix | src/orchestration/WorkflowOrchestrator.ts:27-56 | A step sequence that returns checked exactly the steps it reports, prompted for exactly the gated ones among them, ran all but a denied last one, and reports only successes before the last; one that throws checked the successful steps and the throwing one, and prompted for and ran no other, so that no step behind the end is checked, prompted or run |
| Approval.StepsGetTheirResults | src/orchestration/WorkflowOrchestrator.ts:27-56 | The results of a step sequence are, one after the other, what came of the tasks built from the results before; it ends with the first that is no success, with a throw, or when every step has succeeded |
| Approval.WorkflowGetsItsResult | src/orchestration/WorkflowOrchestrator.ts:27-56 | A workflow runs such a sequence in its own repository, with its own input and correlation id; without a repository or definition it throws |
| ApprovalOverlap.EveryCallHasItsOwnGate | src/approval/ApprovalEngine.ts:18-49 | Over every interleaving of calls, a call's own events are those of a gate with no other calls, by its own request, the configuration it read and the answer it got |
| ApprovalOverlap.CallsMoveOn | src/approval/ApprovalEngine.ts:26-49 | No step takes a call back; any answer ends its waiting, and its return ends the call |
| ApprovalOverlap.ArrivalsAreMatched | src/approval/ApprovalEngine.ts:26-49 | Over every interleaving, a task arrives only after its own call's ungated check or its own call's approval of the same request; a call arrives at most once and never when denied |
| Attention.GroupsPartition | src/attention/AttentionDispatcher.ts:104-115 | One group per repository of the batch, each with that repository's events in their order |
| Attention.EveryRunAddsUp | src/attention/AttentionDispatcher.ts:40-102 | Over any run delivered plus suppressed is the groups handled since the reset while a transport was registered, delivered is the recordNotificationSent calls since then, and each transport was handed every group delivered since it was registered |
| Attention.LastDispatchTime | src/attention/AttentionDispatcher.ts:40-45 | Over any run lastDispatchAt is the time of the last batch that was not empty, unless a reset came after it |
| Attention.AttentionDispatcher.GroupByRepository | src/attention/AttentionDispatcher.ts:104-115 | The loop computes the groups |
| Attention.AttentionDispatcher.DispatchForRepository | src/attention/AttentionDispatcher.ts:50-81 | The new state is the specified one, which does not depend on which deliveries throw |
| Attention.AttentionDispatcher.Dispatch | src/attention/AttentionDispatcher.ts:40-48 | So is the state after a whole batch; an empty batch changes nothing |
| EnvPlaceholders.ReadBackIffNormal | src/config/EnvPlaceholderResolver.ts:3-7 | A rendered sequence of literals and references scans back as such exactly when no literal, nor adjacent literals together, contain a placeholder |
| EnvPlaceholders.ScanNormal | src/config/EnvPlaceholderResolver.ts:3-7 | Every text is the rendering of a normal template |
| EnvPlaceholders.RenderScan | src/config/EnvPlaceholderResolver.ts:3-7 | Scanning a text into literals and references loses nothing |
| EnvPlaceholders.ResolvingFillsIff | src/config/EnvPlaceholderResolver.ts:5-14 | Resolving a rendered sequence of literals and references gives, for all variables, literals and values in order, values verbatim and never scanned again, or the first unset variable, exactly when no literal, nor adjacent literals together, contain a placeholder |
| EnvPlaceholders.NamesAre | src/config/EnvPlaceholderResolver.ts:3 | A variable name is a letter or underscore followed by letters, underscores and digits |
| EnvPlaceholders.NameIsReplaced | src/config/EnvPlaceholderResolver.ts:3-14 | Every such name in braces after a dollar sign is replaced by its value |
| EnvPlaceholders.LiteralsMakePlaceholder | src/config/EnvPlaceholderResolver.ts:3-7 | The literals `$` and `{HOME}` beside each other are replaced as one placeholder although the template has no reference |
| EnvPlaceholders.ResolvingATree | src/config/EnvPlaceholderResolver.ts:5-27 | Resolving a tree throws exactly if some variable it refers to is unset, naming the first; otherwise shape and keys are kept and every text is filled in |

## Left out

- ArtifactModel.Rebuild: stops with IllTyped at an object under a sidecar key whose fields, mimeType apart, have types no record has (possible for records that are not plain and for mistaken content), where the code would index the ill-typed object; the two count as disagreement alike, and how such an object behaves in queries is not part of this model.
- ArtifactService.ArtifactIndex.Rebuild: ends at such an object as well.
- ArtifactModel.Put: a failed write leaves the key as it was; a file system that leaves a partial file behind is not modelled.
- Cursor.DecodeCursor: cursors that Number reads as a fraction, and Buffer's treatment of padding inside a cursor, are not modelled; neither occurs in a cursor the service makes. Offsets beyond 2^53 lose precision in a double and are out of reach of an array index.
- ArtifactMetadata.Metadata: text fields are a map from field name to text, so that one statement covers all of them; the JSON text between the value and its bytes is a parameter. That a type may be a name inherited from Object.prototype is modelled; properties added to Object.prototype by other code are not.
- Paging.WalkShowsEverything: needs limit at least 1, because a page of limit 0 never advances, and an index that does not change during the walk.
- Listing.Matches: all records of one query see the same time; the code reads the clock once per record, within one synchronous loop. Age limits are whole days.
- ArtifactService: getContent, get and exists are lookups; operations that overlap a rebuild in time are not guarded by the code and not modelled.
- Calendar.ParseIso: a text of the timestamp pattern with a field out of range is kept apart as such, whatever Date makes of it.
- ClaudeAdapter.ClaudeAdapter.Stream: starts at decoded text, because the process runner decodes each chunk of bytes on its own; the arguments of the command line and the reading of the configuration are left out, and a spawn that throws at once is not distinguished from a missing repository; a consumer that abandons the stream early is not modelled.
- Planner.Report: generatedAt, the plan's id and time, and the contents of the evidence are carried along unread and left out.
- Approval.Execute: requests run one after another (ApprovalOverlap takes overlapping calls, with their requests given); the approval times are left out, among them the one that the code also puts on a rejected result; the decorators between the workflow and the gate (memory recording, execution state) are left out.
- Attention.AttentionDispatcher: the policy engine is a parameter, an arbitrary function of how often it was asked and of what was recorded as sent; dispatch calls that overlap in time are not modelled.
- EnvPlaceholders.Resolve: a variable is what process.env yields as text, so that a name inherited by process.env, such as constructor, counts as set.
- EnvPlaceholders.ResolveTree: the YAML reader and the file path in the error are left out.
- AutonomousExecutionOrchestrator, plan history, monitoring, Telegram, git and the deferred wrappers are not part of this model; they delegate, or only add case analysis.
