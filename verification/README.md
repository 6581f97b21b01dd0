# Verified models of boxxkite's sidecar, SDK and model-server logic

This project models the stateful core of boxxkite in Dafny and proves what it is meant to guarantee:
the storage sync protocol with its restore round trip, the background-process registry and its output
buffer, the session exec budget, the semantic search, the LSP transport, the workspace diff, and four
smaller pieces with demanding laws (the two event-stream parsers, the secret substitution and scrub, the
Go retry loop, the embedding batcher).

Code that updates state in place is modelled by classes with the same fields, and its loops by loops with
invariants; each such method is proved against a specification function or predicate, and the laws are
lemmas about those. asyncio code is single-threaded, so an interleaving is a sequence of the code stretches
between two `await`s: where one component's own steps interleave, they are a `Step` datatype and every
theorem is about all sequences of steps; where the sandbox interferes with one running method, the object
carries a script of everything that will happen at its waiting points, so a method contract speaks of every
script. `dafny verify dfyconfig.toml` checks everything.

| file | what it models |
|---|---|
| Wrappers, Dicts, Sorting | options and bytes, insertion-ordered dictionaries, stable sorting, string order |
| SandboxPaths, InputPaths | path normalisation, containment, storage keys; where written paths lead |
| SandboxFiles | the sandbox's files under arbitrary writes and deletes |
| StorageSync | discovery and flush |
| Prefetch, SessionRestore | what a prefetch makes of any list of keys; configure and the restore round trip |
| ProcessRegistry, OutputBuffer | background processes, exposed ports, polled output |
| ExecBudget | reserve, record and reset of the session budget |
| SearchIndex, SearchRanking | the document cache and the bounded ranking of the search |
| LspFraming, LspCorrelation | `Content-Length` frames; request ids and document versions |
| WorkspaceDiff, SnapshotStore | snapshots, comparison and diff budget; retained snapshots |
| SseStreams | the JavaScript and Go event-stream parsers |
| Secrets | reference substitution and scrubbing |
| RetryLoop | the Go SDK's retries in 64-bit arithmetic |
| EmbeddingBatch | batching by length, rerank order |

## Where the code does less than it says

Each of these is proved, with the exact condition where there is one.

- Restore: objects are never deleted from storage, so after a file became a directory its old object stands
  in the way and the prefetch of that namespace stops there (`StaleFileHidesLiveFile`). `RestoredExactly` and
  `FlushThenRestore` say for each file when it comes back, for any keys in any order; for sync's own objects in
  key order that is so exactly for the files listed before every stored path of their namespace that has a
  stored ancestor (`OwnFileRestoredIff`). All keys take effect if and only if nothing stands in anything's way,
  which for sync's own objects means that no stored path is an ancestor of another (`RestoredIff`,
  `OnlyStaleAncestors`).
- `_release_exposed_port` calls its ownership check one that cannot matter yet. It does: with two stop calls
  for one process the second release meets a port that belongs to a newer process
  (`StaleReleaseHappens`); the check keeps that harmless (`ReleaseFreesOwnPortOnly`).
- Response ids are matched as Python compares them, so besides its own id the first request is also completed
  by the id `true` (`OwnIdOrTrue`, `TrueCompletesTheFirst`).
- The comment in the snapshot code says that a large file is identified by head, size and modification time.
  The time is not hashed: a change behind the first 64 KiB that keeps the size is not reported.
  `UnnoticedChanges` lists all such cases, `TailChangeUnnoticed` is one. The diff budget counts characters
  although its name says bytes.
- Every cap of a snapshot is meant to have a note. Content is dropped if and only if all text together exceeds
  the budget (`NothingDroppedIff`), but the note appears only if what is retained uses the budget to the last
  byte: `NotedExactly` says when dropped content is noted, `DroppedWithoutNote` is a case in which it is not.
- Search: a cached document is returned even if its file is written between `fstat` and read, where a re-read
  would see the change; `WalkAgreesExactly` says when that shows, `RaceShows` is a case.
- `parseRetryAfter` documents a non-negative wait or -1. From 9223372037 seconds on the product wraps around,
  and the result may be any other number (`SecondsAreExactUpTo`, `HonouredExactly`, `LongHeaderShortWait`).
- The exponential backoff is computed in 64 bits. For some bases the doubling overflows to a short positive wait
  below the maximum (`CeilingExactly`, `BackoffOverflows`).
- A POST is sent once with the default methods (`PostIsNotRepeated`); a caller who lists POST in `Methods`
  has it repeated (`PostCanBeConfigured`), which `WithRetry`'s comment rules out.
- The two event-stream parsers differ at the end of a stream and on values with more than one leading space;
  `AgreeExactly` gives the condition, `UnfinishedEventDiffers` and `SecondSpaceDiffers` are cases.
- Scrubbing does not remove a secret whose value overlaps the marker that is written in its place: there is a
  text from which a secret alone is not scrubbed if and only if its value overlaps its own marker
  (`LeaksExactlyIf`; `MarkerIsCompleted` and `MarkerValueStays` are such values). Among several secrets a later
  marker can also bring a value back (`LaterMarkerCompletes`, `BracketValueReappears`); a value that overlaps
  neither its own marker nor a later one is always removed (`NoSecretIsLeft`).

## Model

| member | source | states |
|---|---|---|
| SandboxPaths.RealPathCanonical | sidecar/sidecar_paths.py:100-118 | a resolved path consists of proper names only, and resolving it again changes nothing |
| SandboxPaths.DotsAreResolved | sidecar/sidecar_paths.py:100-118 | wherever they stand in a path, an empty name and `.` mean nothing and `..` takes back the name before it, or nothing at the top |
| SandboxPaths.FirstRootContains | sidecar/sidecar_paths.py:18-20 | the first-match search over the roots succeeds exactly if some root contains the path, and then returns one that does |
| SandboxPaths.ToVirtualPathIsRealPath | sidecar/sidecar_paths.py:191-201 | the virtual path is the real path itself, and is defined exactly for paths under a typed root |
| SandboxPaths.DropDotSlashes | sidecar/sidecar_paths.py:23-60 | the loop removes whole "./" pairs from the front until none is left |
| SandboxPaths.ResolvedPathIsContained | sidecar/sidecar_paths.py:100-118 | for any input text, what is returned is canonical and lies under a typed root; everything else is refused |
| SandboxPaths.BucketHolds | sidecar/sidecar_paths.py:204-218 | the bucket search returns a namespace whose root holds the path, and nothing only if none does |
| SandboxPaths.KeyRoundTrip | sidecar/sidecar_sync.py:682-733 | the path that prefetch rebuilds from the key that sync prints is the original path, and the key is listed under one namespace only |
| SandboxPaths.StorageKeyInjective | sidecar/sidecar_paths.py:204-218 | two synced paths never share a storage key |
| InputPaths.AbsoluteStays | sidecar/sidecar_paths.py:100-118 | a canonical path under a typed root, written without white space at its ends, resolves to itself |
| InputPaths.AliasLeadsToRoot | sidecar/sidecar_paths.py:48-58 | what is written below /uploads, /outputs or /skills is what lies there below the uploads, outputs or skills directory |
| InputPaths.RelativeLeadsToWorkspace | sidecar/sidecar_paths.py:37-46 | a relative path lies in the workspace, with or without the directory or `./` in front |
| InputPaths.ShortForms | sidecar/sidecar_paths.py:30-60 | `/`, `.` and `workspace` are the workspace, each alias alone is its root, and an empty path is refused |
| InputPaths.SpellingDoesNotMatter | sidecar/sidecar_paths.py:23-36 | white space around a written path is ignored, and a backslash means a slash |
| StringOrder.LessExactly | sidecar/sidecar_sync.py:521-521 | the order by which paths are sorted: a string is less if it is a proper prefix or has the smaller character at the first difference |
| SandboxFiles.RunEvolves | sidecar/sidecar_sync.py:80-93 | whatever the sandbox does, signatures keep meaning one version of one file, and a changed file shows a newer one |
| StorageSync.CacheSound | sidecar/sidecar_sync.py:505-577 | if a file's cached signature is its current one, storage holds exactly its current content |
| StorageSync.SyncSidecar.Elapse | sidecar/sidecar_sync.py:505-577 | the cache invariant survives any writes, deletes and tracked paths between two steps |
| StorageSync.SyncSidecar.Upload | sidecar/sidecar_sync.py:553-557 | an upload, successful, failed or overtaken by a write, changes only its own object; a success on an unchanged file stores its content |
| StorageSync.SyncSidecar.WaitForStableSignature | sidecar/sidecar_sync.py:483-502 | with the check on, a signature is stable exactly if the file still shows it after the wait |
| StorageSync.SyncSidecar.UploadAndRecheck | sidecar/sidecar_sync.py:553-573 | a path is confirmed only if storage holds the version under the confirmed signature; an unconfirmed one that exists throughout stays pending |
| StorageSync.SyncSidecar.SyncOne | sidecar/sidecar_sync.py:521-573 | one round never touches other paths' queue entries, objects or cached signatures; afterwards the path is pending, gone, or stored in a version from the start of the round or later, and cached if it is confirmed; with the check on, a file whose signature changes under the wait is not uploaded; a path without a key only leaves the queue |
| StorageSync.SyncSidecar.Scan | sidecar/sidecar_sync.py:96-135 | the scan finds every reachable file that exists throughout, with a signature it had during the scan |
| StorageSync.SyncSidecar.TrimSignatures | sidecar/sidecar_sync.py:65-77 | the cache is cut to its limit by dropping the oldest entries, in order, and nothing else |
| StorageSync.SyncSidecar.Discover | sidecar/sidecar_sync.py:138-174 | after discovery every reachable file that existed throughout is pending or stored as scanned, even if its signature was trimmed |
| StorageSync.SyncSidecar.ScrubPending | sidecar/sidecar_sync.py:44-58 | exactly the pending paths without a storage key are dropped |
| StorageSync.SyncSidecar.SyncCandidates | sidecar/sidecar_sync.py:505-577 | for any set of paths owed, none whose file is there all along is lost: it stays pending or is stored in a version from when it was owed or later; every ready path is stored in a version from the start or later; a quiet run uploads all candidates |
| StorageSync.SyncSidecar.FlushOutputs | sidecar/sidecar_sync.py:580-630 | no lost update under every script, with or without discovery: every pending or requested file, and every file the scan reaches, that is there all along is still pending or stored in a version from the start of the flush (the scan) or later; freshness of the ready set; the exact result of a quiet flush: ready are exactly the wanted files that exist (those requested, or everything queued and every scanned file whose cached signature is not its own), all stored and cached as they are, what else was queued stays so, no other object changes; and without requested paths nothing is pending and storage equals every scanned or pending file |
| StorageSync.SyncSidecar.RunSession | sidecar/sidecar_sync.py:580-630 | the cache is sound for every synced file after any sequence of flushes with anything going on around and during them |
| SessionRestore.SandboxLayoutOk | sidecar/sidecar_paths.py:204-218 | the sandbox's key mapping meets what the sync proofs assume: injective, and defined wherever the walk goes |
| SessionRestore.SyncedFiles | sidecar/sidecar_paths.py:204-218 | every path of proper names below a synced root is synced, under prefix, namespace and those names, and the walk reaches it exactly if no directory on the way is ignored |
| Prefetch.FetchesEverythingIff | sidecar/sidecar_sync.py:682-733 | every listed key takes effect if and only if nothing stands in anything's way: no file where a directory is needed, no directory where a file is, no two keys for one file; for any keys, any order, and whatever is there before |
| Prefetch.FetchAllExactly | sidecar/sidecar_sync.py:682-733 | exactly what a namespace makes of any keys in any order, over any files and directories and with any downloads failing: which files are fetched, from which key, which directories are created, and that nothing follows the first item that needs a directory where a file is |
| Prefetch.FailuresCostOnlyThemselves | sidecar/sidecar_sync.py:718-729 | with nothing in the way a failed download costs its own file only: every item whose download succeeds has arrived, every directory is there, and every fetched file is that of a successful one |
| Prefetch.MarkersAreDirectories | sidecar/sidecar_sync.py:699-706 | a key that ends in a slash brings about its directory and no file |
| Prefetch.FetchedInOrder | sidecar/sidecar_sync.py:682-733 | if files are listed before what needs a directory in their place, an item is fetched if and only if no item up to it needs a directory where any listed item is a file |
| Prefetch.FileInTheWayEndsTheFetch | sidecar/sidecar_sync.py:682-733 | a file where a directory is needed ends the namespace: nothing listed from there on is fetched |
| Prefetch.RawIsOwn | sidecar/sidecar_sync.py:718-726 | the path under which a prefetched file's signature is recorded is, if it is synced at all, the file itself under the key it came from |
| Prefetch.SyncedItem | sidecar/sidecar_sync.py:699-718 | a key that sync wrote is fetched as the file it was written for, through exactly its parent directories |
| Prefetch.DirsAreAncestors | sidecar/sidecar_sync.py:703-706 | the directories created for a file are the root and its ancestors |
| Prefetch.StaleFileHidesLiveFile | sidecar/sidecar_sync.py:682-733 | three listed keys of which a stale one keeps two live files from being restored |
| SessionRestore.PrefetchNamespace | sidecar/sidecar_sync.py:682-733 | for any keys and any outcomes of their downloads the loop writes exactly the specified files over what was there, each with the stored content; it caches the signature of every file fetched from its own key and of no other synced path, and keeps the sync invariant |
| SessionRestore.PrefetchFiles | sidecar/sidecar_sync.py:736-779 | the three namespaces one after the other, over one tree |
| SessionRestore.Configure | sidecar/sidecar_sync.py:306-374 | a new session starts with nothing pending and, over exactly the survivors outside the synced roots, exactly the prefetched files, cached as they are, in a state the sync invariant holds of |
| SessionRestore.RestoredIff | sidecar/sidecar_sync.py:736-779 | with working downloads all keys of all namespaces take effect if and only if nothing stands in anything's way |
| SessionRestore.RestoredExactly | sidecar/sidecar_sync.py:736-779 | file by file, through all three namespaces and with any downloads failing: a path is fetched from a key if and only if the last item fetched to it is the one of that key, whatever is listed and whatever is there before |
| SessionRestore.OwnFileRestoredIff | sidecar/sidecar_sync.py:736-779 | if all objects are sync's own, listed in key order, and the sandbox's other files leave them room, a stored file is restored if and only if it is listed before every stored path of its namespace that has a stored ancestor |
| SessionRestore.OnlyStaleAncestors | sidecar/sidecar_sync.py:736-779 | if all objects are sync's own and the sandbox's other files leave them room, that is so if and only if no stored path is an ancestor of another |
| SessionRestore.FlushWritesOwnKeys | sidecar/sidecar_sync.py:580-630 | a flush writes only keys of synced files |
| SessionRestore.FlushThenRestore | sidecar/sidecar_sync.py:580-779 | after a quiet flush and a configure with the same prefix, any of whose downloads may fail, every scanned or pending file is stored, is back from its own key if and only if that is the last one fetched to its path, and is back with its content if and only if the last one fetched there has it, whatever else is stored; with nothing in the way exactly those whose downloads succeed are back; with no failures, sync's own objects only and room for them, exactly those listed before all conflicts are; what is back from its own key is cached and so not uploaded again |
| ProcessRegistry.AlwaysInv | sidecar/sidecar_processes.py:508-549 | in every reachable state at most the cap of processes run, each exposed port names a registered process that asked for it, each running process that asked for a port owns it, and every port is in the configured range and not the sidecar's |
| ProcessRegistry.NeverRunsAgain | sidecar/sidecar_processes.py:178-208 | once left, the status "running" is never entered again |
| ProcessRegistry.ReleaseFreesOwnPortOnly | sidecar/sidecar_processes.py:323-334 | a release frees no port but its own process's, and never one a running process owns |
| ProcessRegistry.EndedFreesItsPort | sidecar/sidecar_processes.py:178-334 | after the end of its reader or a stop call, and its release, no port names a process, and all others keep theirs |
| ProcessRegistry.StaleReleaseHappens | sidecar/sidecar_processes.py:323-334 | a run in which a release meets a port that belongs to a newer process, so the check is needed |
| ProcessRegistry.KilledNeverReturns | sidecar/sidecar_processes.py:344-378 | in no later state is a process that was registered before a kill-all running, registered or exposed on a port |
| ProcessRegistry.NeverRegisteredAgain | sidecar/sidecar_processes.py:527-549 | a known process that is neither registered nor exposed stays so in every run |
| ProcessRegistry.Registry.BeginStart | sidecar/sidecar_processes.py:489-525 | a start is let through if and only if its runtime is positive and within the ceiling, its port, if any, is in range, free and not the sidecar's, and fewer processes than the cap run; each refusal has its HTTP status, in the order of the checks |
| ProcessRegistry.Registry.EndStart | sidecar/sidecar_processes.py:527-549 | exactly the new process joins those that run, it owns the port it asked for, no other process or port is touched, and the invariants hold |
| ProcessRegistry.Registry.EndReader | sidecar/sidecar_processes.py:178-208 | the process leaves those that run with its exit code, a reason settled before is not overwritten, and the invariants hold |
| ProcessRegistry.Registry.FireWatchdog | sidecar/sidecar_processes.py:268-285 | the process leaves those that run but keeps its port, and the invariants hold |
| ProcessRegistry.Registry.MarkStopped | sidecar/sidecar_processes.py:288-320 | the process leaves those that run, one that ended before keeps its status, and the invariants hold |
| ProcessRegistry.Registry.ReleaseExposedPort | sidecar/sidecar_processes.py:323-334 | afterwards no port names this process, every other process keeps its port, and the invariants hold |
| ProcessRegistry.Registry.KillAllProcesses | sidecar/sidecar_processes.py:344-378 | nothing runs afterwards, every tracked process is marked, and the count is that of those that were alive |
| ProcessRegistry.Registry.Perform | sidecar/sidecar_processes.py:462-549 | any schedule of the steps, performed on the fields, goes through the specified states and keeps all invariants |
| OutputBuffers.OutputBuffer.AppendOutput | sidecar/sidecar_processes.py:100-110 | the buffer is always the last cap bytes of the whole stream, and the offsets account for the rest |
| OutputBuffers.OutputBuffer.ReadSince | sidecar/sidecar_processes.py:112-124 | any offset, negative or too large included, gets the bytes of the stream from there on, or all that is left with the flag |
| OutputBuffers.BytesAreConserved | sidecar/sidecar_processes.py:560-574 | bytes delivered plus bytes dropped are the bytes of the stream |
| OutputBuffers.FollowOutput | sidecar/sidecar_processes.py:560-574 | a client polling from its last offset gets the exact stream with only the dropped pieces missing, each signalled |
| ExecBudget.BudgetInvariant | sidecar/main.py:473-503 | under any schedule the budget is that of an independent ledger: the counter is the number of calls admitted since the last reset, the seconds are those of the recorded calls, and a breach is flagged if and only if a caller met the full count or a recorded call took the seconds over their ceiling; so both stay within their ceilings without a flag |
| ExecBudget.NothingAdmittedAfterBreach | sidecar/main.py:574-615 | once the flag is set nobody is admitted until a reset |
| ExecBudget.SecondsAreConserved | sidecar/main.py:618-638 | from a breach on, recorded seconds plus those of calls in flight never grow |
| ExecBudget.OvershootIsInFlight | sidecar/main.py:618-638 | seconds exceed the ceiling by at most the durations of the calls in flight at the breach |
| ExecBudget.SessionBudget.ReserveSlot | sidecar/main.py:574-615 | admits exactly if no breach is flagged and the count is below its ceiling or has none, counts the call, and otherwise flags and returns the breach |
| ExecBudget.SessionBudget.RecordDuration | sidecar/main.py:618-638 | adds a positive duration in place, and flags and returns a breach exactly if the seconds exceed their ceiling |
| ExecBudget.SessionBudget.Perform | sidecar/main.py:473-638 | any schedule of callers and resets on the globals follows the specification and respects the ceilings |
| SearchIndex.WalkKeeps | sidecar/sidecar_semantic_search.py:204-242 | whatever happens around the steps of a refresh, its documents respect the file and byte caps and are right for files that did not change since |
| SearchIndex.SearchIsComplete | sidecar/sidecar_semantic_search.py:204-235 | nothing is left out silently: in a refresh during which nothing happens, without the truncation flag every indexable candidate is returned as it is, in order; and if they fit the caps they all are, and the flag says exactly whether it was set before or a candidate is too long |
| SearchIndex.VisitAgreesExactly | sidecar/sidecar_semantic_search.py:209-235 | the cache does not show in one round if and only if the file is not written under its own read, or the re-read would be admitted alike |
| SearchIndex.WalkIgnoresCache | sidecar/sidecar_semantic_search.py:204-242 | unless a file is written between its own `fstat` and read, a refresh with a sound cache returns the documents and the flag of a refresh with an empty one, whatever else happens |
| SearchIndex.WalkAgreesExactly | sidecar/sidecar_semantic_search.py:204-242 | under any events a refresh with a cache returns the documents of one without if and only if every such race is harmless |
| SearchIndex.RaceShows | sidecar/sidecar_semantic_search.py:178-202 | a race in which the two return different documents |
| SearchIndex.RefreshedIs | sidecar/sidecar_semantic_search.py:237-242 | after a refresh the cache below the base is exactly what was returned, and elsewhere what it was |
| SearchIndex.WalkPathsDistinct | sidecar/sidecar_semantic_search.py:204-242 | no path is returned twice |
| SearchIndex.SearchRefinesRereading | sidecar/sidecar_semantic_search.py:99-105 | after any sequence of searches, file events, invalidations and resets the next search sees the documents that re-reading everything would show if and only if its races are harmless, and without races the same flag; it stays within the caps |
| SearchIndex.Index.Refresh | sidecar/sidecar_semantic_search.py:204-242 | the loop with its early exits computes the specified walk and the specified cache |
| SearchIndex.Index.InvalidatePath | sidecar/sidecar_semantic_search.py:103-105 | the next look at the invalidated file is as without a cache, and any look at another file as before |
| SearchIndex.Index.Perform | sidecar/sidecar_semantic_search.py:99-105 | each command changes the object as the run-level theorem assumes |
| SearchRanking.CutThenInsert | sidecar/sidecar_semantic_search.py:278-282 | cutting the list before an insertion loses nothing that a cut after it would keep |
| SearchRanking.KeysNeverTie | sidecar/sidecar_semantic_search.py:278-279 | no two matches have the same sort key, so match dictionaries are never compared |
| SearchRanking.AllAreMatches | sidecar/sidecar_semantic_search.py:256-277 | the matches are exactly the lines with a score, each with its path, its number counted from 1 and its first 1000 characters |
| SearchRanking.TopIsBest | sidecar/sidecar_semantic_search.py:244-290 | the matches kept have descending scores, with equal scores ascending paths and then lines, and each ranks so before every match left out; together they are all matching lines |
| SearchRanking.Search | sidecar/sidecar_semantic_search.py:244-290 | insert-then-pop yields the best matches by score, path and line, as the first results of the full sort; truncation is reported exactly if the index was truncated or more matches existed |
| LspFraming.ParseOfDecimal | sidecar/sidecar_lsp.py:114-128 | the printed length is parsed back to the same number |
| LspFraming.UnderscoreIsSkipped | sidecar/sidecar_lsp.py:151-154 | a length may have single underscores between its digits, as `int` allows |
| LspFraming.ReadOfSignedLength | sidecar/sidecar_lsp.py:151-162 | a length with a plus sign is read as that length, and one with a minus sign as an empty message |
| LspFraming.ReadOfPeerFrame | sidecar/sidecar_lsp.py:131-162 | a frame with any other headers around the length is read as its body, whatever bytes it contains and whatever follows |
| LspFraming.ReadOfCutFrame | sidecar/sidecar_lsp.py:131-162 | a frame cut anywhere gives no message |
| LspFraming.ReadOfEmptyFrame | sidecar/sidecar_lsp.py:151-156 | a header block with the length zero, or with none, gives an empty message and leaves what follows in the stream |
| LspFraming.ReadOfBadLength | sidecar/sidecar_lsp.py:151-154 | a length that is no number ends the reading |
| LspFraming.RoundTrip | sidecar/sidecar_lsp.py:114-162 | reading the concatenation of any frames returns exactly their bodies, in order, then a clean end |
| LspFraming.CutStream | sidecar/sidecar_lsp.py:131-162 | a stream of frames cut anywhere returns exactly the bodies that were complete |
| LspFraming.StreamReader.ReadOneFrame | sidecar/sidecar_lsp.py:131-162 | the header loop with all its branches reads as the specification says and consumes that much |
| LspFraming.StreamReader.ReadToEnd | sidecar/sidecar_lsp.py:165-186 | the reader loop handles exactly the replies of the stream and then ends |
| LspCorrelation.AlwaysInv | sidecar/sidecar_lsp.py:217-246 | ids count up by one per request, every waiting request can be found by its id, and an id leads to its own request only |
| LspCorrelation.IdsAreNeverReused | sidecar/sidecar_lsp.py:217-234 | no two requests of a run carry the same id |
| LspCorrelation.CompletesExactly | sidecar/sidecar_lsp.py:180-192 | a frame completes a request if and only if the reader runs, the request waits and the ids are equal; late, repeated and foreign responses reach nobody |
| LspCorrelation.OwnIdOrTrue | sidecar/sidecar_lsp.py:184-185 | while the reader runs, the frames that complete a waiting request are exactly the objects with its id, or with `true` for the first one |
| LspCorrelation.OthersKeepWaiting | sidecar/sidecar_lsp.py:184-192 | a response leaves every request under another id as it is and still findable, and takes its own out of the table |
| LspCorrelation.CancelTouchesOne | sidecar/sidecar_lsp.py:235-246 | a cancelled wait settles its own request only, and forgetting one removes its own entry only |
| LspCorrelation.FailuresAreGenuine | sidecar/sidecar_lsp.py:193-199 | every failed request waited when the reader ended, the server was killed, or a frame arrived that ends the reader |
| LspCorrelation.CancellationsAreGenuine | sidecar/sidecar_lsp.py:235-246 | every cancelled request was cancelled by its own cancellation while it waited |
| LspCorrelation.EndsTheReaderExactly | sidecar/sidecar_lsp.py:180-199 | a frame ends the reader if and only if it is no object, or has an unhashable id while something is pending |
| LspCorrelation.TrueCompletesTheFirst | sidecar/sidecar_lsp.py:184-185 | a run in which a response with the id `true` completes the first request |
| LspCorrelation.SettledStaysForever | sidecar/sidecar_lsp.py:186-188 | each request is completed at most once in a whole run |
| LspCorrelation.AnswersAreGenuine | sidecar/sidecar_lsp.py:165-199 | every answer arrived after its request was sent, while it waited, under its id |
| LspCorrelation.NobodyWaitsAfterTheEnd | sidecar/sidecar_lsp.py:328-346 | after reader death or kill no earlier request waits any more |
| LspCorrelation.LspServerHandle.SendRequest | sidecar/sidecar_lsp.py:217-234 | registers a new future under the next id in place |
| LspCorrelation.LspServerHandle.HandleFrame | sidecar/sidecar_lsp.py:180-199 | one round of the reader loop, breaking frames included: the reader goes on unless the frame breaks it, the request under the frame's id is answered if it waits and leaves the table, and every other request and entry is as it was |
| LspCorrelation.LspServerHandle.FailPending | sidecar/sidecar_lsp.py:343-346 | the loop fails every waiting request, leaves the settled ones alone and clears the table |
| LspCorrelation.LspServerHandle.Perform | sidecar/sidecar_lsp.py:165-246 | any schedule of the steps, performed on the handle, goes through the specified states and keeps the invariants |
| LspCorrelation.LspServerHandle.OpenDocument | sidecar/sidecar_lsp.py:429-465 | for every document the server sees one open at version 1 and then changes 2, 3, and so on, with the texts of the calls in order |
| WorkspaceDiff.UnnoticedChanges | sidecar/sidecar_workspace_diff.py:151-174 | exactly which pairs of different contents share a fingerprint |
| WorkspaceDiff.TailChangeUnnoticed | sidecar/sidecar_workspace_diff.py:166-174 | a file of 300000 bytes in which a changed byte goes unnoticed |
| WorkspaceDiff.UnchangedExactly | sidecar/sidecar_workspace_diff.py:257-265 | two snapshots call a file unchanged exactly if its bytes are equal or the change is one of those |
| WorkspaceDiff.SnapshotIsRight | sidecar/sidecar_workspace_diff.py:93-195 | a snapshot has exactly the files that could be read, describes each correctly, and retains at most 4 MiB of content |
| WorkspaceDiff.TakeSnapshot | sidecar/sidecar_workspace_diff.py:93-195 | the loop builds that snapshot of the first 20000 files, unreadable ones and ones changed under the read included, with the specified count, truncation flag and notes |
| WorkspaceDiff.NothingDroppedIff | sidecar/sidecar_workspace_diff.py:156-181 | the content of no text file is dropped if and only if all text together fits the budget, and then all of it is what is retained |
| WorkspaceDiff.NotedExactly | sidecar/sidecar_workspace_diff.py:183-187 | the note on the content budget appears if and only if the budget is used to the last byte, so nothing is dropped without it if and only if all text fits or what is retained fills the budget |
| WorkspaceDiff.DroppedWithoutNote | sidecar/sidecar_workspace_diff.py:156-187 | seventeen files one of which loses its content without a note |
| WorkspaceDiff.ListsMeans | sidecar/sidecar_workspace_diff.py:235-285 | what is listed are the changed paths in order, each with the right kind, sizes and flag, and with the diff the remaining budget allows |
| WorkspaceDiff.ChangedExactly | sidecar/sidecar_workspace_diff.py:241-265 | each path of the union is reported at most once, in order, and exactly when it changed |
| WorkspaceDiff.Compare | sidecar/sidecar_workspace_diff.py:235-300 | the loop gives a right answer: that list over the sorted union, cut at 500 entries, with a note for an exhausted budget and for the number dropped |
| WorkspaceDiff.ReportIsRight | sidecar/sidecar_workspace_diff.py:235-300 | in an answer each path stands at most once and in order, every entry is right, and the diff text fits the budget and one trailer |
| WorkspaceDiff.EntrySays | sidecar/sidecar_workspace_diff.py:215-290 | an entry's kind, sizes, flag, reason and diff in terms of the two snapshots: a path in both is listed only if its entries differ; the diff leads from the earlier content to the later one, cut to the room left, and is there exactly if both are text, a diff is wanted, there is room and the texts differ |
| WorkspaceDiff.NotesSay | sidecar/sidecar_workspace_diff.py:287-300 | the notes say how many changed paths beyond 500 are not listed and, if all are listed, whether their diffs used up the budget |
| WorkspaceDiff.ReportIsComplete | sidecar/sidecar_workspace_diff.py:292-300 | without a note on dropped entries exactly the changed paths are listed, and the sizes add up if equal fingerprints mean equal sizes |
| WorkspaceDiff.ReportIsUnique | sidecar/sidecar_workspace_diff.py:235-300 | there is only one right answer for two snapshots |
| WorkspaceDiff.SizesAreConserved | sidecar/sidecar_workspace_diff.py:244-270 | below the entry cap the deltas add up to the difference of the totals, up to what equal fingerprints hide |
| WorkspaceDiff.DiffsFitTheBudget | sidecar/sidecar_workspace_diff.py:215-232 | all diff text together exceeds the budget by at most one truncation trailer |
| SnapshotStore.LatestWithoutOldest | sidecar/sidecar_workspace_diff.py:204-210 | evicting the oldest snapshot loses a path's pointer only if it was that path's last one |
| SnapshotStore.EvictHolds | sidecar/sidecar_workspace_diff.py:204-210 | the eviction step keeps both dictionaries equal to the retained calls |
| SnapshotStore.LastFourAreHeld | sidecar/sidecar_workspace_diff.py:198-212 | exactly the last four calls are held, each under its token with its path, and the path of the last one has its token |
| SnapshotStore.Store.StoreSnapshot | sidecar/sidecar_workspace_diff.py:198-212 | after any run of stores exactly the last four are retained, and a path has a pointer exactly if one of them is of it, naming the latest |
| SnapshotStore.Store.Previous | sidecar/sidecar_workspace_diff.py:333-346 | the snapshot compared with is the checkpoint if retained, else the path's latest retained one |
| SseStreams.ParseSseEvents | sdk-js/src/client.ts:305-329 | the events depend only on the concatenation of the chunks, for every way of cutting it |
| SseStreams.LogWatcher.Next | sdk-go/log.go:123-148 | successive calls return the events of the stream one by one, and false exactly when none is left |
| SseStreams.TrimsAgree | sdk-go/log.go:140-142 | the two trims give the same value exactly if at most one space precedes the text |
| SseStreams.OtherLinesAreIgnored | sdk-js/src/client.ts:316-323 | a line that is neither blank nor begins with `data:` changes nothing for either parser, wherever it stands |
| SseStreams.DataLineIsEvent | sdk-go/log.go:123-148 | a line that begins with `data:` and is closed by a blank one is one event, its value without the white space that the parser trims |
| SseStreams.JoinGrows | sdk-go/log.go:127-131 | the data lines of an event are put together in their order, with line feeds between them |
| SseStreams.AgreeExactly | sdk-go/log.go:123-148 | the two parsers return the same events if and only if every data line trims alike and no data line is left after the last blank one, or the stream ends in a lone carriage return |
| SseStreams.UnfinishedEventDiffers | sdk-js/src/client.ts:326-328 | an event without its blank line, which only the JavaScript parser returns |
| SseStreams.SecondSpaceDiffers | sdk-go/log.go:123-148 | a complete event with two spaces before its value, which the two parsers read differently |
| SseStreams.RoundTripJs | sdk-js/src/client.ts:305-329 | printing payloads as data lines and parsing returns them |
| SseStreams.RoundTripGo | sdk-go/log.go:123-148 | the same for Go, whose payload lines may start with spaces |
| Secrets.ReplaceCreatesNothing | sidecar/sidecar_secrets.py:213-216 | what occurs after a replacement occurred before it and is not the replaced text, unless it overlaps the marker |
| Secrets.ReplaceIsLeftmost | sidecar/sidecar_secrets.py:215-215 | the leftmost occurrence becomes the marker and the rest is treated alike |
| Secrets.NoSecretIsLeft | sidecar/sidecar_secrets.py:207-216 | value by value: one that overlaps neither its own marker nor a later one occurs nowhere in the result, whatever the other values are and however they overlap |
| Secrets.LeaksExactlyIf | sidecar/sidecar_secrets.py:207-216 | there is a text from which a secret alone is not scrubbed if and only if its value overlaps its own marker |
| Secrets.OverlapSurvives | sidecar/sidecar_secrets.py:207-216 | for each such overlap, the text from which the value is not scrubbed |
| Secrets.MarkerIsCompleted | sidecar/sidecar_secrets.py:207-216 | any value that begins with the end of its own marker survives in a text that repeats the rest of it |
| Secrets.LaterMarkerCompletes | sidecar/sidecar_secrets.py:207-216 | any overlap of a value with a later marker brings it back, if the text around has neither value |
| Secrets.BracketFree | sidecar/sidecar_secrets.py:207-216 | a value without brackets overlaps a marker if and only if it is part of it |
| Secrets.NothingToScrub | sidecar/sidecar_secrets.py:207-216 | a text in which no value occurs is left as it is |
| Secrets.BracketValueReappears | sidecar/sidecar_secrets.py:207-216 | a value that a later marker brings back into the text |
| Secrets.MarkerValueStays | sidecar/sidecar_secrets.py:207-216 | a value that is part of every marker and so stays in the text |
| Secrets.ScrubSecretValues | sidecar/sidecar_secrets.py:207-216 | the loop performs the specified sequential scrub, skipping empty values |
| Secrets.PiecesRoundTrip | sidecar/sidecar_secrets.py:200-204 | splitting a text at its references and writing it back changes nothing |
| Secrets.PiecesAroundToken | sidecar/sidecar_secrets.py:194-204 | a reference is found wherever it stands, and does not disturb what is found around it |
| Secrets.SubstitutionIsSinglePass | sidecar/sidecar_secrets.py:180-204 | inserted values are never scanned again and unresolved references stay literal |
| Secrets.SubstituteSecrets | sidecar/sidecar_secrets.py:180-204 | the result is the one-pass substitution, and the returned mapping has exactly the resolvable names referenced |
| RetryLoop.WithRetry | sdk-go/client.go:91-108 | a configured client always has positive backoffs and, unless told otherwise, the idempotent methods |
| RetryLoop.RetryDelay | sdk-go/client.go:394-406 | every wait lies between 0 and BackoffMax, for any attempt number, header and random number, in wrapping arithmetic |
| RetryLoop.SecondsAreExactUpTo | sdk-go/client.go:417-435 | a header in seconds is understood exactly up to 9223372036 |
| RetryLoop.HonouredExactly | sdk-go/client.go:394-435 | a respected header leads to the wait it asks for, capped, exactly if its product does not wrap below the cap |
| RetryLoop.LongHeaderShortWait | sdk-go/client.go:417-435 | a header of 18446744074 seconds leads to a wait of 0.29 seconds instead of the cap |
| RetryLoop.OtherHeaders | sdk-go/client.go:408-435 | a date asks for the time until then, anything else and a client without respect for headers leaves the backoff |
| RetryLoop.CeilingExactly | sdk-go/client.go:391-406 | the ceiling of the backoff is the doubled base up to the maximum exactly if the doubling fits 64 bits, or overflows to something not positive or not below the maximum |
| RetryLoop.BackoffOverflows | sdk-go/client.go:401-403 | a base for which the ceiling falls from 30 to 17 seconds at attempt 34 |
| RetryLoop.JitterIsFull | sdk-go/client.go:391-406 | every wait from nothing to the ceiling can come out, and no other |
| RetryLoop.WaitsExactlyIf | sdk-go/client.go:222-274 | a round is followed by a wait if and only if a retry is left, the method may be repeated, and no response arrived or one with a retriable error status |
| RetryLoop.WaitsHowLong | sdk-go/client.go:394-406 | after a retriable error the wait is what a respected header asks for, up to the maximum, and else no longer than the backoff |
| RetryLoop.DoJson | sdk-go/client.go:222-274 | against any replies the request is repeated exactly as long as they allow it and the waits complete, and the last reply decides the result |
| RetryLoop.TotalWaitIsBounded | sdk-go/client.go:222-274 | all waiting together is at most MaxRetries times BackoffMax |
| RetryLoop.RepeatedExactlyIf | sdk-go/client.go:378-389 | a request can be repeated if and only if retries are configured and its method, in capitals, is in the set |
| RetryLoop.PostIsNotRepeated | sdk-go/client.go:378-389 | with the default methods a POST is never repeated, however it is spelled |
| RetryLoop.PostCanBeConfigured | sdk-go/client.go:82-108 | with POST among the configured methods it is repeated |
| RetryLoop.Call | sdk-go/client.go:200-274 | a whole call sends at most MaxRetries + 1 requests, within the bounds on waiting, and a POST once under the default methods, however it is spelled; the last reply decides the result |
| EmbeddingBatch.OrderIsPermutation | memory-model-server/app.py:277-277 | the processing order has every index once, by length and then position |
| EmbeddingBatch.BatchesAreFull | memory-model-server/app.py:278-290 | the batches follow each other in the processing order, and all but the last are full |
| EmbeddingBatch.Embed | memory-model-server/app.py:274-307 | for every batch size position i gets the vector that the encoder returned for text i in the very batch in which it was processed; the incomplete-batch error is unreachable |
| EmbeddingBatch.BatchingDoesNotShow | memory-model-server/app.py:274-307 | if vectors do not depend on their batch, the result is the one without batching and sorting |
| EmbeddingBatch.Rerank | memory-model-server/app.py:309-361 | the result is a prefix of the full ranking, of length top_n, or all of it |
| EmbeddingBatch.RankingIsRight | memory-model-server/app.py:356-361 | the full ranking has every document once, under its own score cut to the range from 0 to 1, with descending scores and ties in document order |

## Left out

- SessionRestore.FlushThenRestore: covers a flush with discovery and without requested paths, and a storage that lists its keys in order; deleted files come back as well, because deletions never reach storage.
- SessionRestore.Configure: which files outside the synced roots survive the wipe, and which directories exist then, are parameters; ownership and the other resets of the endpoint are not modelled, no flush runs during the prefetch, and a failed download leaves no partial file.
- StorageSync.SyncSidecar.Scan: the walk is any sequence of paths that contains the reachable files existing throughout; that `os.walk` yields such a sequence is assumed.
- StorageSync.SyncSidecar.FlushOutputs: `skip_if_running` and the cancellation of the flush at shutdown are not modelled; flushes run under the lock, one at a time.
- StorageSync.SyncSidecar.Upload: signatures are fresh for every write, so a rewrite that keeps size and modification time is not seen here.
- ProcessRegistry.Registry.Perform: handles are values in a map, not shared objects; spawning, signals and waiting are steps with arbitrary outcomes.
- OutputBuffers.FollowOutput: chunks are bytes; the UTF-8 decoding of each polled chunk, which can replace a character cut in two, is not modelled.
- ExecBudget.OvershootIsInFlight: seconds are real numbers, so rounding is not modelled; tearing down the sandbox after a breach is left out.
- SearchIndex.Index.Refresh: the candidate list of the directory walk is a parameter, as is its own truncation flag; opening a candidate finds it exactly if the file exists.
- SearchIndex.WalkAgreesExactly: what a read returns of a file written under it is arbitrary, mixtures of old and new included.
- SearchRanking.Search: tokens and scores are an arbitrary function from lines to an optional rounded score, and the binary search of `insort` is its specified insertion.
- LspFraming.ReadOfPeerFrame: the body is an opaque byte string and JSON decoding is left out; the 64 KiB line limit of the stream reader and Python's limit on the digits of an integer are not modelled.
- LspCorrelation.AnswersAreGenuine: frames are an id and an opaque rest; ids that are not finite numbers, booleans or strings match nothing.
- WorkspaceDiff.TakeSnapshot: the regular files of the walk and the UTF-8 decoder are parameters; excluded directories and links are left out of that list beforehand.
- WorkspaceDiff.Compare: the text that `difflib` produces is an arbitrary function; only its length and truncation are modelled.
- SseStreams.AgreeExactly: compares the texts handed to the JSON decoders, so payloads that differ only in leading white space count as different; decoding errors, character decoding and Go's 8 MiB line limit are left out.
- Secrets.NoSecretIsLeft: exact for a secret alone (`LeaksExactlyIf`); among several the condition is sufficient, because the other values can destroy the text in which a marker would bring a value back.
- Secrets.SubstituteSecrets: a name resolves to the same value throughout the call; grants, caching and the destination checks are left out.
- RetryLoop.DoJson: building the request and encoding the body cannot fail here; a random number times the ceiling is any wait from 0 to the ceiling.
- EmbeddingBatch.Embed: vectors are opaque, so the dimension check, the normalisation and the test for finite values are left out.
- Uploads fetched on request and legacy uploads, which write files without holding the flush lock.
- Symbolic links, permissions and ownership; `realpath` is lexical.
- The LSP server cap, whose check and registration are in separate critical sections, and a size bound on the search cache, which has none.
- HTTP routing, WebSocket and terminal bridging, the browser and interpreter slots, scratch memory, image handling, migrations and the remaining SDK wrappers, which would only add easy members.
