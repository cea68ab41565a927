# Verified models of mac-infra

Dafny models of nine parts of mac-infra that hold state machines or algorithms, with proofs about
every input, every run or every interleaving. `dafny verify dfyconfig.toml` checks the whole project.

| part of mac-infra | modules |
|---|---|
| sealed file fetch (Go driver and page job over one slot) | `FetchPage`, `FetchDriver`, `FetchSystem` |
| disk scanner | `TopEntries`, `DiskTree`, `DiskWalk`, `DiskScan` |
| Slack response redaction | `SlackPatterns`, `SlackRedaction`, `SlackDecode`, `SlackSanitizer` |
| facade query language | `QuerySplit`, `QueryParse`, `QueryMeaning`, `QueryText`, `FacadeArguments`, `StatementKey` |
| facade list pagination | `FacadeList` |
| browser heartbeat | `HeartbeatSystem`, `HeartbeatTiming` |
| ECDSA signature encodings | `Ecdsa` |
| cleanup plan snapshot and revalidation | `CleanPaths`, `CleanupPlan` |
| outbound scanner | `OutboundVariants`, `OutboundDecode`, `OutboundJson`, `OutboundScan` |

`Common`, `StringOrder` and `TextOps` hold what several of them share.

Code that changes state step by step is modelled by methods and classes with loops, each proved equal to
a specification function or to a declarative contract; the theorems are lemmas about those functions.
Protocols between several parties are step systems over lists of actions, and their theorems quantify
over all such lists, so over every interleaving, crash and loss.

## What the proofs found

* **A fetch that gives up early ends mutual exclusion.** A driver that stops waiting clears its record
  while its page job still runs; exactly that step lets a second fetch start beside the first
  (`FetchSystem.ExclusionIsExact`, `FetchSystem.EarlyClearLetsTwoRun`), and the older job's completion
  then costs the newer driver its record (`FetchSystem.LateCompletionCostsTheNextFetch`). No driver ever
  returns another job's body (`FetchSystem.SuccessIsOwnWholeBody`).
* **No two cached lists share a cache key, and `list`'s checks are why.** `statementKey` writes `key=value;`
  without escaping, but of a statement that `list` lets through only `where_value` can hold a semicolon, and
  it is written last; so two such statements have the same key exactly when they are the same
  (`StatementKey.AdmittedKeysDiffer`, `StatementKey.QueriedKeysDiffer`). Without the checks this would not
  hold: any statement with two arguments would share its key with another (`StatementKey.SharingIsExact`),
  as would `list(a='1;b=2')` with `list(a=1,b=2)`, both of which `list` refuses
  (`StatementKey.AcceptedQueriesShareAKey`).
* **Not every value can be written between single quotes.** The splitter takes a backslash inside quotes for
  an escape, the value parser only one in front of a quote. A quoted value is read back exactly when the
  splitter sees one part (`QueryText.QuotedArgumentRoundTrip`); a value without single quotes exactly when it
  does not end in an odd run of backslashes (`QueryText.SteadySurvives`), and the others are refused, one
  backslash alone among them (`QueryText.UnsteadyIsRefused`, `QueryText.OneBackslashIsRefused`). Queries
  written with values that survive are read back as they were (`QueryText.QueryRoundTrip`).
* **`hasMore` is right up to 1000 matches and no further.** On one fixed page of at most 1000 matches it is
  never wrong (`FacadeList.FixedAnswerIsRight`); for every larger number and every window there is a page on
  which it is (`FacadeList.PastTheScanBoundAnswersFail`).
* **A heartbeat probe can start after its deadline.** All probes of all runs start before their deadlines if
  and only if no time passes between a check and the call behind it and an ended context always ends a retry
  wait (`HeartbeatSystem.StartsInTimeExactly`). Neither alone is enough: any delay in front of the first call
  makes a probe late (`HeartbeatSystem.BoundsAreMet`), and so does a retry timer that wins over the ended
  context in Go's `select`, even if the clock stands still between all checks and calls
  (`HeartbeatSystem.TimerCanWin`). If at most d passes and contexts do end waits, first attempts start before
  the deadline plus d and later ones before the deadline plus 2d
  (`HeartbeatSystem.DisciplinedRunsAreTimely`), and runs get within one unit of both bounds. In all runs every
  logged outcome was started and finished in time (`HeartbeatSystem.RunsInTime`).
* **A crash inside expiry is made good by a relaunch if and only if the state file was still there**
  (`HeartbeatSystem.ExpiryCrashIsMadeGoodExactly`). After a later crash the job stays loaded: each relaunch
  exits at once, but none unloads it (`HeartbeatSystem.CrashAfterStateRemovalLingers`,
  `HeartbeatSystem.ExpiryCrashCanLinger`). The comment at `internal/browsersession/heartbeat.go:348-349` says it
  cannot relaunch; with `KeepAlive` it does, and does nothing. `Stop` cleans up (`HeartbeatSystem.StopCleans`).
* **An expiry by `Inspect` can leave a log file behind** (`HeartbeatSystem.ExpiryCanLeaveALog`): some run does,
  without a stop or a start, if and only if the job is about to log or in a cycle whose own deadline is still
  ahead (`HeartbeatSystem.ExpiryLeavesALogExactly`).
* **The freshness limit counts two retry waits of 250 ms where the code waits 250 and 500.** The grace still
  covers it for cycles that fit their interval (`HeartbeatTiming.SteadyJobIsNeverStale`); if cycles overrun,
  intervals of 26.998 s and more are safe and all shorter ones are not (`HeartbeatTiming.StalenessIsExact`).
* **The containment test puts no path inside `/`**, because it appends a slash to the root
  (`CleanPaths.ContainmentIsExact`). The planner refuses `/` as a root before it comes to that test
  (`internal/cleanup/policy.go:373`).
* **The verdict on a URL's query depends on Go's map order.** Whether the query may leave does not
  (`OutboundScan.QueryOrderIrrelevant`). Which verdict it gets does, if and only if two of its parameters may
  not leave for different reasons (`OutboundScan.QueryOrderDecidesTheRefusal`); then the first in iteration
  order decides between "refused" and "unknown", as in `q=akia0000000000000000&r=%01`, an access key and a
  control character (`OutboundScan.BothRefusalsOccur`).
* **A projection of commas alone is accepted and projects nothing**, `list(){,}` for instance
  (`QueryText.CommaProjectsNothing`); which tails do that is `QueryText.EmptyProjectionsExactly`.

## Model

| member | source | states |
|---|---|---|
| FetchPage.ReadBody | internal/chromectl/fetch_file.go:378-379 | the page's read loop reports too-large exactly when the whole body exceeds the bound, and otherwise has every part in order |
| FetchPage.MergeParts | internal/chromectl/fetch_file.go:380 | the merge buffer is the concatenation of the parts |
| FetchPage.ChunksJoin | internal/chromectl/fetch_file.go:381-382 | cutting a body into chunks loses and reorders nothing; no chunk is empty or over the chunk size |
| FetchPage.SplitChunks | internal/chromectl/fetch_file.go:381-382 | the chunk loop yields exactly those chunks |
| FetchPage.ClearOnlyOwn | internal/chromectl/fetch_file.go:403-405 | clearing empties the slot exactly when it holds the caller's own record, and changes no other job's poll |
| FetchPage.Page.Start | internal/chromectl/fetch_file.go:362-364 | a start is refused while a record is running and otherwise installs the caller's running record |
| FetchPage.Page.Clear | internal/chromectl/fetch_file.go:403-405 | the slot and the word after a clear |
| FetchPage.Page.Complete | internal/chromectl/fetch_file.go:365-387 | whatever the slot holds by then, the job writes the record of its own outcome |
| FetchDriver.SuccessIsBounded | internal/chromectl/fetch_file.go:205-235 | for any page replies at all, a successful driver returns at most MaxBytes bytes and had started |
| FetchDriver.FetchFile | internal/chromectl/fetch_file.go:163-235 | the poll and chunk loops are the step function folded over the events, and `started` is what the deferred clear looks at |
| FetchDriver.ReadChunks | internal/chromectl/fetch_file.go:213-235 | the chunk loop is the step function folded over the remaining events |
| FetchSystem.StepKeepsHonest | internal/chromectl/fetch_file.go:135-236 | every action of any driver, page job, late script or navigation keeps the protocol invariant |
| FetchSystem.RunsAreHonest | internal/chromectl/fetch_file.go:135-236 | the invariant holds after every list of actions |
| FetchSystem.SuccessIsOwnWholeBody | internal/chromectl/fetch_file.go:135-236 | under every interleaving, a driver that succeeds returns exactly the whole body its own job fetched, within its limit |
| FetchSystem.FailureIsExternal | internal/chromectl/fetch_file.go:205-234 | none of the driver's size, count, encoding or length checks ever refuses: every failure has an outside cause |
| FetchSystem.ChunkBoundAdmits | internal/chromectl/fetch_file.go:209-212 | the chunk-count bound admits every body within the size limit |
| FetchSystem.RecordLoss | internal/chromectl/fetch_file.go:357-405 | a record leaves the slot only by its own clear, a navigation, another completion or, when finished, another start; never by another job's clear |
| FetchSystem.FinishedRecordIsStable | internal/chromectl/fetch_file.go:385-400 | while it stays in the slot a finished record does not change |
| FetchSystem.ExclusionIsExact | internal/chromectl/fetch_file.go:363-364 | an action keeps "every pending job is the one in the slot" if and only if it does not clear a running record |
| FetchSystem.ExclusionOverRuns | internal/chromectl/fetch_file.go:363-364 | so runs without such clears keep it |
| FetchSystem.AtMostOnePending | internal/chromectl/fetch_file.go:363-364 | and have at most one fetch under way |
| FetchSystem.EarlyClearLetsTwoRun | internal/chromectl/fetch_file.go:154-161 | a run from the empty page in which a driver gives up and clears, and a second fetch runs beside the first |
| FetchSystem.LateCompletionCostsTheNextFetch | internal/chromectl/fetch_file.go:385-386 | that run continued: the older job's completion makes the newer driver find its record missing |
| FetchSystem.ReadsFinish | internal/chromectl/fetch_file.go:214-235 | a reading driver left alone finishes with its whole body in as many reads as chunks remain |
| FetchSystem.UndisturbedTransferSucceeds | internal/chromectl/fetch_file.go:176-235 | a driver left alone with its fetched record succeeds with that body |
| TopEntries.SortRanks | internal/diskprofile/scan.go:420-426 | the sort is a permutation in rank order |
| TopEntries.RankingUnique | internal/diskprofile/scan.go:420-426 | with distinct keys only one ranking exists |
| TopEntries.RetainStandsFor | internal/diskprofile/scan.go:433-442 | one insertion keeps the bounded buffer equivalent to everything offered |
| TopEntries.BoundedBufferIsExact | internal/diskprofile/scan.go:433-442 | after any insertions the buffer has at most 2*limit entries and yields the same top list as sorting all entries ever seen |
| TopEntries.LimitKeepsTheBest | internal/diskprofile/scan.go:416-431 | nothing left out ranks above anything kept |
| DiskTree.EachInodeChargedOnce | internal/diskprofile/scan.go:176-187 | of all counted links to an inode the first is charged its size and every other nothing |
| DiskTree.TotalIgnoresOrder | internal/diskprofile/scan.go:176-187 | where links agree on their size, the total depends only on which entries are visited |
| DiskTree.ReorderAllSameVisits | internal/diskprofile/scan.go:228-276 | any reordering of any listings visits the same entries |
| DiskTree.ListingOrderIrrelevant | internal/diskprofile/scan.go:228-278 | so the total does not depend on listing order |
| DiskTree.ListingOrderMattersWhenLinksDisagree | internal/diskprofile/scan.go:178-186 | links that report different sizes make it depend on listing order |
| DiskWalk.WalkVisits | internal/diskprofile/scan.go:150-290 | the walk visits an initial part of the preorder, all of it unless cancelled |
| DiskWalk.WalkCharges | internal/diskprofile/scan.go:176-278 | at every entry the subtree total is what its visits are charged |
| DiskWalk.WalkSettles | internal/diskprofile/scan.go:151-154 | visited, retained and omitted counts and the recorded flags stay consistent |
| DiskWalk.WalkTree | internal/diskprofile/scan.go:262-270 | the retained tree, read depth first with each entry's depth, is the granted visits in order |
| DiskWalk.WalkHangs | internal/diskprofile/scan.go:236-270 | every retained entry hangs under the entry of the directory whose listing names it, with its path, kind and size |
| DiskWalk.RetainedTreeIsClosed | internal/diskprofile/scan.go:262-270 | the granted visits are closed under parents: in front of each stands the one it hangs under |
| DiskWalk.ScanIsAccountedFor | internal/diskprofile/scan.go:83-101 | root total, counts, retained tree with its nesting, and the retention and cancellation records of a whole scan |
| DiskWalk.ScanTopsAreExact | internal/diskprofile/scan.go:98-99 | the reported top lists are those of every directory and file offered, with its subtree total |
| DiskWalk.VisitsIgnoreRetention | internal/diskprofile/scan.go:262-267 | the retention limit does not change what is visited |
| DiskWalk.TotalsAreIntrinsic | internal/diskprofile/scan.go:92-93 | an uncancelled scan's root total depends neither on listing order nor on MaxRetainedEntries |
| DiskWalk.StoppedEarly | internal/diskprofile/scan.go:229-233 | once a listing is cut short, the entries behind the cut change nothing |
| DiskWalk.NeverCancelled | internal/diskprofile/scan.go:157-161 | a context that never ends never cancels the walk |
| DiskScan.NormalizeLimit | internal/diskprofile/scan.go:119-124 | the effective limit lies in 1..1000 and keeps a limit in that range |
| DiskScan.NormalizeMaxRetained | internal/diskprofile/scan.go:125-130 | the effective retention lies in 1..50000 and keeps a value in that range |
| DiskScan.Scanner.ReserveRetainedEntry | internal/diskprofile/scan.go:375-381 | a place is granted exactly while fewer than MaxRetainedEntries are taken |
| DiskScan.Scanner.RecordCanceled | internal/diskprofile/scan.go:383-395 | recorded once |
| DiskScan.Scanner.RecordRetentionLimit | internal/diskprofile/scan.go:397-409 | recorded once |
| DiskScan.Scanner.ClaimInode | internal/diskprofile/scan.go:178-187 | the first link claims the inode, later ones are duplicates |
| DiskScan.Scanner.Walk | internal/diskprofile/scan.go:150-290 | the recursive walk over the scanner's fields is the specification's walk |
| DiskScan.Scanner.ReadChildren | internal/diskprofile/scan.go:228-276 | the loop over a listing is the specification's |
| DiskScan.Scanner.ReadChild | internal/diskprofile/scan.go:229-275 | so is one turn of it |
| DiskScan.Scan | internal/diskprofile/scan.go:36-104 | which scans fail and how, and that the others return the walk's result |
| SlackPatterns.MatchIsInLanguage | internal/chromectl/slack.go:41-43 | a matcher finds nothing but its shape |
| SlackPatterns.LanguageIsMatched | internal/chromectl/slack.go:41-43 | wherever the shape begins a match begins, at least as long |
| SlackPatterns.SearchHits | internal/chromectl/slack.go:814-819 | leftmost non-overlapping search covers the first character of every occurrence |
| SlackPatterns.SearchFindsTokens | internal/chromectl/slack.go:814-819 | and returns only occurrences |
| SlackPatterns.TokenIsPlain | internal/chromectl/slack.go:34 | no shape is shorter than 13 characters or contains a bracket of the marker |
| SlackRedaction.SortSpansSorts | internal/chromectl/slack.go:794-799 | the sort orders the collected spans by start and loses none |
| SlackRedaction.MergeIsMerge | internal/chromectl/slack.go:800-811 | the merged spans are nonempty, sorted, disjoint, cover exactly what was collected, split no span and join only overlaps |
| SlackRedaction.MergeIsUnique | internal/chromectl/slack.go:800-811 | only one set of spans does that |
| SlackRedaction.MergeInPlace | internal/chromectl/slack.go:800-811 | merging into the collection buffer itself overwrites no unread span and yields the merge |
| SlackRedaction.RedactedHoldsNoToken | internal/chromectl/slack.go:769-784 | for every text the redacted text holds no token shape |
| SlackRedaction.ContainsTokenShapeIsExact | internal/chromectl/slack.go:760-762 | the scanner reports a token exactly when the text holds one |
| SlackRedaction.RedactionIsIdempotent | internal/chromectl/slack.go:769-784 | redacting twice is redacting once |
| SlackRedaction.CleanTextIsKept | internal/chromectl/slack.go:769-773 | text without a token is returned unchanged |
| SlackRedaction.RedactionKeepsTheRest | internal/chromectl/slack.go:777-783 | the output is every uncovered character in order, with one marker a merged span |
| SlackDecode.Decode | internal/chromectl/slack.go:661-739 | accepted if and only if well formed, collision-free, within depth and node bounds; the result mirrors the input member by member; every refusal names a real fault |
| SlackDecode.DecodeMembers | internal/chromectl/slack.go:674-711 | the same for one object's members, duplicates decided on sanitized names |
| SlackDecode.MirrorIsAllText | internal/chromectl/slack.go:661-748 | what holds of every sanitized string holds throughout an accepted value |
| SlackSanitizer.SanitizedTextHoldsNoToken | internal/chromectl/slack.go:741-748 | whatever the URL step returns, a sanitized string holds no token shape |
| SlackSanitizer.MirrorIsTokenFree | internal/chromectl/slack.go:661-758 | no string and no member name of an accepted response holds one |
| SlackSanitizer.SanitizeResponse | internal/chromectl/slack.go:642-739 | both together for a whole response, secret-named members replaced by the marker |
| TextOps.TrimSpaceIdempotent | internal/browserfacade/parser.go:198-209 | trimming a trimmed part changes nothing |
| QuerySplit.SplitIsSegments | internal/browserfacade/parser.go:162-214 | an accepted input is its segments joined by the separator, each balanced and free of a top-level separator |
| QuerySplit.SegmentsSplit | internal/browserfacade/parser.go:162-214 | conversely any such segments, joined, split back into themselves or fail on a blank one |
| QuerySplit.PartsResplitAlone | internal/browserfacade/parser.go:162-214 | every returned part re-splits to itself alone |
| QuerySplit.SplitTopLevel | internal/browserfacade/parser.go:162-214 | the byte scanner computes the specification, errors included |
| QuerySplit.MatchingParen | internal/browserfacade/parser.go:79-110 | the second scanner finds the first parenthesis that closes the first |
| QuerySplit.CloseFound | internal/browserfacade/parser.go:79-110 | a depth that ends at zero passes through zero |
| QuerySplit.SegmentCloses | internal/browserfacade/parser.go:79-110 | what the first scanner accepts the second one closes |
| QueryParse.ParseArgs | internal/browserfacade/parser.go:112-137 | the argument loop computes the specification, with its order of checks |
| QueryParse.ParseFields | internal/browserfacade/parser.go:57-75 | so does the projection loop |
| QueryParse.CleaveStatement | internal/browserfacade/parser.go:40-52 | name and parentheses of a statement |
| QueryParse.ParseStatement | internal/browserfacade/parser.go:39-77 | a whole statement |
| QueryParse.Parse | internal/browserfacade/parser.go:17-37 | a whole query |
| QueryMeaning.QuotedValueRoundTrip | internal/browserfacade/parser.go:139-148 | once the splitter has passed it whole, a value between single quotes with its quotes escaped is read as it was |
| QueryMeaning.WordsAreWords | internal/browserfacade/parser.go:68 | projected words are nonempty and hold no separator |
| QueryMeaning.WordsRoundTrip | internal/browserfacade/parser.go:68 | words written one behind the other are read back as they were |
| QueryMeaning.AcceptedArguments | internal/browserfacade/parser.go:121-136 | an argument list is accepted exactly when every part is an argument and no key repeats; the map then holds exactly those arguments |
| QueryMeaning.ArgumentOrderIrrelevant | internal/browserfacade/parser.go:121-136 | the order of the arguments decides neither acceptance nor the map |
| QueryMeaning.ProjectKeeps | internal/browserfacade/parser.go:67-74 | an accepted projection is the written words, distinct field names in order |
| QueryMeaning.OpenedIsClosed | internal/browserfacade/parser.go:49-52 | a statement that stands alone in the query closes the parenthesis behind its name |
| QueryMeaning.StatementProper | internal/browserfacade/parser.go:39-77 | an accepted statement has a safe name, field-named keys and distinct fields, and is never reported unclosed |
| QueryMeaning.AcceptedQueryIsProper | internal/browserfacade/parser.go:17-37 | no input makes Parse report an unclosed parenthesis; accepted queries have 1 to 16 proper statements, one a segment |
| QueryText.QuotedArgumentRoundTrip | internal/browserfacade/parser.go:112-214 | behind its key, a quoted value is read back as it was if and only if the splitter sees one part |
| QueryText.SteadySurvives | internal/browserfacade/parser.go:168-178 | values with an even run of backslashes before each quote and the end do; of those without a quote no others |
| QueryText.UnsteadyIsRefused | internal/browserfacade/parser.go:168-208 | the others without a quote are refused as unbalanced |
| QueryText.OneBackslashIsRefused | internal/browserfacade/parser.go:168-208 | the input `a='\'` is one |
| QueryText.CallIsCleft | internal/browserfacade/parser.go:39-54 | a call falls into its name, the balanced text inside its parentheses and the text behind them |
| QueryText.ListIsRead | internal/browserfacade/parser.go:112-137 | written arguments, bare or quoted, are read back as their map |
| QueryText.FieldsAreRead | internal/browserfacade/parser.go:57-75 | written fields are read back as they were |
| QueryText.QueryRoundTrip | internal/browserfacade/parser.go:17-77 | a query written out from 1 to 16 statements within the length bound is read back as those statements |
| QueryText.EmptyProjectionsExactly | internal/browserfacade/parser.go:57-75 | exactly which tails project nothing: none, and braces around separators with a comma among them |
| QueryText.CommaProjectsNothing | internal/browserfacade/parser.go:57-75 | `list(){,}` is accepted |
| StatementKey.StatementKey | internal/browserfacade/parser.go:253-264 | whatever order the map is enumerated in, the result is the statement's key |
| StatementKey.KeyIsDetermined | internal/browserfacade/parser.go:253-264 | a statement has one key |
| StatementKey.ListsOnce | internal/browserfacade/parser.go:254-258 | a map has one sorted listing |
| StatementKey.KeySections | internal/browserfacade/parser.go:263 | equal keys agree on operation, argument text and fields |
| StatementKey.PlainKeysDiffer | internal/browserfacade/parser.go:253-264 | statements of any arguments without semicolons in values never share a key |
| StatementKey.AdmittedKeysDiffer | internal/browserfacade/facade.go:230-274 | two statements that list lets through, whatever stands in their where_value, have the same key if and only if they are the same statement |
| StatementKey.QueriedKeysDiffer | internal/browserfacade/facade.go:198-220 | the same for statements of any two accepted queries |
| FacadeArguments.AdmittedIsPlain | internal/browserfacade/facade.go:230-274 | what list's checks leave: its six argument keys, and semicolons in where_value alone |
| FacadeArguments.AnyValueIsAdmitted | internal/browserfacade/facade.go:369-391 | where_value may hold any text up to the length bound |
| FacadeArguments.AdmittedIsInBounds | internal/browserfacade/facade.go:234-249 | the request list goes on with meets the bounds its page loop relies on |
| StatementKey.TwoArgumentsAreShared | internal/browserfacade/parser.go:260-262 | if any proper statement could reach the key, each with two arguments would share its key with one that has fewer |
| StatementKey.SharingIsExact | internal/browserfacade/parser.go:253-264 | among all proper statements, let through or not, exactly which would have their key to themselves |
| StatementKey.AcceptedQueriesShareAKey | internal/browserfacade/facade.go:231-233 | two accepted queries whose different statements would have one key, and that list refuses for their argument names |
| FacadeList.PageIsContiguous | internal/browserfacade/facade.go:285-300 | a page is read without gaps or overlaps: every chunk but the last is full, the i-th stands at position 100 * i on the page and in the items, the last ends the page or the scan |
| FacadeList.ReadPageCounts | internal/browserfacade/facade.go:285-300 | every item read is counted and the scan bound of 1000 is never passed |
| FacadeList.DedupKeepsFirsts | internal/browserfacade/facade.go:308-314 | deduplication keeps every record once, in order of first occurrence |
| FacadeList.BrowseBounds | internal/browserfacade/facade.go:282-300 | scanned items are exactly the items of the pages read, at most 1000 from at most max_pages pages |
| FacadeList.ListIsBoundedWindow | internal/browserfacade/facade.go:355-357 | returned items are distinct, at most take, within both bounds |
| FacadeList.NoMeansRefusedToAdvance | internal/browserfacade/facade.go:339-346 | on an advancing site "false" means the last page, read behind the items of all earlier ones, was read to its end and refused to advance, with too few records for the window |
| FacadeList.YesMeansMoreInSight | internal/browserfacade/facade.go:315-326 | "true" means more first occurrences than the window needs, or matches on the last page that were not read |
| FacadeList.FixedPageRead | internal/browserfacade/facade.go:285-300 | on a fixed page the chunks read are its first 1000 items |
| FacadeList.FixedPageAnswer | internal/browserfacade/facade.go:277-354 | pages, scanned count and answer on a fixed page of any length |
| FacadeList.FixedAnswerIsRight | internal/browserfacade/facade.go:315-334 | up to 1000 matches the answer is never wrong, and unknown only at exactly 1000 with too few distinct records |
| FacadeList.FixedAnswerIsRightExactly | internal/browserfacade/facade.go:315-334 | for any length: wrong if and only if the unscanned tail changes the comparison with the window's end |
| FacadeList.PastTheScanBoundAnswersFail | internal/browserfacade/facade.go:315-334 | for every length past 1000 and every window some list is answered wrongly |
| FacadeList.CleanItems | internal/browserfacade/facade.go:528-560 | one record an item, or the first refusal |
| FacadeList.ScanPage | internal/browserfacade/facade.go:283-300 | the chunk loop computes the specification |
| FacadeList.KeepFirsts | internal/browserfacade/facade.go:308-314 | the loop over a page extends the first occurrences |
| FacadeList.GatherPages | internal/browserfacade/facade.go:277-354 | the page loop's running lists and sets amount to the specification over whole pages |
| FacadeList.List | internal/browserfacade/facade.go:230-366 | argument checks, then the window [skip, skip+take) of the first occurrences over all pages read |
| HeartbeatSystem.RunsInTime | internal/browsersession/heartbeat.go:485-549 | over all runs: every probe's cycle began before its deadline and every logged outcome was started and finished before it |
| HeartbeatSystem.LiveProbesStartInTime | internal/browsersession/heartbeat.go:497-505 | a probe under a live context starts before the deadline plus the gap between reading and arming; before the deadline if there is no gap |
| HeartbeatSystem.ProbeCanStartLate | internal/browsersession/heartbeat.go:497-505 | a run in which one starts later than the deadline |
| HeartbeatSystem.DisciplinedRunsAreTimely | internal/browsersession/heartbeat.go:497-568 | if at most delta passes between a check and its call and ended contexts end waits, first attempts of all runs start before the deadline plus delta, later ones before the deadline plus twice that |
| HeartbeatSystem.BoundsAreMet | internal/browsersession/heartbeat.go:497-568 | a run for every delta that comes within one unit of both bounds |
| HeartbeatSystem.TimerCanWin | internal/browsersession/heartbeat.go:579-591 | a run without any such delay whose retry timer wins over the ended context and whose second probe is late |
| HeartbeatSystem.StartsInTimeExactly | internal/browsersession/heartbeat.go:485-591 | all probes of all runs of the discipline start in time if and only if delta is zero and ended contexts end waits |
| HeartbeatSystem.AfterClosingOnlyTheOldCycle | internal/browsersession/heartbeat.go:486-501 | once the state file is gone or its deadline passed, and until a new start, only the cycle under way may probe, and at most one outcome is logged |
| HeartbeatSystem.RelaunchesAreSilent | internal/browsersession/heartbeat.go:486-489 | with no cycle under way then, no relaunch ever probes or logs |
| HeartbeatSystem.CrashBeforeStateRemoval | internal/browsersession/heartbeat.go:347-360 | relaunches clean up as long as the state file exists |
| HeartbeatSystem.CrashAfterStateRemovalLingers | internal/browsersession/heartbeat.go:347-360 | without it the job stays loaded and silent in every run without a stop or a start |
| HeartbeatSystem.ExpiryCrashIsMadeGoodExactly | internal/browsersession/heartbeat.go:347-360 | after a crash at any stage of expiry some run without a stop or a start ends clean if and only if the state file was there |
| HeartbeatSystem.ExpiryCrashCanLinger | internal/browsersession/heartbeat.go:347-360 | any loaded job can come to such a crash behind the removal |
| HeartbeatSystem.StopCleans | internal/browsersession/heartbeat.go:322-345 | Stop leaves nothing behind from any state |
| HeartbeatSystem.ExpiryCanLeaveALog | internal/browsersession/heartbeat.go:404-414 | a run from any fresh job whose deadline is ahead: an expiry by Inspect races with a cycle about to log and leaves a new log file |
| HeartbeatSystem.ExpiryLeavesALogExactly | internal/browsersession/heartbeat.go:347-360 | at whatever step an expiry by Inspect is: some run without a stop or a start leaves a log behind the unloaded job if and only if the job is about to log or in a cycle whose own deadline is ahead |
| HeartbeatTiming.RunProbeWithRetry | internal/browsersession/heartbeat.go:551-569 | which attempt decides, what is returned, and that it takes at most 30.75 s |
| HeartbeatTiming.SettledOnce | internal/browsersession/heartbeat.go:551-569 | only one answer fits a course of attempts |
| HeartbeatTiming.WorstAge | internal/browsersession/heartbeat.go:532-535 | the oldest a last outcome gets |
| HeartbeatTiming.SteadyJobIsNeverStale | internal/browsersession/heartbeat.go:612-621 | cycles that fit into the interval are never reported stale |
| HeartbeatTiming.StalenessIsExact | internal/browsersession/heartbeat.go:612-621 | exactly the intervals from 26.998 s on never report a succeeding job stale |
| Ecdsa.IntegerRoundTrip | internal/keyvault/ecdsa.go:119 | encoding then decoding an INTEGER of either sign (X.690 section 8.3) |
| Ecdsa.MinimalRoundTrip | internal/keyvault/ecdsa.go:72-83 | decoding then encoding a minimal INTEGER |
| Ecdsa.LengthIsCanonical | internal/keyvault/ecdsa.go:72-83 | every accepted length is in the one form the encoder writes (X.690 section 10.1) |
| Ecdsa.UnmarshalIsCanonical | internal/keyvault/ecdsa.go:72-79 | the lenient decoder pins down every byte except those it skips behind s |
| Ecdsa.ReencodingIsExact | internal/keyvault/ecdsa.go:83-86 | the re-encoding check refuses exactly the texts with such bytes |
| Ecdsa.DerLength | internal/keyvault/ecdsa.go:118-119 | DER takes at most 72 bytes |
| Ecdsa.ParseAfterEncode | internal/keyvault/ecdsa.go:62-123 | parsing what Encode wrote gives the signature back, DER and raw |
| Ecdsa.EncodeAfterParse | internal/keyvault/ecdsa.go:62-123 | encoding what was parsed gives the bytes back |
| Ecdsa.AcceptanceIsExact | internal/keyvault/ecdsa.go:62-94 | accepted texts and in-range pairs correspond one to one |
| Ecdsa.LowSIsTheLowMember | internal/keyvault/ecdsa.go:97-108 | LowS stays in range, is idempotent and picks the low member of {s, n-s}, whichever it is given |
| CleanPaths.CleanIdempotent | internal/cleanup/plan.go:745-747 | cleaning a path twice is cleaning it once |
| CleanPaths.ContainmentIsExact | internal/cleanup/plan.go:745-749 | for absolute paths the textual test is the element-prefix test, except that the root directory contains only itself |
| CleanupPlan.RevalidateCandidate | internal/cleanup/plan.go:490-560 | the checks, accumulated in order, are the specification |
| CleanupPlan.RevalidateInRoot | internal/cleanup/plan.go:527-559 | so are those of the candidate itself |
| CleanupPlan.UnchangedMeetsNoChange | internal/cleanup/plan.go:490-632 | on an unchanged file system an identity meets only the refusals for foreign owners and symlinks |
| CleanupPlan.NoRefusalIsExact | internal/cleanup/plan.go:490-632 | no refusal if and only if a new snapshot equals the saved one in every field but RootGID, is no symlink, and candidate and root belong to the user |
| CleanupPlan.NewPlannedCandidate | internal/cleanup/planner.go:594-639 | exactly when a candidate is selected, default-selected and downgraded |
| CleanupPlan.SelectedCandidatesRevalidate | internal/cleanup/planner.go:594-691 | what the planner selects under a validated root is a file or directory inside it and revalidates without refusal while nothing changes |
| OutboundVariants.NothingMissed | internal/browserfacade/outbound.go:345-392 | when the queue is empty, every decoded form within reach was found no deeper than its distance |
| OutboundVariants.VerdictIsSound | internal/browserfacade/outbound.go:345-392 | clean means every decoded form within four decodings was inspected as clean, at most 16 of them; any other verdict has its reason within reach |
| OutboundVariants.AddVariants | internal/browserfacade/outbound.go:363-389 | the loop over one text's decoded forms computes the specification |
| OutboundVariants.InspectNormalizedVariants | internal/browserfacade/outbound.go:345-392 | the queue loop computes that verdict |
| OutboundDecode.DecodeBackslashVariant | internal/browserfacade/outbound.go:418-463 | the escape loop computes the left-to-right decoding |
| OutboundDecode.DecodeShortens | internal/browserfacade/outbound.go:418-463 | it shortens exactly when it changes anything |
| OutboundDecode.UnescapeShortens | internal/browserfacade/outbound.go:396-404 | a text with a percent sign gets shorter when it can be unescaped |
| OutboundDecode.DerivedIsShorter | internal/browserfacade/outbound.go:394-416 | at most two decoded forms, each strictly shorter |
| OutboundDecode.EscapedIsWithin | internal/browserfacade/outbound.go:394-416 | a text percent-escaped n times over is within n decodings of the result |
| OutboundDecode.ReachShortens | internal/browserfacade/outbound.go:345-416 | no sequence of decodings leads back to a text |
| OutboundJson.InspectJSONValue | internal/browserfacade/outbound.go:504-572 | refused if and only if some member name is secret or some string is refused or would be redacted; unknown if and only if not refused and some string or name is unreadable or two names of one object are equal |
| OutboundJson.CleanVerdict | internal/browserfacade/outbound.go:504-582 | a clean value has only readable, unsecret names and clean strings |
| OutboundJson.InspectObject | internal/browserfacade/outbound.go:521-554 | the same for one object |
| OutboundScan.DecisionCarries | internal/browserfacade/outbound.go:29-34 | clean decisions carry the text itself, refused and unknown ones none |
| OutboundScan.RedactedTextIsClean | internal/browserfacade/outbound.go:142-172 | a redacted decision carries a text that is clean one level deeper |
| OutboundScan.CleanTextHidesNothing | internal/browserfacade/outbound.go:126-174 | clean text holds no secret outside its URLs, and every form of it within the remaining decodings was inspected as clean |
| OutboundScan.CleanVariantHidesNothing | internal/browserfacade/outbound.go:372-387 | an inspected form needs no redaction and holds no secret outside its URLs |
| OutboundScan.CleanJsonHidesNothing | internal/browserfacade/outbound.go:137-149 | clean JSON parses, and all its names and strings are clean one level deeper |
| OutboundScan.QueryAccepted | internal/browserfacade/outbound.go:226-259 | a query may leave if and only if each parameter may |
| OutboundScan.QueryOrderIrrelevant | internal/browserfacade/outbound.go:231-259 | so iteration order does not decide that |
| OutboundScan.QueryOrderDecidesTheRefusal | internal/browserfacade/outbound.go:231-259 | all orders give the same verdict if and only if no two parameters may not leave for different reasons |
| OutboundScan.BothRefusalsOccur | internal/browserfacade/outbound.go:176-259 | under the code's own rules, a query of an access key and a control character is refused in one order and unknown in the other |
| OutboundScan.DecodedFormsShrink | internal/browserfacade/outbound.go:345-416 | with the decoders put in, no sequence of decodings leads back to a text |
| OutboundScan.EscapingHidesNothing | internal/browserfacade/outbound.go:126-416 | a clean text that is another one percent-escaped up to four times over means the other was inspected and shows no secret |

## Left out

- Regular expression engines: the three Slack token patterns are modelled as languages with leftmost matchers, SafeName and FieldName as predicates; every other pattern is a parameter.
- JSON tokenisation: values arrive as trees whose `Malformed` leaf stands for a syntax error, so trailing text and the byte limits of the raw response are not modelled.
- base64, SHA-256 and JSON encoding of digests: a decodable chunk carries its bytes, and records and pages stand for their own digests.
- FetchDriver.FetchFile: request validation (fetch_file.go:60-98, 238-291), media type cleaning and the error texts are not modelled; job identifiers are assumed distinct.
- FetchSystem.SuccessIsOwnWholeBody: the page job's own network behaviour is any `Response`; a script that times out may still take effect later, at most once.
- DiskScan.Scan: sizes are unbounded naturals, so 64-bit overflow of totals is not modelled; exclude patterns are a flag on each child, and permission errors are not told apart from other failures.
- DiskWalk.ScanTopsAreExact: the offered entries carry the subtree totals of the visits made before them, so on a cancelled scan only the bound and the exactness of the cut are stated.
- SlackSanitizer.SanitizeResponse: the URL redaction of the browsersession package is a parameter that may return any text; browsersession's redactor is not part of this model.
- QueryParse.Parse: Go's `strconv.Unquote` is a parameter; the scanners run over characters where the code runs over bytes, which cannot differ because every character they react to is ASCII.
- FacadeList.List: it is given the request that `FacadeArguments.Plan` makes of a statement; depersonalisation, the cache file and the settle delay are not modelled; the advance script is an answer for each page.
- HeartbeatSystem.RunsInTime: file contents beyond the deadline, the first-outcome wait of Start, executables and launchctl's texts are not modelled; the supervisor may relaunch at any time while the job is loaded, and bootout ends the job.
- FacadeArguments.AdmittedIsPlain: an adapter is its field names, which of them are public, and its page bound; its other parts do not decide about a statement.
- StatementKey.AdmittedKeysDiffer: the cache file is named by a digest of the key, which is not part of this model.
- HeartbeatTiming.SteadyJobIsNeverStale: timers are exact and an attempt ends by its 10 s timeout; scheduling delays come on top.
- QueryText.QueryRoundTrip: double-quoted values are not written, because Go's unquoting is a parameter.
- Heartbeat `GarbageCollectExecutables`, `Restart` and migration states would only add easy members.
- Ecdsa.ParseSignature: Go's bound on lengths in memory is not modelled, and signature verification on the curve is out of scope.
- CleanupPlan.RevalidateCandidate: `stat` always succeeds on an entry that lstat found; the dangerous-roots decision is a flag; hashing, summing and writing plans would only add easy members.
- OutboundScan.CleanTextHidesNothing: URL and JSON parsing, the patterns, the decoders and the assignment scan are parameters of the recursion, of which only the parameters' answers matter; that the recursion ends on every input is the termination proof of `ScanText` itself, by remaining depth, function and remaining length. Nothing is claimed of a second scan at a smaller depth.
- OutboundDecode.DeriveNormalizedVariants: the hint patterns are parameters, and a text is the string of its bytes, each the character of that number.
- Command-line programs, Apple events, the VPN and firewall tools, caching, rendering and audio code are not modelled.
