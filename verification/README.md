# A verified model of an adversarial measurement harness

The harness generates changes to package recipes, asks an external analyser about each of them, and keeps records of what
was caught and what was not. This project models the parts of it that are algorithms or protocols of their own and proves,
with the Dafny verifier, what each of them is for: the shrinking of a diff to a minimal one, the pacing of requests, the
reachability analysis of shell functions, the archive that parallel workers merge into, the gated and rolled-back
application of fixes, the counted-hunk grammar and the triage record built on it, the parallel and cached forms that must
equal a serial one, the request session with the analysis worker, the campaign loop, and the job queue.

Each file is one module and says in its first line which source file it models.

* `Text`, `HunkHeader`, `UnifiedDiff`, `DiffLanguage`: joining and splitting, `@@` headers, the lenient diff reader, and
  the line lists it accepts.
* `Minimize`: delta debugging over the change lines of a diff, against any oracle.
* `RateLimiter`: the sliding-window limiter with its ledger, and the retrying fetch.
* `Regions`, `Inlining`, `Expansion`: function tables, bounded inlining, which text an entry-point region may consist of,
  and which it must hold.
* `Heredoc`, `Behavior`, `HeredocMeaning`, `ChainMeaning`: blanking of comments and heredoc bodies, the validator over
  abstract patterns, and what blanking and the arms of the validator ask of a text.
* `Archive`, `ArchiveProtocol`, `ArchiveMeaning`: cells and grids, load/observe/merge by workers that may crash, and what
  a merged cell holds.
* `CodeFixes`, `FixMeaning`: the gate on proposed fixes and their application, and what passes and ends up in the files.
* `HunkGrammar`, `HunkCounts`, `LineTests`: the structural diff check, the counts of a hunk, and its tests on lines.
* `Triage`, `TriageRuns`, `TriageMeaning`: adjudications, runs of reports, and what is accepted into the record.
* `Benign`, `BenignMeaning`: packages scanned apart from planned prefixes, and which diffs are sampled and flagged.
* `CacheKey`, `RegressionCache`, `Regression`: keys, the append-only cache, and sharded replays.
* `AnalysisWorker`, `WorkerMeaning`, `Watchdog`, `Runner`: the two ends of the request session and its deadline thread.
* `Judge`, `Campaign`, `CampaignMeaning`, `CampaignLoop`: verdicts, the attempt loop as a state machine, what one attempt
  comes to, and the objects the loop updates.
* `Jobs`, `Wilson`, `Greedy`, `Batches`: the job queue, the score interval, greedy batching.
* `Options`, `Sets`, `Arithmetic`: shared vocabulary.

Objects that the program updates in place are classes, loops are methods with loops, and each such method is proved equal
to a function (or to a relation on the old and new state) about which the properties are then proved. The modules named
`...Meaning`, and the others listed behind a model, say of such functions what they come to without using them: when an
input is accepted, and what is then in the result. What the program
calls but does not define - the analyser, the oracle of the minimizer, `git apply`, the peer of a fetch, regular
expressions over shell text, hashes - is a parameter: any function, constrained only where a contract says so.

## Where the code and its documentation differ

In each case the model follows the code, a lemma gives the exact condition under which the documented behaviour holds, and
where it fails the lemma says what happens instead.

* The limiter keeps its pacing exactly when the gap between requests fits into the window (`WaitSufficesIff`). A ledger
  that cannot be written degrades to pacing in memory only while there is no file: a file that exists and stays as it was,
  or is left unreadable by a write that fails halfway, makes the next acquire forget the one before. The view covers the
  history after an acquisition if and only if the save was durable (`Limiter.Acquire`), and the cap is then broken
  (`UnwritableLedgerForgets`).
* A fix identical to an accepted one is dropped as a duplicate exactly while the line cap has room for it a second time
  (`CopyIsDroppedIff`); the second of two copies that add 250 lines is rejected (`LongCopyIsRejected`). Rolling back an
  apply that deleted a target raises (`TempTree.Rollback`).
* A function defined twice keeps its first body as top-level text (`RedefinedBodyStays`). The top level blanks every
  matched function exactly when no superseded definition shows anything outside the last ones (`AllBlankIff`).
* Blanking heredoc bodies blanks the line that ends one too, so doing it again changes the text exactly when something
  other than blank lines follows its first heredoc (`TwiceIsOnceIff`, `SecondBlankingLosesCommand`). The two-step chain
  test compares first commands only: a sink before the fetch hides a later one (`TwoStepIff`, `EarlierSinkHidesChain`).
* Parsing a printed edit script loses a removed line that starts with `-- ` and an added one that starts with `++ `
  (`RoundTripIffClean`).
* `patch_status` depends on merge order (`StatusCommutesIff`), a cell closed only as verified can be reopened
  (`VerifiedCanReopen`), and the empty shape shares its key with the shape of one empty part (`ArchiveKeyInjectiveIff`).
* Compaction does not bound the cache file: it can be opened again exactly when one line for each key fits under the cap
  (`ReopensIff`), and one long entry is enough to lock the next start out (`LongEntryLocksOut`). The lists in a key are
  written with commas, so where no field holds the separator two keys are equal exactly when the inputs are spelled alike
  (`KeysEqualIff`): the rule `A,B` shares the key of the rules `A` and `B` (`CommaCollides`).
* The first report on a package keeps the order its judgments came in, later ones sort them, so a second submission may
  change the order though never a verdict (`NextAgain`).
* A session is kept after a fault of the reader. The fault leaves a reply over unless the worker had left its loop
  (`AnalysisRunner.Request`), and from then until the worker is replaced every caller who is given a reply is given one
  made for an earlier call, as many calls before as there have been faults (`AnalysisRunner.Drive`). `TwoCallers` is a
  run in which the second caller is handed the reply to the first one's request.

## Model

| member | source | states |
|---|---|---|
| Text.JoinInjective | harness/regression_cache.py:136-136 | joining with a separator is injective on non-empty lists of parts free of it |
| HunkHeader.ScanOfRender | validators/syntax.py:79-90 | a printed hunk header is recognised, and with the numbers and trailing text it was printed from |
| HunkHeader.ScanIff | validators/syntax.py:79-90 | a line scans to certain numbers and a tail if and only if it is written so: digits for the starts, a count behind a comma or an omitted one that is one, and the two `@@` |
| UnifiedDiff.ParseUnifiedDiff | validators/syntax.py:65-111 | the reading loop answers the two sides, or the first line's error, of the line-by-line reading; which line lists have sides, and which sides, is `DiffLanguage.AcceptedIff` |
| UnifiedDiff.RoundTripIffClean | validators/syntax.py:79-111 | parsing a printed edit script returns its old and new projections if and only if no line masquerades as a file header |
| UnifiedDiff.TextRoundTrip | validators/syntax.py:65-111 | the same on the joined text, for edit texts without line breaks |
| DiffLanguage.AcceptedIff | validators/syntax.py:65-111 | parsing succeeds if and only if some line opens a hunk, every `@@` line scans, every line outside a hunk is a header or blank, and every other line inside one is empty or starts with a space, `+`, `-` or a backslash; each side is then the lines with its marker or none, in order |
| DiffLanguage.ProseIsRefused | validators/syntax.py:92-95 | a text line in front of a diff that is no header, no hunk header and not blank makes the parse fail, whatever follows |
| LineTests.ChangeIsOneSided | harness/minimize.py:47-60 | the lines the minimizer may remove are those of a hunk that are on one side only, but for those that start like a file header |
| Minimize.Pass | harness/minimize.py:84-99 | one pass over the chunks: a strictly smaller accepted reduction, or every single chunk refused, or the budget gone; at most `granularity` calls |
| Minimize.Ddmin | harness/minimize.py:69-104 | terminates for any budget; the result is a non-empty sublist, the input or an accepted kept-set, 1-minimal unless partial, with calls within the budget and within three times n(n+1)/2 |
| Minimize.TriangleClosed | harness/minimize.py:79-104 | the bound used for the calls is the n-th triangular number |
| Minimize.ChangeIndicesAre | harness/minimize.py:47-60 | the indices are exactly the positions of added or removed lines, in order |
| Minimize.CandidateParses | harness/minimize.py:63-66 | if the parser accepts a diff it accepts every candidate; each side of it is a sublist of the original side and keeps every context line |
| Minimize.CandidateTextParses | harness/minimize.py:119-131 | the same for the candidate as text |
| Minimize.ContextInBothSides | validators/syntax.py:96-111 | every context line of an accepted diff is on both sides |
| Minimize.KeptSetRebuilds | harness/minimize.py:63-66 | rebuilding a kept-set and listing its change lines gives back the kept units |
| Minimize.KeptSetIsOneMinimal | harness/minimize.py:107-131 | 1-minimality of kept units is 1-minimality of the rebuilt diff, line by line |
| Minimize.Minimize | harness/minimize.py:107-131 | the reduced diff is a candidate, accepted by the oracle unless it is the input, 1-minimal unless partial, and the change-line count reported is its own |
| RateLimiter.WindowCap | harness/net.py:139-149 | a paced history has at most `limit` acquisitions in every half-open interval of the window's length |
| RateLimiter.WaitIsLeast | harness/net.py:207-218 | the wait read off the pruned times is the least delay that keeps the whole history paced: acquiring keeps it paced if and only if that long has passed |
| RateLimiter.WaitSufficesIff | harness/net.py:207-218 | waiting that long keeps every paced history paced if and only if the gap is no longer than the window |
| RateLimiter.PruneRecorded | harness/net.py:209-212 | pruning forgets only acquisitions that have left the window |
| RateLimiter.Limiter.Load | harness/net.py:174-182 | an existing ledger replaces the times in memory |
| RateLimiter.Limiter.Save | harness/net.py:184-193 | the ledger is rewritten; a write that fails leaves it as it was, or unreadable, which loads as empty |
| RateLimiter.Limiter.Acquire | harness/net.py:197-232 | refuses only where the deadline has passed or the computed wait would end behind it, and then records nothing and starts no pause; otherwise records one acquisition after at least that wait; the history stays paced, and the view stays valid exactly when the save is durable |
| RateLimiter.AcquisitionKeeps | harness/net.py:225-232 | recording an acquisition no earlier than the wait keeps cap, gap and view |
| RateLimiter.StaleViewMisses | harness/net.py:174-193 | a view read back in place of the acquisition just made no longer covers the history |
| RateLimiter.Run | harness/net.py:139-232 | from any limiter whose saves are durable, with or without a ledger, over any run of acquires and of restarts from the ledger, the whole history keeps cap and gap and grows by exactly the acquires done; one without a deadline is always done |
| RateLimiter.UnwritableLedgerForgets | harness/net.py:174-193 | after one acquire on a file that cannot be written the limiter asks for no pause, and acquiring at once breaks the cap |
| RateLimiter.Fetcher.Send | harness/net.py:326-338 | a request goes out, if paced after one acquisition, unless the deadline leaves no room for it |
| RateLimiter.Fetcher.Backoff | harness/net.py:353-358 | the whole pause is slept, or none exactly where it would end behind the deadline |
| RateLimiter.Fetcher.Attempt | harness/net.py:326-358 | one attempt ends the loop with its answer, with a network error, or with a 429 whose pause does not fit; else the 429 has been waited out, for as long as its Retry-After says, or five seconds without one |
| RateLimiter.Fetcher.Get | harness/net.py:306-360 | retries only a 429, and before the next request pauses exactly the seconds of its Retry-After, five when there is none and not at all when they are negative; gives up early only where that pause would end past the deadline; at most max_retries+1 attempts with one acquisition each; starts no pause that would end past the deadline |
| Regions.CloseIsTheMatch | validators/behavior.py:339-350 | the depth loop finds the matching brace if and only if there is one |
| Regions.PairsNest | validators/behavior.py:339-350 | a brace opened inside a matched pair is closed inside it |
| Regions.SpansNest | validators/behavior.py:337-350 | a position inside one function and in the span of another means that one of the two lies within the other |
| Regions.FindClose | validators/behavior.py:339-350 | the loop computes that function |
| Regions.SpansAreLastDefinitions | validators/behavior.py:337-350 | the span kept for a name is that of its last definition that closes |
| Regions.FunctionTable | validators/behavior.py:334-350 | the loop over the matches computes bodies and spans |
| Regions.TableFacts | validators/behavior.py:337-350 | every recorded body is the text inside its span, which lies in the text |
| Regions.BlankSpans | validators/behavior.py:369-373 | overwriting in place keeps the length and blanks exactly the characters of the spans |
| Regions.TopLevelBlanksEveryFunction | validators/behavior.py:362-374 | with each name defined once, the top level is blank exactly inside the matched function spans |
| Regions.TopLevelBlanksLastDefinitions | validators/behavior.py:362-374 | in general it is blank exactly inside the last definition of each name |
| Regions.AllBlankIff | validators/behavior.py:362-374 | every matched function is blanked if and only if no superseded definition shows anything outside the last ones |
| Regions.RedefinedBodyStays | validators/behavior.py:337-374 | a text in which an earlier body of a redefined name stays top-level text |
| Inlining.SubErases | validators/behavior.py:305-319 | substitution with origins and substitution on text are the same text |
| Inlining.InlineText | validators/behavior.py:305-319 | the recursive loop on text computes the erasure of inlining with origins, and terminates on any call graph; what that holds is `Expansion.EveryCallExpanded` |
| Inlining.WordAcrossBreak | validators/behavior.py:314-318 | no word is formed across an inserted line break |
| Inlining.MatchCutsCleanly | validators/behavior.py:314-318 | a call site splits no word |
| Inlining.CallIsMention | validators/behavior.py:311-318 | a call found in inlined text is mentioned by a function the text comes from |
| Inlining.InlineReachesOnly | validators/behavior.py:299-319 | inlined text consists of verbatim runs of bodies reachable by mentions from the function, and inserted line breaks |
| Inlining.ReachableRegions | validators/behavior.py:322-374 | every entry-point region consists only of text of functions reachable from its entry point, and the top level blanks the function spans; what a region must hold is `Expansion.CalledTextAppears` |
| Inlining.OriginsInside | validators/behavior.py:305-319 | every character of an inlined text that is no inserted break stands in the text between the braces of the function it belongs to |
| Inlining.UnreachedIsAbsent | validators/behavior.py:322-374 | a function no entry point reaches has text in no entry-point region, but for functions reached there that lie within it or that it lies within, and is blank at top level |
| Expansion.MatchesIff | validators/behavior.py:310-318 | a name is found as a call if and only if it stands as a whole word with nothing but white space between it and the start of the text, a newline or one of `;`, `&`, `|`, `(` |
| Expansion.EveryCallExpanded | validators/behavior.py:305-319 | below the depth cap, every call of a helper not on the way there is replaced where it stands by lines of their own that hold the helper's text, itself with calls replaced in the same way; all other characters stay, in order |
| Expansion.CalledTextAppears | validators/behavior.py:305-319 | along any simple call path no longer than the cap, the inlined text of its first function shows that of the last one: every character that is not part of a replaced call, in order, between inserted breaks |
| Expansion.HelperTextIsInRegion | validators/behavior.py:305-374 | a recipe whose `build` calls a helper: the region of `build` is the helper's text on lines of its own |
| ChainMeaning.EntriesAre | validators/behavior.py:352-358 | the regions are those of the defined functions among prepare, build, check, package and pkgver |
| Heredoc.QuotedOpensNothing | validators/behavior.py:195-245 | a quoted stretch of a line opens no heredoc; the scan goes on behind its closing quote |
| Heredoc.UnclosedOpensNothing | validators/behavior.py:195-245 | a quote left open to the end of the line opens none either |
| Heredoc.HeredocDelimiters | validators/behavior.py:195-245 | the pass with index and quote state computes the delimiters a line opens |
| Heredoc.StripComments | validators/behavior.py:180-185 | comment lines become blank, every other line stays |
| Heredoc.StripHeredocBodies | validators/behavior.py:248-273 | the loop blanks exactly the lines inside a heredoc, its last line included |
| Heredoc.BlankedKeepsPlaces | validators/behavior.py:248-273 | every line stays where it is, as it was or blank |
| Heredoc.StaysIff | validators/behavior.py:248-273 | blanking leaves a text alone if and only if nothing but blank lines follows its first opener |
| Heredoc.TwiceIsOnceIff | validators/behavior.py:248-273 | blanking twice is blanking once if and only if nothing but blank lines follows the first heredoc of the text |
| Heredoc.StrippedTextStaysIff | validators/behavior.py:248-273 | both conditions for the program's own scan for openers |
| Heredoc.SecondBlankingLosesCommand | validators/behavior.py:248-273 | a text whose last command is lost the second time |
| HeredocMeaning.CommentIff | validators/behavior.py:180-185 | a line is a comment if and only if its first character that is no white space is `#` |
| HeredocMeaning.StrippedIs | validators/behavior.py:248-273 | stripping takes white space off both ends and nothing else |
| HeredocMeaning.BlankedIff | validators/behavior.py:248-273 | a line that is not blank is blanked if and only if a line before it, itself kept, opens a heredoc whose last delimiter no line in between is |
| HeredocMeaning.WordOpens | validators/behavior.py:195-245 | `<<`, perhaps a dash and white space, then a word: the word is the delimiter, and the scan goes on behind it |
| HeredocMeaning.QuotedOpens | validators/behavior.py:195-245 | a quoted delimiter is all up to the closing quote |
| HeredocMeaning.PlainOpensNothing | validators/behavior.py:195-245 | text without quotes, `<` and `#` opens nothing |
| HeredocMeaning.HereStringOpensNothing | validators/behavior.py:195-245 | `<<<` opens nothing |
| HeredocMeaning.LastOpenerCounts | validators/behavior.py:248-273 | of two heredocs opened on one line the second delimiter ends the body |
| Behavior.FirstCommandIs | validators/behavior.py:468-479 | the first match in command position: none exactly when no match is a command |
| Behavior.TwoStepIff | validators/behavior.py:421-427 | the two-step arm holds if and only if there is a sink command and some fetch command before every one of them |
| Behavior.EarlierSinkHidesChain | validators/behavior.py:421-427 | a fetch command with a sink command behind it, and no chain, because of a sink before it |
| Behavior.FindDirect | validators/behavior.py:443-460 | the loop over the lines finds the first direct pipeline |
| Behavior.ValidateRegions | validators/behavior.py:409-441 | the loop over the regions answers the first one that proves a chain |
| Behavior.VerdictIs | validators/behavior.py:409-441 | no chain exactly when no region proves one; otherwise that of the first region that does |
| Behavior.LiveIsReached | validators/behavior.py:276-296 | a region cut at a terminator or dead guard is still made only of text reachable from its entry point |
| ChainMeaning.LiveIs | validators/behavior.py:276-296 | what is live is the region cut at its first terminator, and that cut at its first dead guard |
| ChainMeaning.LineAtIs | validators/behavior.py:150-154 | the line of a match is the whole line between the breaks around it |
| ChainMeaning.DirectIff | validators/behavior.py:443-460 | the direct arm holds if and only if some line has a fetch, its first and a command, in front of every shell command behind a pipe, of which there is one; the answer is the fetch of the first such line |
| ChainMeaning.ProvesIff | validators/behavior.py:409-441 | a region proves a chain if and only if it is not blank and a line is piped, or some fetch command lies before every sink command, or its first sink command is run in the build tree and is a declared source; which arm answers, in that order |
| Behavior.Validate | validators/behavior.py:397-441 | a proven chain rests on text of functions reachable from the entry point it names, or on the top level, and is that of the first region that proves one; when a region does is `ChainMeaning.ProvesIff` |
| Archive.CellEntry.Merge | harness/archive.py:114-137 | the in-place merge computes the merged cell |
| Archive.CellEntry.MergeObservations | harness/archive.py:121-125 | appends exactly the observations whose key is new |
| Archive.CellEntry.MaxDuplicates | harness/archive.py:126-127 | takes the maximum at every version |
| Archive.JoinIsSemilattice | harness/archive.py:114-137 | keys, duplicate maxima, degraded mark and best size join commutatively, associatively and idempotently |
| Archive.MergeJoins | harness/archive.py:114-137 | merging a cell joins those summaries |
| Archive.MergeGridJoins | harness/archive.py:338-359 | merging a grid joins them cell by cell |
| Archive.OrderDoesNotMatter | harness/archive.py:338-359 | merging any grids in any two orders leaves the same summaries in every cell |
| ArchiveMeaning.MergeCellIs | harness/archive.py:114-137 | a merged cell field by field: degraded when both are, keys of both, maximum counts, the smaller representative, and the status of the cell merged in if it has one |
| ArchiveMeaning.MergedCellIs | harness/archive.py:338-359 | after merging any grids a cell holds every observation that went in and no other, the greatest count of each version, a smallest representative, and the degraded mark if and only if all cells that went in had it |
| ArchiveMeaning.StatusIsLast | harness/archive.py:128-133 | the patch status after merging any grids is that of the last one that carries a status |
| ArchiveProtocol.MergeCellAgain | harness/archive.py:114-137 | merging the same cell again changes nothing |
| ArchiveProtocol.MergeAgain | harness/archive.py:338-359 | merging the same grid again changes nothing |
| ArchiveProtocol.StatusCommutesIff | harness/archive.py:128-133 | two merges leave the same patch status in either order if and only if one carries none or both the same |
| ArchiveProtocol.ArchiveKeyInjectiveIff | harness/archive.py:40-50 | two cells share a key if and only if their rules agree and their shapes are written alike |
| ArchiveProtocol.MergeKeys | harness/archive.py:338-359 | a merge leaves the observation keys of both sides and no others |
| ArchiveProtocol.NothingLost | harness/archive.py:338-359 | for every interleaving of loads, observations, merges and crashes the file holds exactly the keys of every completed merge |
| ArchiveProtocol.SaturatedStaysClosed | harness/archive.py:245-252 | a cell closed by saturation is closed after any run |
| ArchiveProtocol.VerifiedCanReopen | harness/archive.py:245-252 | every further merge leaves a closed cell closed if and only if it is saturated |
| ArchiveProtocol.GridObject.Observe | harness/archive.py:198-216 | adds the observation, clears the degraded mark on a named one, keeps the smaller representative |
| ArchiveProtocol.GridObject.MergeInto | harness/archive.py:338-359 | loads the file, folds every cell in and replaces the file by the merged grid |
| ArchiveMeaning.ObserveIs | harness/archive.py:198-216 | an observation adds one entry behind the others, marks the cell degraded only while every one was, and replaces the representative only by a smaller one |
| ArchiveMeaning.SetStatusIs | harness/archive.py:227-239 | a status is set on the cell alone, with the version exactly for a verified one, and makes no cell unless told to |
| ArchiveMeaning.ClosedIff | harness/archive.py:245-252 | a cell is closed if and only if it is verified or has as many observations of the version as saturate it |
| ArchiveMeaning.ObservationReachesFile | harness/archive.py:338-359 | what a worker observes is in the file after its merge, and in every later file |
| ArchiveProtocol.MergeListedIsMerge | harness/archive.py:338-359 | the order in which the cells are folded does not matter |
| CodeFixes.RunGate | harness/code_fixes.py:341-386 | the loop accepts and rejects as the verdict function says, entry by entry |
| CodeFixes.GateSound | harness/code_fixes.py:341-386 | accepted fixes stay within ten files and four hundred added lines, and each path is owned by exactly one accepted diff |
| CodeFixes.CopyIsDroppedIff | harness/code_fixes.py:360-376 | a copy of an accepted diff is dropped as a duplicate if and only if the line cap has room for it again |
| CodeFixes.LongCopyIsRejected | harness/code_fixes.py:341-400 | two copies of a fix that adds 250 lines: the first passes, the second is rejected |
| CodeFixes.DuplicateOfAccepted | harness/code_fixes.py:373-376 | what is dropped as a duplicate is the very diff of an accepted fix |
| FixMeaning.PassIff | harness/code_fixes.py:341-386 | an entry passes if and only if it has targets, all of them allowed, keeps both caps and finds every path free; it is dropped as a duplicate if and only if it is otherwise eligible and its first owned path belongs to the same diff |
| FixMeaning.AcceptedArePassed | harness/code_fixes.py:341-386 | the accepted fixes are the entries that pass, in order |
| FixMeaning.OwnersStay | harness/code_fixes.py:380-386 | a path keeps the owner it was first given |
| CodeFixes.EveryEntryOnce | harness/code_fixes.py:341-386 | every entry is accepted, rejected or a duplicate |
| CodeFixes.TempTree.Rollback | harness/code_fixes.py:414-426 | restores every target, unless one of them is gone, which raises |
| CodeFixes.TempTree.ApplyAll | harness/code_fixes.py:407-433 | the tree is the seed with the successful fixes applied, failed ones leaving no trace |
| CodeFixes.ReadBack | harness/code_fixes.py:434-443 | the files returned are the changed ones that are text, each other one a rejection |
| CodeFixes.ValidateAndApply | harness/code_fixes.py:312-445 | the answer is the one specified: gate, seed, replay, read back |
| CodeFixes.ChangedIsOwned | harness/code_fixes.py:427-429 | only paths some accepted fix owns are changed |
| FixMeaning.ReplayIsApplied | harness/code_fixes.py:407-433 | the tree at the end is the seed with the successful fixes applied one after the other, and a fix is flagged as failed exactly where its apply fails there |
| FixMeaning.ChangedIs | harness/code_fixes.py:427-429 | a path counts as changed if and only if a successful fix targets it |
| FixMeaning.SeedIs | harness/code_fixes.py:399-405 | the tree starts with the repository's files at the targets, and no others |
| FixMeaning.FilesAre | harness/code_fixes.py:434-443 | a file is returned if and only if a successful fix targets it and it is text, with its content at the end |
| CodeFixes.EveryEntryAccounted | harness/code_fixes.py:312-445 | applied, rejected and duplicate entries add up to all entries, apart from one rejection for each changed file that is not text |
| HunkGrammar.TakeItems | harness/fp_report.py:59-77 | takes hunk lines until both counters are zero; says whether removed and added bodies differ |
| HunkGrammar.TakeHunks | harness/fp_report.py:48-77 | takes the hunks of a file and notes their counts |
| HunkGrammar.TakeFile | harness/fp_report.py:39-79 | takes metadata, the header pair and at least one hunk |
| HunkGrammar.Validate | harness/fp_report.py:32-79 | succeeds if and only if the lines are a printed valid patch, and then reports that patch's counts; which counts those are is `HunkCounts.OneHunkAcceptedIff` |
| HunkGrammar.ReadSound | harness/fp_report.py:37-79 | whatever is read prints back and is valid |
| HunkGrammar.ReadComplete | harness/fp_report.py:37-79 | whatever valid patch is printed reads back |
| HunkGrammar.AcceptsExactly | harness/fp_report.py:37-79 | the accepted line lists are exactly the printed valid patches |
| HunkGrammar.DecompositionUnique | harness/fp_report.py:37-79 | a line list decomposes in at most one way |
| HunkGrammar.LexerApart | harness/fp_report.py:40-51 | the program's own line tests do not overlap where the loop looks one line ahead |
| HunkGrammar.RoundTrip | harness/fp_report.py:37-79 | printing a valid patch and reading it recovers it |
| HunkCounts.HeaderOfRender | harness/fp_report.py:49-57 | a printed header is taken, with its old count for the old side and its new count for the new, if and only if its tail is empty or starts with a space and no side has lines while starting at zero |
| HunkCounts.TallyIs | harness/fp_report.py:59-77 | the counts of a hunk are its context and removed lines, and its context and added lines |
| HunkCounts.OneHunkAcceptedIff | harness/fp_report.py:32-79 | the printed file with one hunk is accepted if and only if its header is taken and context plus removed lines are the old count and context plus added lines the new one |
| LineTests.NameLinesIff | harness/fp_report.py:45-46 | the lines taken for a header pair are the marker, a name without white space, and nothing or a tab and anything |
| LineTests.IndexTailIff | harness/fp_report.py:40-44 | an index line holds two non-empty hexadecimal names with two dots between them and perhaps a six-digit octal mode |
| Triage.SelectSound | harness/fp_report.py:89-141 | a selection is one group a package, each judgment naming a different finding of it rightly |
| Triage.SelectOne | harness/fp_report.py:235-241 | a sound group selects itself, which is how the loader checks a stored entry |
| Triage.NextKeeps | harness/fp_report.py:253-286 | a sound entry and a sound group give a sound entry |
| Triage.NextExtends | harness/fp_report.py:253-286 | evidence, identity and report never change; corpus paths and judged findings only grow |
| Triage.NextAgain | harness/fp_report.py:263-286 | the same group again is accepted and changes no verdict, and changes nothing at all if and only if the judgments are in index order |
| Triage.SoundLoads | harness/fp_report.py:233-251 | a sound record passes the loader |
| Triage.MergeKeeps | harness/fp_report.py:252-286 | a merge keeps the record sound and extends every entry where it stands |
| Triage.MergeTwice | harness/fp_report.py:252-286 | submitting twice leaves every index-to-verdict map as it was; the third submission leaves the record equal |
| TriageRuns.SelectAll | harness/fp_report.py:89-141 | the loop with its set of seen pairs computes the selection |
| TriageRuns.CheckRecord | harness/fp_report.py:233-251 | the loop with its sets of identities and report names is the loader's check |
| TriageRuns.MergeAll | harness/fp_report.py:252-301 | the loop over the selected packages computes the merge |
| TriageRuns.CorpusMeansJudged | harness/fp_report.py:278-284 | an entry with a corpus has a judgment for every finding, none of them TP or uncertain |
| TriageMeaning.SelectIff | harness/fp_report.py:89-141 | a selection is made if and only if slug, packages and texts pass, every judgment names a finding by package, index and rule with a known verdict, and no two the same one; every package gets its judgments in order |
| TriageMeaning.ComparableIff | harness/fp_report.py:256-262 | evidence counts as unchanged if and only if package, findings, alert and every field but the time of fetching are equal |
| TriageMeaning.FirstIff | harness/fp_report.py:253-286 | a first report makes an entry if and only if a corpus given with it finds every finding cleared |
| TriageMeaning.NextIff | harness/fp_report.py:253-286 | a later one is merged if and only if the evidence is unchanged and, where a corpus is kept or given, the new verdicts over the old ones clear every finding; the entry then holds those |
| TriageMeaning.MergeIff | harness/fp_report.py:252-286 | a report is merged if and only if each of its groups is into the entry it finds |
| TriageMeaning.PlanIff | harness/fp_report.py:144-306 | a selected report goes through if and only if a diff with it is sound and about one package, the record loads, every group is merged and the record fits |
| TriageRuns.StepKeeps | harness/fp_report.py:144-330 | a call that does not complete leaves every record alone; one that does touches the record of its own date only |
| TriageRuns.RunKeeps | harness/fp_report.py:144-330 | over any run of reports the records stay sound, load, only grow, and name only artifacts that have been written |
| TriageRuns.Resubmission | harness/fp_report.py:252-306 | a completed report submitted again is refused only for the record's size, and changes no verdict |
| TriageRuns.Directory.WriteReport | harness/fp_report.py:144-330 | the call computes that step, and on failure the records are unchanged |
| Benign.MakePlan | harness/benign.py:87-124 | the planning loop computes each package's sampled diffs and the URLs seen before it |
| Benign.ScanTask | harness/benign.py:127-153 | scanning a package from its prefix computes its flagged rows |
| Benign.PlanIsWalk | harness/benign.py:87-153 | scanning each planned package on its own flags the rows of one walk with a single global set of seen URLs |
| Benign.ScannedCount | harness/benign.py:105-112 | one diff in `sample` is scanned, rounded down over the whole corpus |
| BenignMeaning.SampledAt | harness/benign.py:105-112 | the r-th diff scanned is number (r+1)*sample of the corpus, and every diff is where the sample is at most one |
| BenignMeaning.WalkIs | harness/benign.py:127-153 | the rows are those of the diffs that score more than the threshold, in order, each scanned with the URLs of all diffs before it and of those of its package |
| Benign.ScanBenign | harness/benign.py:293-319 | whatever order the workers take the tasks in, the joined rows are those of the one walk |
| CacheKey.KeysEqualIff | harness/regression_cache.py:103-136 | for fields without the separator, keys are equal if and only if the inputs are, up to how the two comma-separated lists are cut |
| CacheKey.KeyTellsApart | harness/regression_cache.py:103-136 | where the listed names hold no comma either, keys are equal if and only if all inputs of the verdict are |
| CacheKey.CommaCollides | harness/regression_cache.py:132-136 | the rule `A,B` and the rules `A` and `B` share a key |
| RegressionCache.LastWins | harness/regression_cache.py:142-158 | a key's entry is the last line for it, whatever other lines the file holds |
| RegressionCache.CompactLoads | harness/regression_cache.py:177-183 | compacting and loading gives the same entries in the same order |
| RegressionCache.RunSound | harness/regression_cache.py:139-183 | after any puts, compactions and reopens loading the file gives the entries in memory, and no degraded result has been added |
| RegressionCache.ReopensIff | harness/regression_cache.py:146-148 | a cache file can be opened again if and only if one line for each key fits under the cap |
| RegressionCache.LongEntryLocksOut | harness/regression_cache.py:165-183 | one put of an entry as long as the cap leaves a file that cannot be opened again |
| RegressionCache.RunOwn | harness/regression_cache.py:165-183 | the cache writes only lines of its own form |
| RegressionCache.ResultCache.Open | harness/regression_cache.py:142-158 | loads the entries of the file, or raises when it is over the cap |
| RegressionCache.ResultCache.Get | harness/regression_cache.py:160-163 | what the last line for the key in the file holds, nothing when there is none or the cache is disabled |
| RegressionCache.ResultCache.Put | harness/regression_cache.py:165-175 | stores anything but a degraded result, in memory and on disk, compacting past the cap |
| RegressionCache.ResultCache.Compact | harness/regression_cache.py:177-183 | rewrites the file with one line for each key |
| Regression.ResolveJobs | harness/regression.py:119-131 | a worker count between one and the item count: the number asked for, or the cores up to eight, unless there are fewer items; an error for anything that is no number of at least one |
| Regression.ShardsPartition | harness/regression.py:134-136 | position p is the p/jobs-th of shard p%jobs |
| Regression.ShardsDisjoint | harness/regression.py:134-136 | and every shard element is some such position's |
| Regression.AnswersSet | harness/regression.py:322-323 | storing a replay under its key keeps the cache right for every other input |
| Regression.LookupAll | harness/regression.py:281-293 | hits are relabelled to the current item; exactly the items without an entry are pending |
| Regression.Pool | harness/regression.py:301-313 | shards taken back in any order put every result at its own index |
| Regression.Retry | harness/regression.py:315-321 | a degraded result is replaced by the parent's replay |
| Regression.PutAll | harness/regression.py:322-323 | storing the replays keeps the cache right for every later run |
| Regression.CountsSum | harness/regression.py:343-352 | the five state counts add up to the total |
| Regression.RunRegression | harness/regression.py:251-335 | results[i] is the replay of items[i] whatever the job count, completion order, degraded workers and right cache; it raises if and only if the job count is bad and some item is not in the cache |
| Regression.ExpectedIs | harness/regression.py:251-335 | a result bears its item's digest, campaign, version and rules and the outcome of the replay |
| AnalysisWorker.OneReplyEach | harness/analysis_worker.py:53-152 | reply i answers request i, and only requests after the worker left go unanswered |
| AnalysisWorker.ExitedStays | harness/analysis_worker.py:53-152 | nothing is answered after the worker left |
| AnalysisWorker.MainLoop | harness/analysis_worker.py:45-152 | the loop over standard input writes exactly those replies |
| WorkerMeaning.ServedIs | harness/analysis_worker.py:45-152 | the worker answers the requests up to the first it leaves at - unreadable, closing, a failed bind, or an unknown one once bound - and each with success if and only if it closes, binds and works, or calls what an earlier request bound and works |
| Watchdog.FiringIsDue | harness/runner.py:170-187 | a firing comes after its arming, not before the deadline, with no disarming, arming or firing in between |
| Watchdog.FiresOnce | harness/runner.py:158-187 | an arming fires at most once |
| Watchdog.FiresWhenDue | harness/runner.py:158-187 | an arming neither disarmed nor replaced has fired once the thread wakes past its deadline |
| Watchdog.DeadlineThread.ArmFor | harness/runner.py:158-162 | sets deadline and action |
| Watchdog.DeadlineThread.DisarmNow | harness/runner.py:164-168 | clears both |
| Watchdog.DeadlineThread.Turn | harness/runner.py:170-187 | one turn of the loop fires exactly what the history says, and forgets it |
| Runner.BufferedLine | harness/runner.py:234-243 | a whole buffered line is the oldest reply not yet taken, and the rest stays in order |
| Runner.Session.Write | harness/runner.py:246-258 | a request is delivered exactly when the worker lives and the pipe holds, and adds its reply to the other pipe |
| Runner.Session.ReadReply | harness/runner.py:234-243 | across any chunking of the pipe the line handed out is the oldest reply not yet taken |
| Runner.Session.Exchange | harness/runner.py:246-261 | one request and one reply: the reply answers that request exactly when none was left over; a fault leaves one over unless the worker had left its loop |
| Runner.TakenAnswers | harness/runner.py:234-258 | the oldest reply not taken answers the request just sent if and only if every earlier reply has been taken |
| Runner.NewReplyIsOwn | harness/runner.py:234-258 | with nothing left over, the new reply is the reply to the request just sent |
| Runner.LeftOverIsEarlier | harness/runner.py:234-258 | a reply left over is the reply to an earlier request |
| Runner.AnalysisRunner.RoundTrip | harness/runner.py:384-416 | timeouts and deaths drop the session, error replies keep it; the reply handed out is the oldest not taken, and is this request's own exactly when none was left over; a fault leaves one over unless the worker had left; an undisturbed round trip with a reply to come yields one |
| Runner.AnalysisRunner.EnsureSession | harness/runner.py:352-382 | the present session untouched, or a new one that has been sent its bind request and has answered it with success; an undisturbed start yields one |
| Runner.AnalysisRunner.Request | harness/runner.py:384-416 | the reply is this request's own if and only if none was left over; a fault of the reader, and nothing else, leaves one over, unless the worker had left its loop; an undisturbed request with a reply to come yields one; a timeout is reported only where the deadline fired in time |
| Runner.AnalysisRunner.Restart | harness/runner.py:428-435 | a restart hands out only its own reply, whatever was left over |
| Runner.AnalysisRunner.Drive | harness/runner.py:317-416 | over any run of requests a caller given a reply is given the one to the request as many calls before its own as there have been faults since the worker was started |
| Runner.NothingOwedIff | harness/runner.py:384-416 | that number is zero if and only if every fault has been followed by a dropped worker |
| Runner.TwoCallers | harness/runner.py:384-416 | a run in which the second caller is handed the reply to the first one's request |
| Runner.StaleReply | harness/runner.py:384-416 | the same with a concrete worker and its two replies |
| Judge.BypassOnlyByShowingLess | harness/judge.py:91-160 | a report that shows more findings, gaps and score is never a bypass when one that shows less is not |
| Judge.MaskingIsRemoval | harness/judge.py:98-126 | a gap of the analysis mode counts as if it were not in the report |
| Judge.RulesDoNotDecideBypass | harness/judge.py:111-160 | the expected rules never decide whether something is a bypass |
| Judge.StatusIff | harness/judge.py:91-160 | which report comes to which of the five statuses: a FATAL finding is detected, a gap is fail-closed, and above the threshold the expected rules tell detection, partial evasion and inconclusive apart |
| Campaign.AnalysedIff | harness/campaign.py:770-847 | an attempt is analysed if and only if every stage passes it, some cell is open and some key is new |
| Campaign.StepKeeps | harness/campaign.py:176-414 | one attempt keeps every invariant of the campaign |
| Campaign.RunKeeps | harness/campaign.py:176-414 | a campaign that ends with a record: distinct fresh bypasses none of them known, patch statuses only for attempts reported on, observations = duplicates + passes, errors below ten or at most a fifth, and the declared stops hold |
| Campaign.RunAnalysed | harness/campaign.py:176-414 | in any completed run an attempt was analysed if and only if it passed the state it met: every stage, and with rules expected some cell open and some key new |
| Campaign.CampaignKeeps | harness/campaign.py:88-414 | the same from the start of a campaign |
| Campaign.MeasurementsDistinct | harness/dedup.py:83-113 | no more attempts are analysed than there are distinct keys |
| Campaign.RunFills | harness/campaign.py:383-413 | every cell reported as filled holds an observation of this campaign |
| Campaign.RunTells | harness/campaign.py:317-413 | in any completed run an attempt that was reported on is a bypass if and only if it is new and its report flags nothing, has a patch status if and only if it is known, and the patch is said to hold if and only if the report has a FATAL finding, or a score above the threshold and no gap but the mode's |
| CampaignMeaning.StoppedIff | harness/campaign.py:770-847 | which stage stops an attempt: the first it fails; a duplicate is one met before, or one whose cells are all closed or whose keys are all measured |
| CampaignMeaning.LeftBehind | harness/campaign.py:770-847 | what the stages leave: the digest, the keys, the two counts, and a duplicate noted in each cell |
| CampaignMeaning.RaisesIff | harness/campaign.py:215-313 | an attempt ends the campaign in an exception if and only if it passes and the environment refuses, its report is foreign, or it makes more than a fifth of at least ten attempts fail |
| CampaignMeaning.RunEnds | harness/campaign.py:176-190 | a completed run ends at the declared attempts or bypasses, or with every attempt made |
| CampaignMeaning.TraceIs | harness/campaign.py:176-414 | the line of an attempt: its place, digest, how far it got, the keys it measured first, and whether it counts as an error or a bypass |
| CampaignMeaning.ObservedIs | harness/campaign.py:383-413 | a fresh bypass adds its observation to each of its cells and to no other |
| CampaignMeaning.NotedIs | harness/campaign.py:838-845 | a duplicate is counted once in each of its cells, for this version |
| CampaignMeaning.SemanticKeyIff | harness/dedup.py:45-56 | attempts share a key if and only if they share rule and shape, and behaviour too where the shape is unnamed |
| CampaignMeaning.CellsAre | harness/dedup.py:28-42 | one cell for each expected rule, with the shape found for it or the unnamed one |
| CampaignLoop.Deduplicator.Seen | harness/dedup.py:76-80 | says whether the hash was seen, and remembers it |
| CampaignLoop.SemanticDeduplicator.Attempt | harness/dedup.py:100-108 | claims exactly the new keys, and counts a repeat as a duplicate |
| CampaignLoop.Recorder.Add | harness/recorder.py:94-126 | adds the trace, and its hash exactly for a bypass |
| CampaignLoop.CampaignRun.ValidateAttempt | harness/campaign.py:770-847 | the stages update the objects as the gate function says |
| CampaignLoop.CampaignRun.SettleVerdict | harness/campaign.py:317-413 | what follows a verdict updates the objects as specified; which patch status and which cells is `Campaign.RunTells` and `CampaignMeaning.ObservedIs` |
| CampaignLoop.CampaignRun.Attempt | harness/campaign.py:176-414 | one attempt computes one step |
| CampaignLoop.CampaignRun.RunAll | harness/campaign.py:176-414 | the loop computes the run, with the declared stops looked at first; what the run records is `Campaign.RunTells` |
| Jobs.RunBounded | harness/mcp/server.py:131-148 | in every reachable table at most two jobs run and at most 256 are kept |
| Jobs.RunningUntilFinished | harness/mcp/server.py:131-163 | a running job is neither evicted nor changed before its first finish |
| Jobs.FirstOutcomeIsFinal | harness/mcp/server.py:151-163 | whichever of worker and deadline finishes a job first fixes its outcome for as long as it is kept: completed if and only if there was a result |
| Jobs.JobQueue.CreateJob | harness/mcp/server.py:131-148 | refuses a third running job, drops the oldest finished job from a full table, adds the job |
| Jobs.JobQueue.FinishJob | harness/mcp/server.py:151-163 | takes only the first outcome |
| Wilson.InsideIff | harness/stats.py:77-91 | a rate is between the unclamped bounds if and only if n(p-x)^2 <= z^2 x(1-x) |
| Wilson.BoundsWithin | harness/stats.py:87-91 | the unclamped bounds lie in [0,1] and contain the estimate |
| Wilson.ClampsNeverBite | harness/stats.py:77-91 | the clamps never change the published interval |
| Wilson.Mirrored | harness/stats.py:77-91 | counting failures instead of successes mirrors the interval |
| Greedy.ChunksSplit | harness/aur.py:156-170 | greedy cutting loses nothing and every batch fits |
| Greedy.FewestBatches | harness/aur.py:156-170 | no cut into consecutive batches that fit has fewer batches |
| Batches.CapsHereditary | harness/aur.py:163-163 | a stretch of a batch within both caps is within both caps |
| Batches.NameFits | harness/aur.py:132-137 | a validated name fits into a request of its own |
| Batches.TotalIsQuery | harness/aur.py:162-162 | what a batch costs is the length of its percent-encoded query |
| Batches.MakeChunks | harness/aur.py:156-170 | the batches concatenate to the names, keep both caps, and are the fewest possible |
| Batches.TableMeans | harness/aur.py:293-306 | a key looks up the last record of that name, failing that the first of that base |
| Batches.FoldRows | harness/aur.py:293-306 | the fold over the records builds that table |

## Left out

- The analyser and everything asked of it (reports, scored URLs, layers, techniques), hashing, JSON, HTTP, tar and YAML
  libraries, regular expressions over shell text, `git apply`, `bash -n`, locks, fsync and namespaces: parameters or
  atomic steps. A hash is assumed injective where a contract says so.
- Floating point: times, waits and the Wilson interval are over the reals, with a square root that is exact.
- Text: strings are sequences of characters; `\d`, `\w` and upper or lower case are ASCII; decimal numbers have no digit
  limit; lines are given, not split off by any line break the platform knows.
- Behavior.Validate: the patterns are finders of matches from left to right and the shell parse is a predicate; labels of
  chains and reasons of refusals are left out, as is a goal other than the one the validator knows.
- Inlining.ReachableRegions: the header pattern is a scanner whose matches hold no closing brace; `order` stands for the
  sorted list of function names, so nothing is claimed about sorting.
- ArchiveProtocol.GridObject.MergeInto: the archive object holds cell values, so that two grids never share a cell object
  is not modelled; `slice`, `open_cells` and the JSON form of a grid are left out.
- RateLimiter.Limiter.Load: the ledger is a list of times; one that cannot be read is an empty list, and the other details
  of its JSON are left out. Whether writes work, are denied or break halfway is fixed for a ledger. The clock never
  goes back, a sleep lasts at least as long as asked, and acquires on one ledger come one after the other.
- CodeFixes.ValidateAndApply: a failed apply may change its targets in any way but touches nothing else; shape errors of
  single fields are one rejection.
- HunkGrammar.Validate: the comparison with the analyser's own parser after the structural loop is not part of this model.
- TriageRuns.Directory.WriteReport: ill-typed or oversized input is refused before anything else and not represented; the
  text of a report, `environment.yml` and the checks on file types are one number saying how many writes succeed.
- Benign.ScanBenign: the grouping of files by name prefix and their sorting are given; the report around the rows and its
  cache are left out.
- Regression.RunRegression: collecting the committed bypasses and moving patch statuses afterwards are left out; a replay
  is a function of the keyed inputs, and a worker may report it as degraded.
- Runner.AnalysisRunner.Request: the lock makes requests come one after the other; waiting for a killed process and
  closing pipes have no effect on replies. A reader fault is any exception raised inside the round trip, while a reply
  is still outstanding, that is neither an end of file nor an operating-system error nor a deadline.
- Campaign.RunKeeps: the wall-clock stop is one of the ways the list of attempts may end; minimisation, layer audits and
  exports do not change the state and are left out, as are rule and artifact probes.
- Jobs.JobQueue.CreateJob: job identifiers are new each time; timers are one of the callers of a finish.
- Feed client, command line, MCP tools, alert rendering, coverage tables, documentation scripts: plumbing and formatting.
