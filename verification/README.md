# RFP Shred: verified models of the extraction, queue, billing and admission code

RFP Shred turns a solicitation document into a compliance matrix in which every row must quote the
page it cites. These Dafny modules model the parts of the program whose correctness is not visible
in any one function, and prove what they promise together:

- `Text`, `EditDistance`, `FuzzyMatch`, `Audit`: text normalisation, the two-row edit distance with
  its cut-off, the anchored quotation search, the page locator and the citation audit.
- `Pages`, `Chunking`, `Mining`: the page-marked text, its overlapping windows, and the recursion
  that halves a window when the model truncates or over-produces.
- `Matrix`, `Reprocess`: the merge of audited items into the stored rows, the other operations that
  add or delete rows, and what a second run does to human work.
- `Runner`: one whole extraction run, from page map to published matrix.
- `Jobs`, `Queue`: the database-backed job queue and its workers as a transition system, and the
  operations that perform its steps.
- `Billing`, `BillingHistories`: payment events, plan periods and the cancellation tombstone under any
  order and replay, and what whole histories of deliveries do to one plan.
- `RateLimit`, `UploadGuard`: the fixed-window limiter and the upload admission gate.
- `Evaluation`: the scoring of one document and the corpus totals rebuilt from rounded rates.

Where the program changes objects step by step, the model is a class or a method with loops, proved
equal to a specification function or to a step of a transition system; the theorems are about those.
Clocks, the model provider, the sequence matcher, unordered queries and the order of requests are
parameters or free choices, so every theorem holds for all of them.

Results that say when the program does *not* do what its comments promise:

- `normalize_clause_id` is documented as idempotent (app/pipeline/text_utils.py:33-40). It is not:
  `"1;-"` becomes `"1;"` and then `"1"`. `Text.ClauseIdIdempotentIff` gives the exact condition on
  the input. Two applications always suffice.
- A reprocess is said to keep responses, tags, verification and row ids (app/pipeline/transform.py:77-81).
  It loses them in three ways.
  - Stored clause ids are normalised again when rows are matched. An item whose clause id does not meet
    the condition above starts again with a blank row (`Reprocess.UnsettledItemStartsBlank`), and an
    answered and verified row is deleted (`Reprocess.AnswerIsLost`, `Reprocess.SomeClauseIdLosesItsRow`).
  - Such an item can take the row of another one, whose own row is then deleted
    (`Reprocess.SomeNeighbourTakesOver`); `Reprocess.ItemKeepsItsRowIff` says exactly when an item
    keeps its row in whatever order the rows are read.
  - A worker's restart deletes every unverified row of the rfp (app/core/queue.py:119-123), and these
    belong to the matrix published before: an answer that nobody verified is lost whatever the clause
    id (`Reprocess.UncheckedAnswerIsLost`), and so is an unverified restored row
    (`Reprocess.RestartedOther`).

  Together: every item keeps its row exactly when all clause ids meet the condition and every row was
  verified at each clean-up since the first merge (`Reprocess.SourceRestartIff`); without a restart, the
  first half alone (`Reprocess.SourceReprocessIff`).
- A worker that was only slow can finish a job after its run was restarted; exactly such a late finish
  shows an rfp as settled while a newer run is still in progress (`Jobs.StepKeepsStatesIff`,
  `Jobs.LateFinishHappens`). If such a worker fails, it turns a run and an rfp that another worker has
  published from ready to failed, with no reprocess (`Jobs.ReadyRfpFailsInStepIff`,
  `Jobs.ReadyRunFailsIff`, `Jobs.ReadyRfpFails`).
- The webhook module says that a partial failure rolls back entirely (app/billing/webhook.py:3-10).
  A failure after a change commits the change; `Billing.FailureChangesNothingIff` lists the branches,
  and `BillingHistories.PartialFailureHappens` is a history that runs into one.
- A checkout for a single document that carries a subscription but no session id is stored under an
  empty reference, and delivering it again grants a second entitlement (`Billing.SecondGrantIff`,
  `BillingHistories.DoubleGrantHappens`).
- `process_event` promises that out-of-order delivery never revokes incorrectly
  (app/billing/webhook.py:140-141). A payment failure that arrives after the invoice was paid leaves a
  paid plan inactive (`BillingHistories.LateFailureHappens`); `BillingHistories.EventsCommuteIff` says
  exactly which two events may change places, each delivery reading its own clock.
- Counts are rebuilt correctly from four-decimal rates up to a denominator of 10,000 and for no larger
  one (`Evaluation.CountsRecoverIff`).

One condition is exact but cannot fail with the program's own configuration: a `peek` agrees with the
`hit` it foretells unless the limit is below one and the window is over (`RateLimit.PeekForetellsHitIff`);
all configured limits are at least three (app/core/ratelimit.py:63-70).

## Model

| member | source | states |
|---|---|---|
| Text.WhiteSpaceIsThese | app/pipeline/text_utils.py:15-15 | the white space of `\s` and `strip`, code point by code point |
| Text.NormalizeTextIsNormal | app/pipeline/text_utils.py:21-30 | the result is lower-cased, has no ligature, no white space but single blanks, and none at an edge |
| Text.NormalizeTextFixedPoints | app/pipeline/text_utils.py:21-30 | a text is left alone exactly when it has that normal form |
| Text.NormalizeTextIdempotent | app/pipeline/text_utils.py:21-30 | normalising twice is normalising once, for every text and every case table |
| Text.NormalizeTextKeepsCharacters | app/pipeline/text_utils.py:21-30 | apart from white space, the result has the characters of the joined input, ligatures spelled out, lower-cased, in order |
| Text.NormalizeTextIsWords | app/pipeline/text_utils.py:21-30 | the result is the words of the joined input, ligatures spelled out, with one blank between them, lower-cased |
| Text.LigaturesAreSpelledOut | app/pipeline/text_utils.py:7-28 | the five replacements, one after the other, spell out each ligature where it stands |
| Text.NothingToJoin | app/pipeline/text_utils.py:16-26 | a text without a hyphen before a line break is left alone by the first pass |
| Text.BreakIsDropped | app/pipeline/text_utils.py:16-26 | a hyphenated line break is dropped where it stands, and the line before it kept |
| Text.NormalizeClauseIdShape | app/pipeline/text_utils.py:33-47 | the result is lower-cased, with no white space or hyphen, no two dots in a row and no dot at an edge |
| Text.ClauseIdFixedPoints | app/pipeline/text_utils.py:33-47 | a clause id is left alone exactly when it has that shape and no stop punctuation at an edge |
| Text.NormalizeClauseIdIsWords | app/pipeline/text_utils.py:42-47 | the result is the stretches of the trimmed id between hyphens, white space and dots, with one dot between them |
| Text.TrimTakesOffPunctuation | app/pipeline/text_utils.py:42-43 | the trim takes exactly the leading and trailing characters of `.;:, \t` off the stripped, lower-cased id |
| Text.ClauseIdStableAfterTwo | app/pipeline/text_utils.py:33-47 | a third application never changes what two produced |
| Text.ClauseIdIdempotentIff | app/pipeline/text_utils.py:33-47 | one application is stable if and only if the trimmed input, stripped of separators and dots, has no stop punctuation at an edge |
| Text.ClauseIdStableAfterCleanTrim | app/pipeline/text_utils.py:42-43 | one application is stable when the strip of line 43 leaves no hyphen or white space at an edge |
| Text.ClauseIdNotIdempotent | app/pipeline/text_utils.py:33-40 | a concrete clause id on which the documented idempotence fails |
| Text.NormalizeClauseIdKeepsCharacters | app/pipeline/text_utils.py:33-47 | apart from separators and stops, the result has the lower-cased characters of the input, in order |
| EditDistance.DistanceIsLowerBound | app/pipeline/text_utils.py:50-77 | no edit script between two texts costs less than the recursive distance |
| EditDistance.CheapestScript | app/pipeline/text_utils.py:50-77 | some edit script costs exactly that much |
| EditDistance.DistanceSymmetric | app/pipeline/text_utils.py:58-59 | the operand swap is harmless |
| EditDistance.DistanceZero | app/pipeline/text_utils.py:53-54 | the distance is zero exactly for equal texts |
| EditDistance.DistanceLengths | app/pipeline/text_utils.py:55-57 | the distance is at least the difference of the lengths, which justifies the length shortcut |
| EditDistance.CellRecurrence | app/pipeline/text_utils.py:65-71 | the table cells of prefixes obey the recurrence the inner loop computes |
| EditDistance.RowBarrier | app/pipeline/text_utils.py:72-75 | if a whole row exceeds a bound then so does the final distance, which justifies the early exit |
| EditDistance.NextRow | app/pipeline/text_utils.py:62-73 | the inner loop turns the row of one prefix into the row of the next and finds its minimum |
| EditDistance.LevenshteinDistance | app/pipeline/text_utils.py:50-77 | exact without a cutoff; with one, exact up to the cutoff, above it exactly when the distance is, and never more than the distance |
| FuzzyMatch.LargestFirstSorts | app/pipeline/text_utils.py:100-100 | the blocks are tried in order of descending size, none lost or invented |
| FuzzyMatch.CutoffTransparent | app/pipeline/text_utils.py:98-119 | the ratio test on the cut-off result gives the verdict of the test on the true distance, for every window |
| FuzzyMatch.FuzzyContains | app/pipeline/text_utils.py:80-122 | accepts exactly if the excerpt occurs in the page or some window tried around a large enough anchor is within the ratio |
| FuzzyMatch.AcceptsIff | app/pipeline/text_utils.py:80-122 | an excerpt is accepted exactly if it stands on the page or one of the matcher's eight largest blocks, of at least the least size, leads within four characters of a window within a tenth of its length in edits |
| FuzzyMatch.BlockIsTriedIff | app/pipeline/text_utils.py:100-102 | a block of the matcher is tried exactly if fewer than eight others are larger, or as large and listed earlier |
| FuzzyMatch.TriedBlockHasRank | app/pipeline/text_utils.py:100-102 | every block tried is one of those |
| FuzzyMatch.LowerRankIsLarger | app/pipeline/text_utils.py:100-102 | no block that is left out is larger than one that is tried |
| FuzzyMatch.StartsOf | app/pipeline/text_utils.py:101-110 | the set of window starts is the anchors' offsets, four either way, inside the page |
| FuzzyMatch.AcceptedIsQuoted | app/pipeline/text_utils.py:80-122 | whatever blocks the matcher returns, an accepted excerpt is a substring or close to a window of the page |
| FuzzyMatch.LongRunOrFewKeeps | app/pipeline/text_utils.py:86-87 | pigeonhole: d edits leave a run of kept characters of a given size, or few kept characters altogether |
| FuzzyMatch.CloseWindowHasAnchor | app/pipeline/text_utils.py:86-101 | a window within a tenth of the excerpt's length in edits shares with it a block of at least the minimum anchor size |
| FuzzyMatch.AnchoredWindowIsFound | app/pipeline/text_utils.py:98-119 | a window within four edits, and a tenth of the length, shares a block with the excerpt; if the matcher has a block as large on its diagonal among its eight largest, the excerpt is accepted |
| Chunking.SpansTile | app/pipeline/chunking.py:86-91 | the page spans follow one another without gap over the whole page-marked text |
| Chunking.SpanText | app/pipeline/chunking.py:88-91 | each span holds the marked text of its page, and nothing else |
| Chunking.PageTextStands | app/pipeline/chunking.py:86-91 | every page's span is a marker with its number as a numeral, the page's text, and a line end |
| Chunking.PagePassageStands | app/pipeline/chunking.py:86-91 | so every passage of a page stands in the document at its offset from there |
| Pages.HasTextIff | app/pipeline/chunking.py:83-85 | a document has text exactly if some page has a character that is no white space |
| Chunking.PageForOffsetIsPageOf | app/pipeline/chunking.py:70-74 | the page found for an offset is the page in whose span it stands, and pages grow with offsets |
| Chunking.SegmentsPartition | app/pipeline/chunking.py:92-124 | the sections are non-empty, adjoin, and together are the whole text |
| Chunking.SegmentsAreHeaded | app/pipeline/chunking.py:92-124 | the first section is what is before the headings, and each heading begins the next one and gives it its title |
| Chunking.SegmentOfPage | app/pipeline/chunking.py:114-124 | a passage of a page that no heading divides lies in one section |
| Chunking.WindowsCover | app/pipeline/chunking.py:134-154 | the windows of a section leave no gap, all but the last are full, and the last reaches the end |
| Chunking.WindowsOverlap | app/pipeline/chunking.py:135-154 | consecutive windows share exactly the overlap |
| Chunking.WindowHoldsPassage | app/pipeline/chunking.py:135-154 | a passage of at most one character more than the overlap is whole in some window |
| Chunking.DocumentChunksAreWindows | app/pipeline/chunking.py:127-154 | every chunk is numbered by its place and is a non-empty window of one section, no longer than the target, citing exactly the pages of its first and last characters |
| Chunking.DocumentPassageInChunk | app/pipeline/chunking.py:127-154 | every passage of a section no longer than the overlap plus one is whole in some chunk |
| Chunking.MarkPages | app/pipeline/chunking.py:86-91 | the loop builds the page-marked text and its spans, as `PageTextStands` describes them |
| Chunking.SplitSegments | app/pipeline/chunking.py:114-124 | the loop builds the sections |
| Chunking.CutSegment | app/pipeline/chunking.py:129-154 | the window loop produces the section's windows, and terminates for any target and overlap |
| Chunking.BuildChunks | app/pipeline/chunking.py:77-157 | nothing for a document without text, the cap error above the cap, and otherwise the document's chunks |
| Chunking.HalvesHoldPassage | app/pipeline/chunking.py:160-189 | a passage of at most 501 characters is whole in one of the halves |
| Chunking.HalvesMayCutLongerPassage | app/pipeline/chunking.py:164-167 | 501 is sharp: the 502 characters in the middle of a full window are cut in both halves |
| Chunking.HalvesTile | app/pipeline/chunking.py:164-167 | the halves start and end where the chunk does and overlap without a gap |
| Chunking.HalvesSubSpan | app/pipeline/chunking.py:168-188 | the halves' page ranges lie in the chunk's |
| Chunking.HalvesPages | app/pipeline/chunking.py:168-188 | the halves keep number, heading and outer pages, count one halving more, and meet at the middle page |
| Mining.AskRequests | app/pipeline/mine.py:105-130 | two tries of a chunk take at most six requests |
| Mining.CallOutcome | app/pipeline/mine.py:105-130 | only rate limits and outages are retried, three requests in all, and the first other event decides the call |
| Mining.ReplyDecides | app/pipeline/mine.py:153-199 | the deciding reply of a chunk that is asked for: cut off, it is halved or has failed; malformed twice, it has failed; over 25 items, it is halved if it can be; otherwise recorded |
| Mining.TooLongIsHalved | app/pipeline/mine.py:142-148 | a chunk estimated at more than the token limit is halved without asking, if it can be |
| Mining.EstimateIsPlaces | app/pipeline/mine.py:89-92 | the estimate counts every place of three words in the lower-cased text, and is at least one |
| Mining.AbortedIff | app/pipeline/mine.py:105-217 | a chunk ends in an exception exactly if the last event was no reply |
| Mining.RunAbortedIff | app/pipeline/mine.py:220-230 | and so does a run |
| Mining.ProcessBounds | app/pipeline/mine.py:133-217 | a chunk takes at most 42 requests and, unless an exception ends it, has one to four leaves |
| Mining.RequestBoundIsReached | app/pipeline/mine.py:105-217 | a provider for which every chunk, with a large enough token limit, takes all 42 requests |
| Mining.AllBounds | app/pipeline/mine.py:220-230 | the same for a whole run |
| Mining.LeavesArePieces | app/pipeline/mine.py:142-189 | every leaf reads a stretch of its chunk, under its number and inside its page range |
| Mining.PassageReachesLeaf | app/pipeline/mine.py:142-189 | a passage of at most 501 characters of a chunk is whole in some leaf, whatever the pattern of halvings |
| Mining.LeavesAccounted | app/pipeline/mine.py:170-199 | every leaf is one call record or one failure, and no failures means all were called |
| Mining.RunKeepsItemsInStep | app/pipeline/mine.py:191-217 | the items are the calls' items in order, numbered consecutively |
| Mining.CitedPagesInChunk | app/pipeline/mine.py:201-205 | every item cites a page of the document chunk it was mined from |
| Mining.ItemSource | app/pipeline/mine.py:201-217 | every mined item is an item of a recorded reply with its fields; its page is the claimed one if that is a page of the leaf, the first one if the claim is below 1, and else the nearest |
| Mining.CallsFollowLeaves | app/pipeline/mine.py:191-199 | the call records are those of the recorded leaves in order, field by field |
| Mining.RunRecordsAreComplete | app/pipeline/mine.py:159-199 | over a run, whatever is recorded is a reply of the provider that was not cut off, parsed, and has at most 25 items unless its chunk was halved twice |
| Mining.RunLedger | app/pipeline/mine.py:220-230 | over a whole run: the items follow the calls, item by item from a leaf of the run, cite pages of their chunk, and keep a claimed page of the leaf or take the nearest |
| Mining.PassageSurvives | app/pipeline/mine.py:133-217 | in a run without failures every passage of at most 501 characters of a section was whole in the text of a recorded call |
| Mining.ModelClient.CallWithRetries | app/pipeline/mine.py:105-130 | the retry loop asks as often, and gives up when, the specification says |
| Mining.ModelClient.AskTwice | app/pipeline/mine.py:159-183 | the loop over malformed output, likewise |
| Mining.MineResult.ProcessChunk | app/pipeline/mine.py:133-217 | the recursion enters exactly the specified leaves into the shared result, and stops at an exception |
| Mining.MineResult.Record | app/pipeline/mine.py:191-217 | one call record and its items are appended |
| Mining.MineChunks | app/pipeline/mine.py:220-230 | the loop over the chunks, likewise |
| Audit.SplitRequirements | app/pipeline/filter.py:22-30 | requirements and noise, each in order; together exactly the items, told apart by their flag |
| Audit.CheckItem | app/pipeline/audit.py:33-44 | the verdict on one item: excerpt first, then body, each non-empty and accepted on the page |
| Audit.LocateSourcePages | app/pipeline/audit.py:47-66 | the array is rewritten in place: each item moves to the one page that verifies it, if exactly one does |
| Audit.WhereFacts | app/pipeline/audit.py:59-65 | a single match means that this page and no other verifies the item |
| Audit.LocatedPassesIff | app/pipeline/audit.py:47-66 | a located item passes exactly if its claimed page verifies it or exactly one page does; an item that would have passed is not moved |
| Audit.VerdictIff | app/pipeline/audit.py:33-90 | an item passes exactly if its page exists and excerpt and body are both non-empty and accepted there; otherwise the reason names the first thing amiss |
| Audit.AuditItems | app/pipeline/audit.py:69-90 | the passed and the failed items with their reasons, in order |
| Audit.AuditConserves | app/pipeline/audit.py:69-90 | every item is passed or dropped with its own reason; none is lost or duplicated |
| Audit.PassedCitationHolds | app/pipeline/audit.py:33-90 | a passed item's excerpt and body are both quoted on its cited page |
| Matrix.SortOrders | app/pipeline/transform.py:101-101 | sorting orders by page and document order and keeps all elements |
| Matrix.SurvivorsKeys | app/pipeline/transform.py:98-108 | after deduplication the keys are distinct and none is lost |
| Matrix.Deduplicate | app/pipeline/transform.py:98-108 | the loop keeps the first item of each key |
| Matrix.SurvivorIsFirst | app/pipeline/transform.py:98-108 | each item kept is the first one with its clause id, page and text, normalised |
| Matrix.OutputIdsPointBack | app/pipeline/transform.py:61-75 | a row's back-reference is the last raw output of its chunk, and exists exactly if the chunk has one |
| Matrix.RowLeadsToItsOutput | app/pipeline/transform.py:61-138 | the link of a written row is the last call of its item's chunk, and is absent exactly if there is none |
| Matrix.Matrix.StoreRawOutputs | app/pipeline/transform.py:61-75 | the raw outputs with one fresh record a call, and the last record of each chunk |
| Matrix.RecordedFacts | app/pipeline/transform.py:61-75 | the added records are the run's calls in order, and the older ones are as they were |
| Matrix.Matrix.IndexByKey | app/pipeline/transform.py:82-87 | the index holds, for each key, the rows with it in query order |
| Matrix.Matrix.WriteItems | app/pipeline/transform.py:110-138 | each item overwrites the first row with its key, keeping response, tags and verification, or gets a new row |
| Matrix.Matrix.SweepUnmatched | app/pipeline/transform.py:140-150 | of the other rows exactly the restored ones that no item matches are kept |
| Matrix.Matrix.Persist | app/pipeline/transform.py:52-188 | the rows are the merge of the deduplicated passed items, new rows get fresh ids, the dropped and filtered lines are replaced, and the returned count is the number of rows |
| Matrix.SequenceIsExact | app/pipeline/transform.py:111-150 | after a merge the rows are numbered exactly 1 to N, items first in order, then the kept rows |
| Matrix.GeneratedRows | app/pipeline/transform.py:101-138 | two generated rows carry passed items in order of page and of place within the page, with different keys |
| Matrix.EveryPassedItemHasARow | app/pipeline/transform.py:98-138 | every passed item is represented by a row with its page and normalised clause id and text |
| Matrix.MergeKeepsHumanWork | app/pipeline/transform.py:82-150 | exactly which stored rows a merge deletes; all others keep response, tags and verification |
| Matrix.DropShowsFailure | app/pipeline/transform.py:152-165 | every stored drop shows page, excerpt, body and reason of a failure, under its number |
| Matrix.FailureIsShown | app/pipeline/transform.py:152-165 | and every failure is shown by one |
| Matrix.LineShowsItem | app/pipeline/transform.py:167-180 | every stored filtered line shows page, text and first 80 characters of a filtered item |
| Matrix.ItemIsShown | app/pipeline/transform.py:167-180 | and every filtered item is shown by one |
| Matrix.Matrix.NextSeq | app/web/routes_pages.py:352-358 | one more than the greatest number in use, or 1 |
| Matrix.Matrix.RestoreFiltered | app/web/routes_pages.py:248-278 | a filtered line becomes a row once, numbered after every other |
| Matrix.Matrix.RestoreAuditDrop | app/web/routes_pages.py:281-332 | a drop becomes a row exactly if one of its two excerpts passes a fresh audit, and is marked either way |
| Matrix.RestoredDropIsCited | app/web/routes_pages.py:296-315 | the restored row's excerpt and body are quoted on its page |
| Matrix.FreshExcerptIff | app/web/routes_pages.py:296-315 | the excerpt of a restored drop is its own if that passes, or else the first 200 characters of its text if they do; without either, or without pages, there is none |
| Matrix.Matrix.PatchRow | app/web/routes_api.py:101-173 | a permitted edit changes the fields of the request, keeps the time of the first check and logs the corrections; any other changes nothing |
| Matrix.PatchTwice | app/web/routes_api.py:127-162 | an edit sent again changes nothing and logs nothing |
| Matrix.PatchTakesEffect | app/web/routes_api.py:127-162 | what a request sets is stored and what it leaves out stays; at most 50 tags, and the first check keeps its time |
| Matrix.CorrectionsTell | app/web/routes_api.py:127-162 | a correction is logged exactly for a check taken back, a changed response and changed tags, with the old and the new text clipped to 500 characters |
| Matrix.Matrix.CleanPartialOutput | app/core/queue.py:119-131 | a restart deletes exactly the unverified rows, the dropped lines and the run's raw outputs, clears links to these, and leaves numbers unique |
| Matrix.Matrix.Clone | app/web/intake_service.py:107-133 | the copies have new ids and the prior rows' numbers, contents and tags, without response, verification or output link |
| Matrix.CopiesStayNumbered | app/web/intake_service.py:107-118 | the copies' numbers are unique and their ids are none of the prior ones |
| Matrix.CopyShowsRow | app/web/intake_service.py:107-118 | a copy keeps all of its row but response, verification and output link |
| Reprocess.SettledReprocessPreserves | app/pipeline/transform.py:82-150 | with settled clause ids a second run, after edits and restores, keeps every row and id and all human work, and adds and deletes none |
| Reprocess.UnsettledItemStartsBlank | app/pipeline/transform.py:40-150 | an item whose clause id is not settled gets a blank new row, and its old row is deleted unless another item takes it over |
| Reprocess.ReprocessKeepsRowsIff | app/pipeline/transform.py:40-150 | every item keeps its row if and only if every clause id is settled |
| Reprocess.SourceReprocessIff | app/pipeline/transform.py:40-150 | the same with the program's normalisers, as a condition on the mined clause ids |
| Reprocess.AnswerIsLost | app/pipeline/transform.py:40-150 | for every item whose clause id is not settled, a run, an answered and verified row, and a second run that deletes it |
| Reprocess.SomeClauseIdLosesItsRow | app/pipeline/transform.py:40-150 | the same with the program's normalisers and a concrete clause id |
| Reprocess.ItemKeepsItsRowIff | app/pipeline/transform.py:82-138 | an item finds its own row again, in every order the query may return the rows, if and only if the row is there, its clause id is settled and no other item's stored row has its key |
| Reprocess.LoneItemKeepsItsWork | app/pipeline/transform.py:77-138 | the second run then changes nothing in that row but its link to the raw output |
| Reprocess.NeighbourTakesOver | app/pipeline/transform.py:82-150 | a second run in which a settled item's answered and verified row is deleted, because another item's row is returned first and taken |
| Reprocess.SomeNeighbourTakesOver | app/pipeline/transform.py:40-150 | the same with the program's normalisers and concrete clause ids |
| Reprocess.RestartedItem | app/core/queue.py:119-131 | with settled clause ids, a generated row keeps id and work if it was verified at every clean-up since the first run; otherwise it is gone and its item has a blank row under a new id |
| Reprocess.RestartedOther | app/core/queue.py:119-131 | a restored row is kept, with its work, if and only if it was verified at every later clean-up |
| Reprocess.RestartKeepsRowsIff | app/pipeline/transform.py:40-150 | over any work and clean-ups between two runs, every item keeps its row if and only if every clause id is settled and every row was verified at every clean-up |
| Reprocess.SourceRestartIff | app/pipeline/transform.py:40-150 | the same with the program's normalisers, as a condition on the mined clause ids |
| Reprocess.UncheckedAnswerIsLost | app/core/queue.py:119-123 | for every item, a run, an answer that nobody verified, a restart, and a second run after which the row is gone |
| Reprocess.EditIsWork | app/web/routes_api.py:101-173 | editing rows is work that a second run keeps |
| Reprocess.RestoreIsWork | app/web/routes_pages.py:248-332 | restoring a line whose key is no item's is work that a second run keeps |
| Reprocess.WorkGoesOn | app/web/routes_pages.py:248-332 | so is any number of edits and restores |
| Runner.Extraction.Mine | app/pipeline/runner.py:154-171 | mining goes on only if no cap, no provider error and no failed chunk stopped it |
| Runner.Extraction.Run | app/pipeline/runner.py:108-213 | the stages entered in each outcome; the matrix is untouched unless the run is complete, and then is the published merge |
| Runner.EveryRowQuotesItsPage | app/pipeline/runner.py:190-204 | every generated row of a published run quotes, with excerpt and body, the page it cites |
| Runner.MinedItemsAreConserved | app/pipeline/runner.py:190-196 | every mined item is a filtered line, a passed item or a dropped one, changed at most in its page |
| Runner.CountsAddUp | app/pipeline/runner.py:190-204 | filtered lines, drops and passed items add up to the mined items |
| Runner.PublishedRunReadEverything | app/pipeline/runner.py:154-171 | in a published run every passage of at most 501 characters of a section was read whole by a recorded call |
| Runner.PublishedRunReadEveryPage | app/pipeline/runner.py:154-171 | in a published run every passage of at most 501 characters of a page that no heading divides was whole in the text of a recorded call |
| Runner.MiningIsCompleteIff | app/pipeline/runner.py:154-171 | mining is complete exactly with at most 60 chunks, a reply to the last request and no failed chunk |
| Jobs.StepKeepsInv | app/core/queue.py:35-152 | every step of the protocol keeps the invariant |
| Jobs.LiveRunsAreLatestAndQueued | app/core/queue.py:86-152 | in every committed state of every execution a live run is its rfp's latest, and its own job is queued or processing |
| Jobs.FinishKeepsInv | app/worker/main.py:97-116 | finishing a job keeps the invariant and leaves no live run with that job; the only one there can have been is the captured run |
| Jobs.ErrorBranchesAreDead | app/core/queue.py:135-142 | a requeue always finds a job to restart and a worker always finds a run, so those two branches are never taken |
| Jobs.ClaimsAreExclusive | app/core/queue.py:42-59 | over any execution, two workers never hold the same job unless a recovery put it back in the queue |
| Jobs.RecoveryWeight | app/core/queue.py:103-149 | a recovery takes exactly one off the total number of recoveries still possible |
| Jobs.RecoveriesAreBounded | app/core/queue.py:103-149 | over any execution there are at most three recoveries for each run created |
| Jobs.RequeuedAtMostTwice | app/core/queue.py:108-149 | no run is requeued more than twice |
| Jobs.SettledRunStaysSettled | app/worker/main.py:98-116 | a ready or failed run is never live again |
| Jobs.StepKeepsStatesIff | app/worker/main.py:98-116 | a step makes the rfp's shown state disagree with its runs if and only if it is a late finish |
| Jobs.LateFinishHappens | app/worker/main.py:98-116 | an execution that ends with an rfp shown as ready while its latest run is live |
| Jobs.ReadyRfpFailsIff | app/worker/main.py:98-116 | a step takes an rfp from ready to failed if and only if it is a failing finish of a job of the rfp, or gives up a live run of it |
| Jobs.ReadyRfpFailsInStepIff | app/worker/main.py:98-116 | as long as the shown states follow the runs, if and only if it is a failing finish |
| Jobs.ReadyRunFailsIff | app/worker/main.py:98-116 | a step takes a run from ready to failed if and only if a worker that captured it finishes with a failure |
| Jobs.ReadyRfpFails | app/worker/main.py:98-116 | an execution without a reprocess in which a published run and its rfp become failed |
| Jobs.GiveUpSettlesAll | app/core/queue.py:107-118 | giving up needs three attempts and ten minutes without a heartbeat; it fails the run, its rfp, and exactly the queued and processing jobs of that rfp |
| Jobs.GivenUpJobsAreDead | app/core/queue.py:107-118 | over any execution, no job that an rfp had when its run was given up is ever taken again, unless a run of the rfp is queued again |
| Jobs.RequeueRevives | app/core/queue.py:132-149 | a requeue counts an attempt and a heartbeat, shows the rfp as received, and queues one job of it, or a new one if all were completed |
| Jobs.FinishSettles | app/worker/main.py:97-116 | a finish settles the captured run, the job and the job's rfp alike, and nothing else |
| Jobs.TakeIsFair | app/core/queue.py:42-59 | the job taken is queued, not parked, and none of the others that are free goes before it by priority and age |
| Jobs.UploadAdds | app/web/intake_service.py:57-104 | an upload adds one rfp, open exactly if the account has unlocked the content; with a ready copy nothing is queued, otherwise a first run is, parked over the cap |
| Jobs.IntakeAdds | app/sweep/runner.py:155-170 | the sweep adds a closed rfp with a first run at priority 1 |
| Jobs.ReprocessStarts | app/web/routes_pages.py:365-386 | a reprocess needs the source and a settled latest run, and starts one more attempt at the priority of the origin, unless it is parked |
| Jobs.UnparkReleases | app/core/maintenance.py:95-109 | a parked job gets the priority of its rfp's origin |
| Queue.QueueDb.ClaimNextJob | app/core/queue.py:42-59 | claims a job of highest priority, the earliest of those, never a parked or locked one; none only if there is none |
| Queue.QueueDb.CompleteJob | app/core/queue.py:62-65 | the job is completed or failed, the others unchanged |
| Queue.QueueDb.CaptureRun | app/worker/main.py:87-91 | is the capture step |
| Queue.QueueDb.FinishJob | app/worker/main.py:97-116 | is the finish step |
| Queue.QueueDb.RecoverRun | app/core/queue.py:108-149 | is one recovery step: giving up, which settles the run, its rfp and the open jobs of that, or a requeue with any restartable job |
| Queue.QueueDb.RequeueStaleRuns | app/core/queue.py:86-152 | is a sequence of recovery steps; afterwards no live run is without a heartbeat for ten minutes but those locked elsewhere, which are unchanged |
| Queue.QueueDb.ReprioritizeCappedJobs | app/core/maintenance.py:95-109 | is a sequence of un-park steps, for exactly the parked jobs of accounts under their cap |
| Queue.QueueDb.FindPriorCopy | app/web/intake_service.py:57-61 | the account's latest unlocked rfp with the same content |
| Queue.QueueDb.ProcessUpload | app/web/intake_service.py:29-104 | refuses a file that is too large, of unknown type or unreadable; otherwise is the upload step: a clone of a ready copy without run or job, or a run with its job, open if a copy was unlocked |
| Queue.QueueDb.TakeIn | app/sweep/runner.py:155-170 | is the intake step of the sweep: a run with its job at sweep priority |
| Queue.QueueDb.ReprocessRfp | app/web/routes_pages.py:365-386 | gone exactly without a source file; starts a run exactly if there is one and the latest run is settled, and then is the reprocess step |
| Billing.EventPeriodEndIsGreatest | app/billing/webhook.py:74-96 | the period read from an invoice, if no stamp is too large to convert, is the greatest usable non-zero one |
| Billing.UpdateSyncs | app/billing/webhook.py:241-258 | a delivered update makes an uncanceled plan active exactly for the states active and trialing, takes over a period that is given, and changes nothing else |
| Billing.UpdateDecidesAccess | app/billing/entitlement.py:46-56 | with one of the two states the account is entitled to every rfp while the period lasts; with any other, this plan entitles it to none |
| Billing.InvoicePays | app/billing/webhook.py:116-203 | a delivered invoice makes the plan active and never shortens its period: that becomes the greatest usable stamp if later, or, without one, 30 days from now if it is over |
| Billing.FailureSuspends | app/billing/webhook.py:205-225 | a delivered payment failure makes the plan inactive and leaves its period |
| Billing.DeletionCancels | app/billing/webhook.py:227-237 | a delivered deletion ends the plan now and leaves the tombstone |
| Billing.CheckoutGrants | app/billing/webhook.py:147-186 | a readable checkout opens its rfp, once, and grants one entitlement unless one is stored under its references: a single one under the session, or a plan for 30 days under the subscription |
| Billing.EventFindsPlan | app/billing/webhook.py:188-245 | an event about a subscription finds a plan exactly if one is stored under it |
| Billing.DeniedIff | app/billing/entitlement.py:33-58 | an account is denied an rfp exactly if that is closed, has more than ten rows, and no active entitlement of the account covers it |
| Billing.RaisesIff | app/billing/webhook.py:139-262 | exactly which events raise |
| Billing.WhatIsUndone | app/billing/webhook.py:286-313 | a failed direct processing and a failed flush keep nothing, and exactly an unknown kind of a new, readable checkout fails in the flush |
| Billing.OutcomesTell | app/billing/webhook.py:139-262 | what the outcome of a subscription event says about the plan |
| Billing.BillingDesk.LatestStamp | app/billing/webhook.py:74-96 | the loop over the stamps raises exactly if one is too large to convert, which no handler in it catches, and else finds that period |
| Billing.CancellationIsTerminal | app/billing/webhook.py:99-113 | over any history a canceled plan is never active again and no other entitlement gets its non-empty reference |
| Billing.CanceledPlansGrantNothing | app/billing/entitlement.py:46-56 | an account all of whose plans were canceled is not entitled by a plan |
| Billing.UnlockIsForEver | app/billing/entitlement.py:33-35 | an unlocked rfp keeps its unlock time and stays open over any history |
| Billing.GrantIsRecognisedIff | app/billing/webhook.py:163-179 | a new grant is found again by the same checkout exactly if it was stored under a non-empty reference |
| Billing.SecondGrantIff | app/billing/webhook.py:157-179 | delivering the checkout of a grant again grants a second entitlement exactly if the reference is empty |
| BillingHistories.DoubleGrantHappens | app/billing/webhook.py:157-179 | a history in which one checkout, under two event ids, grants two entitlements |
| Billing.CheckoutGrantsOnce | app/billing/webhook.py:158-179 | once one of its references is stored, no later delivery of a checkout grants again |
| Billing.RenewalsReachTheLatest | app/billing/webhook.py:116-136 | renewals with canonical periods end at the maximum of the start and the periods and change nothing else |
| Billing.RenewalOrderIsIrrelevant | app/billing/webhook.py:188-203 | permuting or replaying such renewals gives the same book |
| BillingHistories.RenewalsInHistory | app/billing/webhook.py:188-203 | in a history, among other events, replays and grants, a plan reached by canonical invoices only ends at the maximum of its start and their periods |
| BillingHistories.RenewalHistoriesAgree | app/billing/webhook.py:188-203 | two histories in which the same periods reach the plan end with the same period |
| BillingHistories.EventsCommuteIff | app/billing/webhook.py:139-258 | exactly which two events, delivered at two times that each reads on its own, give the same book in either order, for every uncanceled plan in every book |
| BillingHistories.LateFailureHappens | app/billing/webhook.py:188-225 | two histories that differ in the order of a failure and a payment, one ending inactive |
| Billing.ProcessedAtMostOnce | app/billing/webhook.py:286-313 | an event id is processed to the end at most once, fails at most three times, and its record says which |
| Billing.SettledEventIsInert | app/billing/webhook.py:286-291 | a processed or dead-lettered event changes nothing when delivered again |
| Billing.FailureChangesNothingIff | app/billing/webhook.py:298-309 | a failing event leaves the book unchanged if and only if it is not in one of the branches that fail after a change |
| BillingHistories.PartialFailureHappens | app/billing/webhook.py:205-225 | a history in which a delivery counts as failed and has made the plan inactive |
| Billing.BillingDesk.ProcessEvent | app/billing/webhook.py:139-262 | does what the specification says for some plan the query may return |
| Billing.BillingDesk.HandleWebhook | app/billing/webhook.py:265-313 | is one delivery step, with the HTTP status of its outcome |
| RateLimit.RateLimiter.Hit | app/core/ratelimit.py:27-40 | verdict and new bucket; other keys are untouched |
| RateLimit.RateLimiter.Peek | app/core/ratelimit.py:42-55 | the verdict without recording |
| RateLimit.RateLimiter.Reset | app/core/ratelimit.py:57-59 | no bucket is left |
| RateLimit.PeekForetellsHitIff | app/core/ratelimit.py:42-55 | a peek equals the hit's verdict and wait if and only if the limit is positive or the window is open |
| RateLimit.WaitingSucceeds | app/core/ratelimit.py:39-40 | waiting as told, without a hit in between, always succeeds for a positive limit |
| RateLimit.WaitIsNeeded | app/core/ratelimit.py:39-40 | a hit more than a second before the time told is still refused |
| RateLimit.WaitIsBounded | app/core/ratelimit.py:39-40 | the wait is at least a second and at most one more than the window |
| RateLimit.AtMostTwiceTheLimit | app/core/ratelimit.py:27-40 | no closed span as long as the window has more than twice the limit of allowed hits |
| RateLimit.TwiceTheLimitHappens | app/core/ratelimit.py:27-40 | the bound is reached for every limit and window |
| RateLimit.EmptyWindowLimitsNothing | app/core/ratelimit.py:32-34 | a window that is not positive lets every hit pass |
| UploadGuard.BodyLimitIffAllLeaves | app/web/upload_guard.py:156-161 | a failure counts as an oversized body exactly if every leaf of its tree is the size sentinel |
| UploadGuard.StepKeepsInv | app/web/upload_guard.py:52-121 | every step keeps the counter equal to the requests in flight and each body within its limit |
| UploadGuard.HeldBytesAreBounded | app/web/upload_guard.py:77-121 | under any interleaving the bytes held are at most the limit of one body times the admitted requests |
| UploadGuard.BusyIff | app/web/upload_guard.py:68-77 | a request is turned away as busy exactly if the limit of others is in flight |
| UploadGuard.ArrivalDecides | app/web/upload_guard.py:52-77 | an arrival is refused for its one readable declared length, or as busy, or admitted, exactly under these conditions, and changes something only if admitted |
| UploadGuard.ReceiveCounts | app/web/upload_guard.py:81-88 | every byte is counted, and a message is passed on exactly while the total is within the limit |
| UploadGuard.EndReplies | app/web/upload_guard.py:98-121 | the end is answered with 413 exactly if there was a failure, all of it the size sentinel, and no response has begun; other failures are raised, and the request is released in any case |
| UploadGuard.StartedIff | app/web/upload_guard.py:90-96 | over any execution, a response is known to have begun exactly if it was started since the request was admitted |
| UploadGuard.UploadBodyAdmission.TryAdmit | app/web/upload_guard.py:126-131 | admits, counting, below the limit |
| UploadGuard.UploadBodyAdmission.Enter | app/web/upload_guard.py:52-77 | is the arrival step |
| UploadGuard.UploadBodyAdmission.GuardedReceive | app/web/upload_guard.py:81-88 | is the receive step: the application gets a message only while the total is within the limit |
| UploadGuard.UploadBodyAdmission.TrackedSend | app/web/upload_guard.py:92-96 | is the step that begins a response |
| UploadGuard.UploadBodyAdmission.Leave | app/web/upload_guard.py:98-121 | is the end step: one release whatever the failure, and 413 only before a response began |
| Evaluation.CountIsRecovered | scripts/evaluate_extraction.py:160-161 | a count out of at most 10,000 is recovered from its rate, and from the rate of the others |
| Evaluation.CountsRecoverIff | scripts/evaluate_extraction.py:160-161 | every count out of n is recovered if and only if n is at most 10,000 |
| Evaluation.BestIsFirstGreatest | scripts/evaluate_extraction.py:97-101 | the match is the first ground truth of greatest positive overlap |
| Evaluation.OverlapIsEnough | scripts/evaluate_extraction.py:59-63 | the overlap is enough exactly if four fifths of the smaller set are shared; it is symmetric, between 0 and 1, and 1 exactly for a contained set |
| Evaluation.HitIff | scripts/evaluate_extraction.py:96-103 | a row counts as a requirement exactly if they share enough, no other shares more, and none before it as much |
| Evaluation.FoundAreHit | scripts/evaluate_extraction.py:96-106 | the found requirements are exactly the binding ones that some row counts as |
| Evaluation.CountsAreBounded | scripts/evaluate_extraction.py:93-115 | page errors are at most the matches, matches at most the rows, and found ones are binding |
| Evaluation.CountsAreNumbers | scripts/evaluate_extraction.py:93-112 | the counts are the number of rows that count as something and of those among them whose page is unknown or more than one off |
| Evaluation.ScoresAreRates | scripts/evaluate_extraction.py:113-122 | the three rates are, to four decimals, the shares of binding requirements not found, of rows without a match, and of matches misplaced |
| Evaluation.ScoreSubset | scripts/evaluate_extraction.py:91-122 | the scores of one document |
| Evaluation.CorpusTotalsAreExact | scripts/evaluate_extraction.py:159-169 | with at most 10,000 binding requirements and matches a document, totals and format sums are the exact sums of the documents' counts |
| Evaluation.CorpusTotalsAreSums | scripts/evaluate_extraction.py:159-169 | so each total is the sum over the documents of the number it stands for |
| Evaluation.CorpusRatesAreRates | scripts/evaluate_extraction.py:171-180 | the corpus rates are the three shares of the sums |
| Evaluation.FormatsAddUp | scripts/evaluate_extraction.py:162-169 | the sums of the formats add up to the totals |
| Evaluation.EvaluateCorpus | scripts/evaluate_extraction.py:147-180 | the totals and their rates, one bucket for each format that occurs, and each format's rates |

## Left out

- Lower-casing is a table from characters to strings, arbitrary but fixed on ASCII and without effect on the characters the passes look for; the context-dependent final sigma of full Unicode lower-casing is not modelled.
- Page numbers are written by any table of decimal numerals; there is only one.
- Section headings are an arbitrary list of increasing offsets inside the text. A heading at offset 0 cannot occur, because the text starts with a page marker, so the de-duplication of boundaries has nothing to do; parent sections and context summaries carry no property.
- `max_ratio` is a fraction and the ratio test is exact; floating-point rounding of `dist / len`, and of the rates before they are rounded to four decimals, is not modelled.
- The sequence matcher is any function of the two texts. That its largest blocks include the anchor of a close window is not claimed, because the program does not ensure it.
- FuzzyMatch.FuzzyContains: the set of starts is iterated in no particular order, and the reported best ratio is any of those seen to be best, as in the program.
- Mined items are values; the program mutates shared objects, but only their page, before anything else refers to them.
- Matrix.Matrix.PatchRow: ownership, entitlement and the rate limit are one flag; the correction log names the row and texts, not the account.
- Reprocess.SettledReprocessPreserves: a line restored between the runs whose key happens to be an item's key is outside this theorem and the other ones about second runs; such a row competes with the generated one.
- Runner.Extraction.Run: conversion of the stored file to a page map is an input; cost logging and the heartbeat timestamps are not modelled.
- Transactions are taken to be atomic and serialised, in the order of their commits, with distinct creation times. In particular the advisory lock of a requeue is released before its commit, so two workers that boot together are outside the model, and Jobs.RequeuedAtMostTwice and Jobs.ErrorBranchesAreDead with them. The deletion of an rfp or account and jobs without an rfp are not modelled; retention appears as two steps that may drop a source file or expire a failed rfp at any time.
- Queue.QueueDb.ProcessUpload: type detection, the encryption probe and the archive checks are inputs; file storage is not modelled.
- Jobs.StepKeepsInv: the stage and state changes a worker flushes but does not commit before it finishes are not visible in the committed states.
- The webhook's signature check and JSON decoding are one flag. An account id that names no account is rejected by a foreign key that is not modelled.
- Billing.CancellationIsTerminal: a deletion that arrives before its checkout finds no plan and leaves no tombstone, so it blocks nothing; accordingly the theorem starts at the tombstone.
- RateLimit.AtMostTwiceTheLimit: is about one key with a fixed limit and window, a clock that does not go back, and no reset in between.
- The problem document of a refused upload and the header syntax of the content length are not modelled; the length is the list of values found, each readable or not.
- Evaluation.EvaluateCorpus: the manifest, file look-up and tokenisation are inputs, and documents without file or ground truth are left out of the list.
- `visible_rows` (app/billing/entitlement.py:61-78) shows an account without entitlement the first ten rows by number and the count of the others. It is not modelled.
- PDF, DOCX and OCR handling, model provider adapters, the procurement feed, mail, sessions, passwords and HTML routes: foreign tools or plumbing without properties of this kind.
