# PolicyAI: a verified model of its algorithms and protocols

PolicyAI is a set of services that ingest policy documents, search them, let a language-model agent
write reports about them, and check the citations of those reports. This project models the parts of
it that compute something or keep a protocol, and proves what they promise. Each file is one
component; `dafny verify dfyconfig.toml` checks everything.

| file | component |
|---|---|
| Text, Sorting, FirstSeen, Options | characters, stripping, splitting and searching; a stable sort; first-seen order; optional values |
| Packing, Optimality, Merging, TextOverlap | greedy packing under a limit, the proof that no cut does better, and the merging rule and the overlap of both chunkers |
| ParagraphChunker, ParagraphChunks | the paragraph-level chunker, and how its chunks come apart again |
| SectionDetection, SectionSlicing, SectionTitles, SectionChunker | the section-level chunker |
| ChunkMetadata | mapping a chunk back to pages and section |
| CircuitBreaker, RetryLoop, RouterRuns, RequestCourse | the LLM router: breaker, one request's retry loop, all interleavings of requests, and each request's course in them |
| TokenRefresh | the browser client's token refresh queue |
| TaskLifecycle | create, cancel, retry and background agent runs of the orchestration service |
| AgentLoop, AgentContent | the agent's plan-and-execute loop, its state and its tool retries, and what a finished run holds |
| RateLimiter | the gateway's GET, SETEX, INCR limiter |
| Highlighting, HighlightStrings | the knowledge base's highlights, as spans and as the string that is sent |
| HybridSearch, Embedding | its reciprocal rank fusion and paging, and the caching embedder |
| CitationMarks, CitationParser, CitationVerifier | citation marks in text, their parsing and their verification |
| Footnotes | the three footnote numberings |

Components that change state are classes and loops, proved against a function of the same steps;
what is promised is then proved about that function. Protocols are state machines whose steps run
from one `await` to the next, and the results hold for every interleaving. Token counts, similarity,
tokenization, the number parser, heading levels, digit classes and lower-casing are function
parameters, so the results hold for all of them. Scores and times are exact reals.

## Where the code differs from its comments

The model follows the code. In these places that is not what the comments or names say:

- A cancel during an agent run does not last: `_run_agent` writes its final status without checking
  the transition. A cancel lasts exactly when the run had not started
  (`TaskLifecycle.CancelIsFinalIffNotStarted`).
- The request that tests a half-open breaker does not decide alone. Every request that arrives is let
  through, and the first outcome recorded decides, even that of a request from before the breaker
  opened (`CircuitBreaking.FirstOutcomeDecides`, `CircuitBreaking.OutcomeDecidesIff`); a run in which
  a successful test leaves the breaker open is `RouterRuns.ProbeIsOverruled`.
- The last two `except` clauses of the retry loop never run, so an unavailable model or a failed
  authentication is retried (`RetryLoop.LastClausesNeverRun`).
- Two parse failures end an agent run even when they are not consecutive
  (`AgentLoop.FatalIffTwoFailures`, `AgentLoop.SecondFailureIsFatal`), and at the last iteration the
  output is forced twice, because a forced output leaves no record
  (`AgentLoop.ForcedIffNotFormatted`). A `format_output` that got an error from the output service
  counts as finished; when that leaves a run without output is `AgentLoop.ErrorCountsAsFormatted`.
- A refresh that succeeds with an empty token leaves queued requests waiting for ever
  (`TokenRefresh.EmptyTokenLosesRequest`).
- Each request that reads a missing counter before the first SETEX resets it, so n of them can admit
  n times the limit (`RateLimiter.BoundIsReached`), and a limit of 0 admits one request
  (`RateLimiter.SequentialIsExact`). An INCR after the key expired makes a counter that never expires:
  when the limiter then admits nobody ever again is `RateLimiter.StuckIff`, and for which limits a run
  can get there is `RateLimiter.CanStickIff`.
- The total of a hybrid search is taken before the `top_k` cut (`HybridSearch.TotalIsReachableIff`).
- An overlap of 0 tokens means the default, which is felt from two chunks on
  (`ParagraphChunker.ZeroOverlapIsDefault`).
- The PDF parser leaves every section start at 0 for the chunker to set, and the chunker does not set
  it, so the whole text stands under the last title (`SectionSlicing.AllAtZeroIsOneSection`).
- When sections are not listed in order, front matter can repeat text
  (`SectionSlicing.SectionTextsConserve`), and a merged chunk takes a later title when its first one
  is empty (`SectionChunker.MergedTitleIsFirst`); with detected sections neither happens
  (`SectionSlicing.DetectedSectionsConserve`, `SectionChunker.DetectedChunkTitles`).
- The embedder matches vectors to texts by position only, so a batch without an answer gives later
  texts' vectors to earlier texts and stores them. Texts get their own vectors exactly when every
  batch is answered (`Embedding.OwnExactlyWhenAnswered`, `Embedding.CoherentExactlyWhenAnswered`).
- A citation mark with a sentence end inside its brackets is lost (`CitationParser.MarksSurviveIff`),
  and the error for an empty document id or page range is never reported (`CitationMarks.ParsesIff`).
- The page overlap can be negative when a chunk's pages run backwards
  (`CitationVerifier.OverlapInUnitIff`).
- Confidence uses `>=` where the comment says that similarity exceeds the threshold
  (`CitationVerifier.ThresholdIsEnough`).
- The highlighted string does not tell markers from text that spells them: when it does determine the
  text and its highlights is `HighlightStrings.OnlyReadingIff`, and texts without markers are never
  confused (`HighlightStrings.MarkerFreeIsUnambiguous`).

## Model

| member | source | states |
|---|---|---|
| Packing.GreedyFromStart | services/document-service/document_service/chunker/paragraph_splitter.py:129-150 | The packing loop cuts the pieces into contiguous, non-empty groups that lose and reorder nothing, each within the limit or a single piece |
| Optimality.GreedyIsOptimal | services/document-service/document_service/chunker/paragraph_splitter.py:129-150 | No other cutting of the pieces into contiguous groups that fit has fewer groups |
| Packing.GreedyIsFull | services/document-service/document_service/chunker/paragraph_splitter.py:135-145 | Every group but the last is full: the first piece of the next group would not have fitted |
| Merging.BlocksKeepItems | services/document-service/document_service/chunker/paragraph_splitter.py:80-115 | The merging loop packs exactly the items that have tokens, each once and in order |
| Merging.BlocksArePacked | services/document-service/document_service/chunker/paragraph_splitter.py:80-115 | No chunk is empty, every running total is at most max(target, min + max - 1), and a chunk is closed early only by an oversized item, otherwise only once it has the minimum and the next item would pass the target |
| Merging.BlocksAreFormed | services/document-service/document_service/chunker/paragraph_splitter.py:102-110 | An item joins an open chunk only while that is below the minimum or stays within the target with it, and is never oversized |
| Merging.PacksIff | services/document-service/document_service/chunker/paragraph_splitter.py:80-115 | The loop's blocks are the only list of blocks that holds the items with tokens in order, grows only by that rule and closes only when it must |
| ParagraphChunker.BreakIsLongestMatch | services/document-service/document_service/chunker/paragraph_splitter.py:34 | The paragraph break found at a position is the longest match of the pattern there |
| ParagraphChunker.ParagraphsAreFaithful | services/document-service/document_service/chunker/paragraph_splitter.py:21-37 | Paragraphs keep all visible text in order, are stripped and not empty, and contain no paragraph break |
| ParagraphChunker.CutAtBreaks | services/document-service/document_service/chunker/paragraph_splitter.py:21-37 | The text is the pieces with a paragraph break between each two: it is cut at breaks only |
| ParagraphChunker.SplitSentences | services/document-service/document_service/chunker/paragraph_splitter.py:153-164 | The loop over the split parts returns the sentences |
| ParagraphChunker.SentencesAreFaithful | services/document-service/document_service/chunker/paragraph_splitter.py:153-164 | Sentences keep all visible text, there is always one, and none runs past a boundary character unless the text is blank |
| ParagraphChunker.SegmentsCutIff | services/document-service/document_service/chunker/paragraph_splitter.py:153-164 | The segments of a text are cut after each boundary character and nowhere else |
| ParagraphChunker.SentencesAreSegments | services/document-service/document_service/chunker/paragraph_splitter.py:153-164 | The sentences are those segments, stripped and without blank ones, or the text itself when all are blank |
| ParagraphChunker.SplitOversizedParagraph | services/document-service/document_service/chunker/paragraph_splitter.py:129-150 | An oversized paragraph becomes the joined greedy groups of its sentences |
| ParagraphChunker.ExtractOverlap | services/document-service/document_service/chunker/paragraph_splitter.py:167-185 | The loop over the separators computes the overlap |
| TextOverlap.CutAtSeparator | services/document-service/document_service/chunker/paragraph_splitter.py:179-183 | The loop returns what follows the first separator found far enough, or everything |
| TextOverlap.CutIsAfterFirst | services/document-service/document_service/chunker/paragraph_splitter.py:179-183 | The cut comes right after the first occurrence of the first separator listed whose first occurrence lies past the given index; when there is none nothing is cut |
| TextOverlap.LastCharsAreEnd | services/document-service/document_service/chunker/paragraph_splitter.py:172-177 | The last n characters are the end of the text, n of them or as many as there are |
| ParagraphChunker.SeparatorsInOrder | services/document-service/document_service/chunker/paragraph_splitter.py:179 | The separators and the order they are tried in |
| ParagraphChunker.OverlapIsCut | services/document-service/document_service/chunker/paragraph_splitter.py:167-185 | Of the last 3 * overlap_tokens characters, the overlap is what follows the first occurrence of the first separator found past their start, stripped |
| ParagraphChunker.OverlapIsTail | services/document-service/document_service/chunker/paragraph_splitter.py:167-185 | The overlap is a contiguous piece of the text that ends where only white space is left, within its last 3 * overlap_tokens characters |
| ParagraphChunker.PackParagraphs | services/document-service/document_service/chunker/paragraph_splitter.py:80-115 | The paragraph loop with its flush cases emits the rendered blocks, which pack the paragraphs: each grows and closes by the rule |
| ParagraphChunker.OverlapKeepsChunks | services/document-service/document_service/chunker/paragraph_splitter.py:117-125 | Each chunk still ends with its original chunk; before it stand a blank line and a tail of the previous plain chunk |
| ParagraphChunker.ChunkParagraphLevel | services/document-service/document_service/chunker/paragraph_splitter.py:40-126 | The whole chunker is split, pack and overlap with the configured defaults, where 0 also means the default |
| ParagraphChunker.ChunksConserveText | services/document-service/document_service/chunker/paragraph_splitter.py:40-126 | Before overlap, the visible text of all chunks in order is that of the input |
| ParagraphChunks.MergedChunkParagraphs | services/document-service/document_service/chunker/paragraph_splitter.py:21-126 | A chunk of merged paragraphs can be taken apart again: its own paragraphs are exactly those merged into it |
| ParagraphChunks.OversizedChunks | services/document-service/document_service/chunker/paragraph_splitter.py:129-150 | An oversized paragraph becomes all its sentences in order, in runs joined with single spaces that fit, and no cut that fits has fewer |
| ParagraphChunker.ZeroOverlapIsDefault | services/document-service/document_service/chunker/paragraph_splitter.py:70-73 | An overlap of 0 behaves as the default overlap of 50 tokens, which leaves the chunks as they are exactly when there is at most one |
| SectionDetection.LocatedInOrder | services/document-service/document_service/chunker/section_splitter.py:42-58 | Sections located on lines have strictly increasing offsets |
| SectionDetection.LocatedOnLine | services/document-service/document_service/chunker/section_splitter.py:67-87 | Every section found is that of some line, at that line's offset |
| SectionDetection.LineIsLocated | services/document-service/document_service/chunker/section_splitter.py:67-87 | Every line that counts as a heading has its section |
| SectionDetection.LineStandsAtOffset | services/document-service/document_service/chunker/section_splitter.py:45-58 | The running character offset is the true position of the line in the text |
| SectionDetection.DetectSections | services/document-service/document_service/chunker/section_splitter.py:28-64 | Parser titles are located line by line; when none is found, headings are |
| SectionDetection.ScanTitles | services/document-service/document_service/chunker/section_splitter.py:49-57 | On one line the first matching title is recorded, and only if no section has this offset yet |
| SectionDetection.TitleInIsFirst | services/document-service/document_service/chunker/section_splitter.py:47-50 | The title recorded on a line is that of the first given section whose non-empty title occurs in the stripped line, and none is when no title does |
| SectionDetection.TitlesAreUsedIff | services/document-service/document_service/chunker/section_splitter.py:42-64 | The given titles are used exactly when one of them occurs in some line, and headings otherwise |
| SectionDetection.DetectHeadings | services/document-service/document_service/chunker/section_splitter.py:67-93 | Headings at their line offsets, or one section for a document that is not blank |
| SectionDetection.DetectedInOrder | services/document-service/document_service/chunker/section_splitter.py:28-93 | Whatever the parser gives and counts as a heading, detected offsets increase strictly |
| SectionDetection.NothingDetectedIff | services/document-service/document_service/chunker/section_splitter.py:28-93 | Nothing is detected exactly in a blank text |
| SectionDetection.DetectedStartsLine | services/document-service/document_service/chunker/section_splitter.py:28-93 | Each detected section starts at the start of the text or right after a newline |
| SectionSlicing.SplitBySections | services/document-service/document_service/chunker/section_splitter.py:226-252 | The sorted sections' slices, stripped, with front matter before the first listed section |
| SectionSlicing.SlicesCoverTail | services/document-service/document_service/chunker/section_splitter.py:234-244 | The slices of the sorted sections hold all visible text from the least offset on |
| SectionSlicing.FirstIsLeast | services/document-service/document_service/chunker/section_splitter.py:234-235 | Sorting puts the section with the least offset first |
| SectionSlicing.SectionTextsConserve | services/document-service/document_service/chunker/section_splitter.py:226-252 | Slicing keeps the visible text exactly when nothing visible stands between the section that starts first and the one listed first, or nothing visible follows the least offset |
| SectionSlicing.DetectedSectionsConserve | services/document-service/document_service/chunker/section_splitter.py:28-93 | For detected sections, slicing always keeps all visible text in order |
| SectionSlicing.TiedSectionIsSkipped | services/document-service/document_service/chunker/section_splitter.py:234-244 | A section that starts where the next one does gets no slice |
| SectionSlicing.AllAtZeroIsOneSection | services/document-service/document_service/parsers/pdf_parser.py:113-115 | When every start is 0, as the parser leaves it, the whole text stands under the title of the section listed last |
| SectionTitles.DetectedSlices | services/document-service/document_service/chunker/section_splitter.py:28-252 | Each detected section has exactly one slice, in order and up to the start of the next, under its own title, and the title occurs in it |
| SectionChunker.SplitLargeSection | services/document-service/document_service/chunker/section_splitter.py:255-276 | The loop over the paragraphs of a large section emits the greedy groups under its title |
| SectionChunker.LargeSectionIsExact | services/document-service/document_service/chunker/section_splitter.py:255-276 | Joining the pieces of a large section with a blank line gives it back exactly; each carries its title; no fitting cut has fewer pieces |
| SectionChunker.MergeSections | services/document-service/document_service/chunker/section_splitter.py:174-212 | The merging loop with its flush cases emits the rendered blocks, which pack the sections by the same rule, with the title it tracks |
| SectionChunker.MergedTitleIsFirst | services/document-service/document_service/chunker/section_splitter.py:199-209 | The title that merging tracks over a list of sections is the first one's exactly when that is not empty or all titles are |
| SectionChunker.DetectedChunkTitles | services/document-service/document_service/chunker/section_splitter.py:174-212 | For detected sections, every merged chunk of the document carries the title of its first section over its sections' texts |
| SectionChunker.OversizedKeepsTitle | services/document-service/document_service/chunker/section_splitter.py:186-197 | The chunks of an oversized section all carry its title and join to its text |
| SectionChunker.GetTextEnd | services/document-service/document_service/chunker/section_splitter.py:279-295 | The loop over the breaks computes the overlap text |
| SectionChunker.BreaksInOrder | services/document-service/document_service/chunker/section_splitter.py:290 | The breaks and the order they are tried in |
| SectionChunker.TextEndIsCut | services/document-service/document_service/chunker/section_splitter.py:279-295 | Of the last characters, the overlap is what follows the first occurrence of the first break found past the tenth of them |
| SectionChunker.OverlapKeepsSections | services/document-service/document_service/chunker/section_splitter.py:214-221 | Overlap keeps each chunk's title and text, after a blank line and an exact suffix of the previous plain chunk |
| SectionChunker.AddSectionOverlap | services/document-service/document_service/chunker/section_splitter.py:214-221 | The overlap loop computes these chunks |
| SectionChunker.ChunkSectionLevel | services/document-service/document_service/chunker/section_splitter.py:134-223 | The whole chunker: slices, merged or split, then overlapped, with the configured defaults |
| SectionChunker.SectionChunksConserve | services/document-service/document_service/chunker/section_splitter.py:171-212 | Merging and splitting keep exactly the visible text that slicing kept |
| SectionChunker.DetectedChunksConserve | services/document-service/document_service/chunker/section_splitter.py:28-212 | From detection to chunks all visible text of the document is kept in order |
| ChunkMetadata.FindPageRange | services/document-service/document_service/chunker/chunk_metadata.py:96-137 | The two page loops return the page range of the chunk's first occurrence |
| ChunkMetadata.PageStandsAtOffset | services/document-service/document_service/parsers/pdf_parser.py:83-109 | In pages joined by blank lines each page stands at the offset that the page loops add up |
| ChunkMetadata.OnePage | services/document-service/document_service/chunker/chunk_metadata.py:111-116 | A position belongs to at most one page with its separator |
| ChunkMetadata.RangeHoldsChunk | services/document-service/document_service/chunker/chunk_metadata.py:96-137 | For such a text, the range names the pages holding the first and the last character of the chunk's first occurrence |
| ChunkMetadata.RangeByPages | services/document-service/document_service/chunker/chunk_metadata.py:108-137 | Whatever the text and the page numbers, the range names the pages of the first and the last character of the chunk, 1 or the start again where there is no page or its number is 0 |
| ChunkMetadata.NoRangeIff | services/document-service/document_service/chunker/chunk_metadata.py:98-106 | No range is reported exactly when there are no pages or the text does not contain the chunk |
| ChunkMetadata.RangeRunsForwards | services/document-service/document_service/chunker/chunk_metadata.py:96-137 | When page numbers do not decrease, page_start <= page_end for every chunk and text |
| ChunkMetadata.FindSectionTitle | services/document-service/document_service/chunker/chunk_metadata.py:140-167 | The title of the latest section among those listed before the first one past the chunk |
| ChunkMetadata.BeforeIsLongest | services/document-service/document_service/chunker/chunk_metadata.py:157-165 | The sections considered are the longest stretch at the front of the list in which none starts past the chunk |
| ChunkMetadata.BeforeOfOrdered | services/document-service/document_service/chunker/chunk_metadata.py:157-165 | For sections listed in order, the early stop skips none that starts by the chunk |
| CircuitBreaking.CircuitBreaker.Transition | services/llm-router/llm_router/routing/circuit_breaker.py:67-77 | OPEN becomes HALF_OPEN once the recovery time has passed, and nothing else changes |
| CircuitBreaking.CircuitBreaker.IsOpen | services/llm-router/llm_router/routing/circuit_breaker.py:56-65 | Reading the state first makes the transition, then tells whether it is open |
| CircuitBreaking.CircuitBreaker.RecordSuccess | services/llm-router/llm_router/routing/circuit_breaker.py:79-86 | A success clears the count and closes a half-open breaker |
| CircuitBreaking.CircuitBreaker.RecordFailure | services/llm-router/llm_router/routing/circuit_breaker.py:88-109 | A failure is counted, and opens a half-open breaker or one that reaches the threshold |
| CircuitBreaking.CircuitBreaker.Reset | services/llm-router/llm_router/routing/circuit_breaker.py:111-117 | A manual reset closes the breaker and clears the count |
| CircuitBreaking.CountIsExact | services/llm-router/llm_router/routing/circuit_breaker.py:79-117 | In every run the count is the failures since the last success or reset, and a closed breaker is below its threshold |
| CircuitBreaking.OpensAtThreshold | services/llm-router/llm_router/routing/circuit_breaker.py:88-109 | A closed breaker opens exactly at the failure that completes threshold failures without a success or reset between them |
| CircuitBreaking.StaysOpen | services/llm-router/llm_router/routing/circuit_breaker.py:67-109 | An open breaker stays open until its recovery time has passed, whatever late requests record |
| CircuitBreaking.RecoveryStartsAtOpening | services/llm-router/llm_router/routing/circuit_breaker.py:67-109 | A breaker that opens, from closed or half-open, counts its recovery time from the failure that opened it |
| CircuitBreaking.NothingPassesUntilRecovery | services/llm-router/llm_router/routing/circuit_breaker.py:67-109 | From the failure that opens it on, nothing is let through for the whole recovery time, whatever late requests record |
| CircuitBreaking.LateFailureRestartsIff | services/llm-router/llm_router/routing/circuit_breaker.py:88-109 | A late failure on an open breaker starts the recovery time anew exactly when the failures since the last success reach the threshold again |
| CircuitBreaking.LastFailureIsKept | services/llm-router/llm_router/routing/circuit_breaker.py:88-117 | The time stamp kept is that of the last failure since the last manual reset |
| CircuitBreaking.RefusedIff | services/llm-router/llm_router/routing/circuit_breaker.py:56-77 | A request is refused exactly while the breaker is open and its recovery time has not passed |
| CircuitBreaking.HalfOpenAdmitsAll | services/llm-router/llm_router/routing/circuit_breaker.py:56-77 | Half-open lets every arriving request through, however many there are |
| CircuitBreaking.FirstOutcomeDecides | services/llm-router/llm_router/routing/circuit_breaker.py:79-109 | From half-open the first outcome recorded decides, whoever records it: closed exactly after a success, open exactly after a failure |
| CircuitBreaking.OutcomeDecidesIff | services/llm-router/llm_router/routing/circuit_breaker.py:67-109 | The outcome of the request that found the breaker half-open decides the state exactly when the breaker is still half-open then, or was closed meanwhile and one more failure reaches the threshold |
| CircuitBreaking.LateOutcomeOverrules | services/llm-router/llm_router/routing/circuit_breaker.py:67-109 | After a late failure the probe's success leaves the breaker open; after a late success its failure leaves it closed exactly when the threshold is at least 2 |
| RetryLoop.LastClausesNeverRun | services/llm-router/llm_router/app.py:428-445 | The clauses for an unavailable model and failed authentication are shadowed by the adapter error clause before them |
| RetryLoop.RetryKeepsLooping | services/llm-router/llm_router/app.py:380-436 | Every branch that goes round again stays within the retry limits |
| RetryLoop.TimesIsProduct | services/llm-router/llm_router/app.py:405-432 | The repeated sums in the bounds are products |
| RetryLoop.RetryIsBounded | services/llm-router/llm_router/app.py:374-436 | For every sequence of outcomes: at most M + 2 adapter calls, where M is the larger retry limit, an end that is not a retry, and at most the exact sleep, base * (2^R - 1) + linear * ((R + 1) + ... + M) + linear for a rate-limit allowance of R, which is at most base * (2^M - 1) + linear |
| RetryLoop.WorstReachesBounds | services/llm-router/llm_router/app.py:374-436 | Some run makes exactly M + 2 calls and sleeps exactly that long, whichever limit is larger |
| RetryLoop.LoopEndsAtFirst | services/llm-router/llm_router/app.py:374-445 | The loop ends at the first call that is answered, raises something unexpected, times out for the second time or has used up its retries, with the status of that outcome, and has slept what each call before it asks for |
| RetryLoop.LocalIsAskedIff | services/llm-router/llm_router/app.py:344-369 | The local model is asked exactly for a low-sensitivity request to Claude that was refused or whose last call ended in a rate limit or another adapter error, never after a time-out |
| RetryLoop.ReplyByOutcome | services/llm-router/llm_router/app.py:340-469 | The reply by the last outcome: 504, 429 or 502, the local answer where it was asked, and 503 when refused or the local model failed |
| RetryLoop.Router.ExecuteWithRetry | services/llm-router/llm_router/app.py:325-445 | Breaker check, loop, recorded outcome, fallback and reply, and that the other breaker changes only through the fallback |
| RetryLoop.Router.CallWithRetry | services/llm-router/llm_router/app.py:374-445 | The loop computes its specification and records one outcome at its end |
| RetryLoop.Router.TryOnce | services/llm-router/llm_router/app.py:379-445 | One pass through the try statement decides and records as its branches do |
| RetryLoop.Router.FallbackToLocal | services/llm-router/llm_router/app.py:448-469 | The fallback records its outcome on the local breaker and answers 503 when it fails |
| RouterRuns.EachRequestRecordsOnce | services/llm-router/llm_router/app.py:340-470 | In every interleaving a request that passed its breaker and whose own call is over has recorded exactly one outcome, the true one, on its own breaker, and the fallback at most one on the local breaker |
| RouterRuns.BreakersTrackLogs | services/llm-router/llm_router/routing/circuit_breaker.py:79-117 | In every interleaving each breaker counts the failures recorded since the last success or reset, and is below its threshold while closed |
| RouterRuns.OpensAfterFailedRequests | services/llm-router/llm_router/app.py:340-470 | A breaker goes from closed to open only after threshold failures in a row, of that many different requests |
| RouterRuns.HalfOpenStep | services/llm-router/llm_router/routing/circuit_breaker.py:56-109 | In any interleaving a half-open breaker lets its requests through and the first outcome recorded on it decides, whichever request records it |
| RouterRuns.ProbeIsOverruled | services/llm-router/llm_router/app.py:340-445 | For every threshold, recovery time and retry policy there is a run in which the request that found the breaker half-open succeeds and leaves it open |
| RequestCourse.RequestsKeepCourse | services/llm-router/llm_router/app.py:340-470 | In every interleaving a request goes on while none of its calls has ended the loop, stops at the first that does, and asks the local model or ends as that call came out |
| RequestCourse.EndedAsLoop | services/llm-router/llm_router/app.py:374-445 | A request whose own calls are over has made exactly the calls of the retry loop on its own and ended with its verdict |
| RequestCourse.MayFallBackIff | services/llm-router/llm_router/app.py:340-369 | Only a request that arrived for Claude with low sensitivity may be sent to the local model |
| TokenRefresh.AuthClient.RunQueue | frontend/src/api/client.ts:46-55 | Draining the queue settles each waiting request once, or none when there is neither error nor token |
| TokenRefresh.AuthClient.OnUnauthorized | frontend/src/api/client.ts:63-93 | A 401 queues behind a refresh under way, starts one, or rejects when there is no refresh token |
| TokenRefresh.AuthClient.OnRefreshed | frontend/src/api/client.ts:95-115 | A successful refresh stores the tokens, drains the queue and clears the flag |
| TokenRefresh.AuthClient.OnRefreshFailed | frontend/src/api/client.ts:107-115 | A failed refresh rejects the queue, drops the tokens and clears the flag |
| TokenRefresh.EveryRunKeepsInvariant | frontend/src/api/client.ts:40-116 | In every interleaving at most one refresh is in flight, the queue is empty whenever none is, and requests that left the queue were settled once, all of one refresh alike |
| TokenRefresh.AllSettledOnce | frontend/src/api/client.ts:40-116 | While refreshes give non-empty tokens, whenever none is under way every request ever queued has been settled exactly once, by the refresh it waited for |
| TokenRefresh.EmptyTokenLosesRequest | frontend/src/api/client.ts:46-55 | A request whose refresh ends with an empty token is never settled in any continuation |
| TokenRefresh.RefreshStartsIff | frontend/src/api/client.ts:63-116 | In every run a refresh starts exactly at a 401 that is neither a retry nor an authentication request, while none is under way and a refresh token is stored, and ends exactly when its call does |
| TokenRefresh.QueuedIff | frontend/src/api/client.ts:70-83 | A request joins the queue, at its end, exactly at such a 401 while a refresh is under way, and only the end of a refresh takes requests out |
| TokenRefresh.StoredTokens | frontend/src/api/client.ts:88-115 | After a successful refresh exactly its two tokens are stored, after a failed one none, after a 401 without a refresh token no access token, and nothing else changes them |
| TaskLifecycle.Orchestrator.CreateTask | services/orchestration-service/orchestration_service/app.py:189-216 | A created task is pending with one run scheduled |
| TaskLifecycle.Orchestrator.CancelTask | services/orchestration-service/orchestration_service/app.py:292-310 | A cancel succeeds exactly where the table allows it, and otherwise changes nothing |
| TaskLifecycle.Orchestrator.RetryTask | services/orchestration-service/orchestration_service/app.py:316-347 | A retry succeeds exactly on a failed task and schedules a run |
| TaskLifecycle.Orchestrator.StartRun | services/orchestration-service/orchestration_service/app.py:491-506 | A run starts unless the table forbids running, in which case it ends |
| TaskLifecycle.Orchestrator.EndLoop | services/orchestration-service/orchestration_service/app.py:532-573 | The end of the agent loop stores the output and writes the final status, forces output after a time-out, or fails the task |
| TaskLifecycle.Orchestrator.EndForced | services/orchestration-service/orchestration_service/app.py:535-566 | After the forced output the run finishes the same way |
| TaskLifecycle.EveryRunKeepsInvariant | services/orchestration-service/orchestration_service/app.py:190-573 | In every interleaving a task has at most one live run, a failed or completed task has none, and a completed task has its output |
| TaskLifecycle.CancelIsFinalIffNotStarted | services/orchestration-service/orchestration_service/app.py:491-573 | A cancelled task stays cancelled in every continuation exactly when its agent had not started |
| TaskLifecycle.ChangesFollowTable | services/orchestration-service/orchestration_service/app.py:559-570 | Every status change is allowed by the table, except that a run which ends after a cancel overwrites it |
| TaskLifecycle.TerminalIsStuck | services/orchestration-service/orchestration_service/status_machine.py:15-45 | A status is terminal exactly when the table allows no change from it |
| TaskLifecycle.FinalStatusIff | services/orchestration-service/orchestration_service/app.py:532-573 | In every run a task becomes completed exactly when its agent returns without a fatal error, and failed exactly when it returns with one or its loop breaks off, cancelled meanwhile or not |
| TaskLifecycle.OtherStatusIff | services/orchestration-service/orchestration_service/app.py:189-347 | It becomes pending, running or cancelled exactly by its creation, by the start of its agent or a retry, and by a cancel while pending or running |
| TaskLifecycle.OutputIff | services/orchestration-service/orchestration_service/app.py:541-557 | An output is stored exactly when the agent returns |
| TaskLifecycle.LiveRunsMove | services/orchestration-service/orchestration_service/app.py:190-573 | In every run the live run of a task is scheduled, enters the loop, goes on to the forced output and ends by exactly these events |
| TaskLifecycle.AllowedIffHappens | services/orchestration-service/orchestration_service/status_machine.py:15-45 | Apart from overwritten cancellations, the table allows exactly the changes that some run makes |
| RateLimiter.TokenBucketRateLimiter.IsAllowed | api-gateway/app/middleware/rate_limit.py:58-83 | One undisturbed call: the counter afterwards, the verdict and the remaining count |
| RateLimiter.CallIsGetThenStep | api-gateway/app/middleware/rate_limit.py:69-83 | The undisturbed call is the request's GET and then SETEX or INCR of the interleaved model |
| RateLimiter.SequentialIsExact | api-gateway/app/middleware/rate_limit.py:58-83 | One after the other exactly min(n, limit) of n requests are admitted, and a limit of 0 still admits one |
| RateLimiter.RemainingIsWhatIsLeft | api-gateway/app/middleware/rate_limit.py:58-83 | The remaining count a call reports is how many more undisturbed calls will be admitted |
| RateLimiter.AdmittedPerCounter | api-gateway/app/middleware/rate_limit.py:58-83 | In every interleaving, with expiry, at most limit requests are admitted for each counter made |
| RateLimiter.AdmittedPerSetEx | api-gateway/app/middleware/rate_limit.py:58-83 | Within one window at most limit requests are admitted for each SETEX, so at most limit with one initialiser |
| RateLimiter.BoundIsReached | api-gateway/app/middleware/rate_limit.py:70-74 | When n requests GET before the first SETEX, limit * n can be admitted: the bound cannot be lowered |
| RateLimiter.StuckIff | api-gateway/app/middleware/rate_limit.py:58-83 | No continuation admits anybody exactly when the counter is full, has no time to live and nobody is about to reset it |
| RateLimiter.CanStickIff | api-gateway/app/middleware/rate_limit.py:58-83 | Some run gets stuck like that exactly when the limit is at least 2 |
| RateLimiter.ExpiryBeforeIncr | api-gateway/app/middleware/rate_limit.py:70-83 | How it starts: the key expires between a GET and its INCR, and comes back without a time to live |
| Highlighting.FindHighlightSpans | services/kb-service/kb_service/tokenizer.py:84-122 | The spans are the merged, sorted occurrences of the tokens, none for an empty text or query |
| Highlighting.FindAll | services/kb-service/kb_service/tokenizer.py:102-108 | The scan for one token finds all its occurrences, overlapping ones too |
| Highlighting.Merge | services/kb-service/kb_service/tokenizer.py:110-122 | The merge loop that overwrites its last span computes the merged list |
| Highlighting.HighlightsCoverOccurrences | services/kb-service/kb_service/tokenizer.py:84-122 | Spans are sorted with strict gaps and cover an index exactly when some token occurrence does |
| Highlighting.CanonicalIsUnique | services/kb-service/kb_service/tokenizer.py:110-122 | Two lists in that form covering the same indices are equal |
| Highlighting.HighlightsIgnoreTokenOrder | services/kb-service/kb_service/tokenizer.py:84-122 | The spans do not depend on the order, repeats or case of the tokens |
| Highlighting.HighlightsInText | services/kb-service/kb_service/tokenizer.py:84-122 | Spans stay inside the text |
| Highlighting.ApplyHighlight | services/kb-service/kb_service/tokenizer.py:125-142 | The output is the text with markers around the sorted spans |
| Highlighting.HighlightingIsReversible | services/kb-service/kb_service/tokenizer.py:125-142 | From the markers and characters both the text and the spans are recovered |
| HighlightStrings.RenderIsInjective | services/kb-service/kb_service/tokenizer.py:125-142 | Marks that spell no marker in characters are determined by the string they are written as |
| HighlightStrings.OnlyReadingIff | services/kb-service/kb_service/tokenizer.py:125-142 | The string determines the text and the spans exactly when nothing is highlighted and the text spells no pair of markers |
| HighlightStrings.MarkerFreeIsUnambiguous | services/kb-service/kb_service/tokenizer.py:125-142 | Among texts that contain neither marker the string determines the text and the spans |
| HighlightStrings.SentTellsMarkerFree | services/kb-service/kb_service/tokenizer.py:84-142 | So what is sent for such a text tells the text and its highlights, whatever the queries were |
| HighlightStrings.HighlightIsAmbiguous | services/kb-service/kb_service/tokenizer.py:84-142 | Whenever a query highlights anything, another text under an empty query is sent as the same string |
| HybridSearch.Fuse | services/kb-service/kb_service/hybrid_search.py:212-251 | The two dictionary loops and the sort compute the ranked hits with their fused scores |
| HybridSearch.FusedIsRanking | services/kb-service/kb_service/hybrid_search.py:227-251 | Each id of the two lists comes out once, scores do not increase, ties keep the order of first appearance |
| HybridSearch.FusedHit | services/kb-service/kb_service/hybrid_search.py:227-251 | A fused hit has the payload of the first hit with its id, from the first list if that has it, and its total score |
| HybridSearch.ScoreAtRank | services/kb-service/kb_service/hybrid_search.py:228-231 | In a duplicate-free list the hit of rank n adds 1 / (k + n) |
| HybridSearch.DominanceIsKept | services/kb-service/kb_service/hybrid_search.py:227-251 | An id above another in both lists is ranked above it |
| HybridSearch.AgreementIsRankedFirst | services/kb-service/kb_service/hybrid_search.py:212-251 | In duplicate-free lists of at most n < k + 2 ids, every id in both precedes every id in one |
| HybridSearch.AgreementThreshold | services/kb-service/kb_service/hybrid_search.py:212-251 | For n >= 2 that holds for all such lists exactly when n < k + 2 |
| HybridSearch.PagesTile | services/kb-service/kb_service/hybrid_search.py:129-137 | Pages 1 to n are the first n * page_size results in order |
| HybridSearch.AllHitsAreTopK | services/kb-service/kb_service/hybrid_search.py:124-137 | The hits that a search returns on enough pages, put together, are exactly the first top_k fused hits |
| HybridSearch.PageShows | services/kb-service/kb_service/hybrid_search.py:124-137 | Hit i of a page stands at its place in the ranking, and no page shows one past top_k |
| HybridSearch.Search | services/kb-service/kb_service/hybrid_search.py:57-127 | A hybrid search returns that page of the fused, truncated list, and the total before the top_k cut |
| HybridSearch.TotalIsReachableIff | services/kb-service/kb_service/hybrid_search.py:124-127 | The reported total is the number of hits that paging can reach exactly when the list is not longer than top_k |
| FirstSeen.FirstsInOrder | services/kb-service/kb_service/hybrid_search.py:227-244 | The keys of the filled dictionary stand in order of first appearance |
| Sorting.SortIsStable | services/kb-service/kb_service/hybrid_search.py:246-247 | The sort keeps tied elements in the order they came in |
| Sorting.SortOfSorted | services/citation-service/citation_service/formatter.py:103-105 | Sorting a list that is in order changes nothing |
| Embedding.EmbeddingClient.EmbedSingle | services/kb-service/kb_service/embedding.py:77-93 | For any API, keys and cache: a single text gets the cached vector, the API's first vector or zeros, what was fetched is stored, and the API is called once or not at all |
| Embedding.EmbeddingClient.EmbedBatch | services/kb-service/kb_service/embedding.py:95-136 | For any API, keys and cache: result i is the cached vector or the one standing at the place of text i among the uncached texts, these are stored under their texts' keys, and the API is called once for each batch |
| Embedding.BatchAgreesWithSingles | services/kb-service/kb_service/embedding.py:77-136 | With a coherent cache and a pointwise API each text of a batch gets what the single path gives it, its own embedding, whatever the batch size, repeats and cache hits; keys that do not collide keep the cache coherent |
| Embedding.SingleIsEmbedding | services/kb-service/kb_service/embedding.py:77-93 | With a coherent cache and a pointwise API a single text gets the embedding of its truncation, and the cache stays coherent |
| Embedding.EmbeddingClient.LookUp | services/kb-service/kb_service/embedding.py:105-118 | Each text is answered from the cache or has a placeholder and an entry in the uncached lists |
| Embedding.EmbeddingClient.FillIn | services/kb-service/kb_service/embedding.py:130-134 | Exactly the placeholders are filled, the j-th with the j-th vector or zeros, and each is stored under its text's key |
| Embedding.EmbeddingClient.CallInBatches | services/kb-service/kb_service/embedding.py:123-128 | The batches cover the uncached texts in order, one call each |
| Embedding.BatchAnswersArePointwise | services/kb-service/kb_service/embedding.py:123-128 | If the API embeds pointwise, the collected answers are pointwise whatever the batch size |
| Embedding.BatchCountIsCeiling | services/kb-service/kb_service/embedding.py:125 | The number of calls is the number of uncached texts over the batch size, rounded up |
| Embedding.MissingIff | services/kb-service/kb_service/embedding.py:105-118 | Exactly the truncated texts that the cache does not answer for go to the API |
| Embedding.SingleIsCached | services/kb-service/kb_service/embedding.py:77-93 | With a store, a text embedded once gets the same vector again without an API call while the store can be reached, and no other entry changes |
| Embedding.RepeatNeedsNoCall | services/kb-service/kb_service/embedding.py:95-136 | With a store, embedding the same texts again while it can be reached needs no API call |
| Embedding.AnswersMoveUp | services/kb-service/kb_service/embedding.py:123-128 | With some batches unanswered, what is collected are the embeddings of the answered texts, moved together |
| Embedding.OwnExactlyWhenAnswered | services/kb-service/kb_service/embedding.py:95-136 | If batches are answered pointwise or not at all and no embedding is zero, every text gets its own embedding exactly when every batch is answered |
| Embedding.CoherentExactlyWhenAnswered | services/kb-service/kb_service/embedding.py:130-134 | With a store the cache stays coherent exactly when every batch is answered |
| Embedding.WrongVectorIsCached | services/kb-service/kb_service/embedding.py:123-134 | A text left unanswered gets the vector of the next, which is stored under its key and given to later single calls |
| Footnotes.RefMap.SetDefault | services/output-service/output_service/markdown_gen.py:45-48 | A ref gets the next number the first time and keeps it |
| Footnotes.ReplaceToken | services/output-service/output_service/markdown_gen.py:42-50 | One match becomes its number and extends the map if it is new |
| Footnotes.ReplaceRefs | services/output-service/output_service/markdown_gen.py:39-50 | Replacing one section's marks extends the numbering by the section's new refs in order |
| Footnotes.ReplaceAll | services/output-service/output_service/docx_gen.py:73-85 | Over all sections the map numbers the refs by first appearance in the document |
| Footnotes.GenerateMarkdown | services/output-service/output_service/markdown_gen.py:80-103 | The list of the second pass has at place n the ref numbered n in the text |
| Footnotes.GenerateDocx | services/output-service/output_service/docx_gen.py:298 | Walking the map lists the refs by number |
| Footnotes.FormatMarkdown | services/citation-service/citation_service/formatter.py:66-106 | The formatter's own numbering, its replacement and its list sorted by number give the same numbers |
| Footnotes.RestoresContent | services/output-service/output_service/markdown_gen.py:39-50 | Numbers lie within the list, and replacing each by its entry gives the tokens back |
| Footnotes.SectionsAgreeWithWhole | services/citation-service/citation_service/formatter.py:66-106 | Numbering section by section and numbering the sections put together give the same text |
| CitationMarks.ParseRefMark | services/citation-service/citation_service/parser.py:89-132 | The parsing loop with its early returns computes the parsed mark |
| CitationMarks.ShapeIsEnough | services/citation-service/citation_service/parser.py:116-125 | A part of the form id:pages always has both fields, so the check for empty ones never fires |
| CitationMarks.ParsesIff | services/citation-service/citation_service/parser.py:104-132 | A mark parses exactly when it says uncertain or has a part that is not blank and all such parts have the form id:pages |
| CitationMarks.PrintedMarkParses | services/citation-service/citation_service/verifier.py:434-441 | Printed references parse back to themselves |
| CitationMarks.RoundTrip | services/citation-service/citation_service/parser.py:104-132 | For every mark that parses, its printed ref_id parses to the same references and flag, and printing again changes nothing |
| CitationMarks.ReadsBackIff | services/citation-service/citation_service/verifier.py:434-441 | The lists of references that survive printing and parsing are exactly the non-empty lists of well-formed references |
| CitationMarks.RoundTripInText | services/citation-service/citation_service/parser.py:50-54 | A mark written back in its printed form is found in text again and parses to the same references |
| CitationMarks.FoundStandsInText | services/citation-service/citation_service/parser.py:50-54 | A mark that is found stands in the text between its brackets |
| CitationParser.SplitSentences | services/citation-service/citation_service/parser.py:29-43 | The stripped, non-empty pieces between sentence ends |
| CitationParser.SentencesKeepText | services/citation-service/citation_service/parser.py:29-43 | Sentences are stripped and keep all visible text in order |
| CitationParser.CutAtEndsIff | services/citation-service/citation_service/parser.py:29-43 | The text is cut after each sentence end and nowhere else |
| CitationParser.MarksSurviveIff | services/citation-service/citation_service/parser.py:50-54 | The sentences have exactly the marks of the text if and only if no mark has a sentence end inside its brackets |
| CitationParser.MarksOfSpelled | services/citation-service/citation_service/parser.py:50-54 | In texts without opening brackets, exactly the marks between them are found, in order |
| CitationParser.ExtractRefs | services/citation-service/citation_service/parser.py:135-148 | One parsed reference for each mark found, in order |
| CitationParser.ParseSentence | services/citation-service/citation_service/parser.py:192-211 | Marks that parse become the sentence's citations in order, the others become errors |
| CitationParser.ParseText | services/citation-service/citation_service/parser.py:173-224 | Every sentence has its citations, and total_refs plus parse errors is the number of marks in the sentences |
| CitationParser.CitingAreCounted | services/citation-service/citation_service/parser.py:173-224 | sentences_with_refs is the number of sentences with a mark that parses |
| CitationParser.AcceptedIff | services/citation-service/citation_service/parser.py:196-211 | A citation is accepted exactly when it is the parse of one of the marks and has no error |
| CitationVerifier.PageIsParsed | services/citation-service/citation_service/verifier.py:31-65 | A number after any prefix without digits is read as the range of that one page |
| CitationVerifier.RangeIsParsed | services/citation-service/citation_service/verifier.py:31-65 | Two numbers with a dash between them, after such a prefix, are read as the range from the smaller to the larger |
| CitationVerifier.OverlapIsJaccard | services/citation-service/citation_service/verifier.py:91-121 | For ranges that do not run backwards the overlap is the Jaccard index of the two sets of pages |
| CitationVerifier.OverlapInUnitIff | services/citation-service/citation_service/verifier.py:91-121 | The overlap lies between 0 and 1 exactly when the chunk runs at most one page backwards or does not meet the reference |
| CitationVerifier.BuildChunkIndex | services/citation-service/citation_service/verifier.py:365-372 | The index has for every document its chunks in order |
| CitationVerifier.MatchDocRef | services/citation-service/citation_service/verifier.py:401-431 | The inner loop collects the supporting chunks and the better of the confidences |
| CitationVerifier.VerifySingle | services/citation-service/citation_service/verifier.py:374-449 | One citation: printed id, best confidence and matched chunks |
| CitationVerifier.ConfidenceIsBestPair | services/citation-service/citation_service/verifier.py:394-431 | Direct if some pair of reference and chunk is, fuzzy if none is direct and some is fuzzy, uncertain otherwise |
| CitationVerifier.DirectIff | services/citation-service/citation_service/verifier.py:394-431 | A citation is direct exactly when some chunk of a document it names holds all pages of that reference and is at least as similar as the threshold |
| CitationVerifier.FuzzyIff | services/citation-service/citation_service/verifier.py:394-431 | It is fuzzy exactly when some such chunk is similar enough but none holds the pages |
| CitationVerifier.MatchesAreSimilar | services/citation-service/citation_service/verifier.py:415-431 | The matched chunks are exactly those of the named documents that reach the threshold, with the first 200 characters and the rounded similarity |
| CitationVerifier.MatchesInOrder | services/citation-service/citation_service/verifier.py:401-431 | They come in the order in which the chunks are listed, repeats included |
| CitationVerifier.IdIdentifiesRefs | services/citation-service/citation_service/verifier.py:434-449 | Two marks that parse get the same ref_id exactly when they have the same references and flag |
| CitationVerifier.OrderIsIrrelevant | services/citation-service/citation_service/verifier.py:394-431 | The confidence does not depend on the order of the chunks or on repeats |
| CitationVerifier.ConfidenceIsMonotone | services/citation-service/citation_service/verifier.py:244-267 | A stricter threshold never raises a confidence and more chunks never lower it |
| CitationVerifier.MatchedIffNotUncertain | services/citation-service/citation_service/verifier.py:415-431 | A citation has matched chunks exactly when it is not uncertain |
| CitationVerifier.Verify | services/citation-service/citation_service/verifier.py:331-363 | All citations in order, and a summary whose parts add up to the total |
| CitationVerifier.ThresholdIsEnough | services/citation-service/citation_service/verifier.py:244-267 | A citation is more than uncertain exactly when some chunk of a document it names is at least as similar as the threshold: reaching it is enough |
| CitationVerifier.VerifyCitations | services/citation-service/citation_service/app.py:356-372 | From text to response: the citations are the parsing marks in order, each verified in its own sentence, the errors are those of the other marks in order, and these are the text's own marks when none has a sentence end inside its brackets |
| CitationVerifier.MarkComesOutAt | services/citation-service/citation_service/verifier.py:331-363 | Mark k comes out once, as a verified citation or as an error, at the place that counts the earlier marks of its kind |
| AgentLoop.AgentState.AddChunks | services/orchestration-service/orchestration_service/state.py:94-108 | Chunks with a new, non-empty id are appended in order |
| AgentLoop.AgentState.AddSection | services/orchestration-service/orchestration_service/state.py:112-116 | The section is appended and the first equal title is no longer to do |
| AgentLoop.AgentState.UpdateCitations | services/orchestration-service/orchestration_service/state.py:120-129 | Citations with an id are entered under it |
| AgentLoop.ChunksAreKept | services/orchestration-service/orchestration_service/state.py:94-108 | Exactly the ids found, other than the empty one, are added |
| AgentLoop.LastVerdictStays | services/orchestration-service/orchestration_service/state.py:120-129 | Of several verdicts on one reference the last stays |
| AgentLoop.AgentLoopRunner.PlanStep | services/orchestration-service/orchestration_service/agent_loop.py:148-218 | How each kind of model answer becomes an action, a counted failure or a fatal error |
| AgentLoop.AgentLoopRunner.RunWithTimeoutAndRetry | services/orchestration-service/orchestration_service/tools.py:94-148 | Attempts until one returns or the retries are used up, and one record |
| AgentLoop.RunToolRecords | services/orchestration-service/orchestration_service/tools.py:107-145 | The one record is a success exactly when some attempt returned |
| AgentLoop.RunToolDelivers | services/orchestration-service/orchestration_service/tools.py:107-145 | A tool call makes an output exactly when it is format_output and its first attempt to return was answered with one |
| AgentLoop.AgentLoopRunner.OneIteration | services/orchestration-service/orchestration_service/agent_loop.py:62-128 | One pass through the loop body |
| AgentLoop.AgentLoopRunner.FormatIfNeeded | services/orchestration-service/orchestration_service/agent_loop.py:130-142 | Format_output is forced as often as the two checks say, each time with the final content |
| AgentLoop.AgentLoopRunner.Run | services/orchestration-service/orchestration_service/agent_loop.py:53-144 | The whole run computes the specified loop and the forced outputs |
| AgentLoop.EveryRunKeepsInvariant | services/orchestration-service/orchestration_service/agent_loop.py:53-144 | Every run stays within its iterations with at most one record each, keeps chunk ids distinct, and has every initial title still to do as often as given less the times generated |
| AgentContent.RunEffectsIff | services/orchestration-service/orchestration_service/agent_loop.py:62-128 | The effects of a run are those of the tool attempts made in the iterations it reaches: up to the first that returns |
| AgentContent.SectionsOfRun | services/orchestration-service/orchestration_service/agent_loop.py:62-128 | A finished run holds exactly the sections its attempts wrote, in order and as often |
| AgentContent.ChunksOfRun | services/orchestration-service/orchestration_service/state.py:94-108 | A chunk is in the final state exactly when it has an id and was the first found with it |
| AgentContent.CitationsOfRun | services/orchestration-service/orchestration_service/state.py:120-129 | A citation is in the final state under an id exactly when it is the last one checked under it |
| AgentContent.HistoryOfRun | services/orchestration-service/orchestration_service/tools.py:94-148 | The history has one entry for each reached call of a tool that exists, in order, a success when some attempt returned |
| AgentLoop.RunEndsAtLast | services/orchestration-service/orchestration_service/agent_loop.py:62-128 | The last iteration of a run depends on the model's answers and the limit alone |
| AgentLoop.FatalIffTwoFailures | services/orchestration-service/orchestration_service/agent_loop.py:172-218 | A run is fatal exactly when, within the limit, two answers failed, in a row or not, before one said finish |
| AgentLoop.SecondFailureIsFatal | services/orchestration-service/orchestration_service/agent_loop.py:172-218 | The second failure ends the run and names its error, however many good answers stand between it and the first |
| AgentLoop.ForcedIffNotFormatted | services/orchestration-service/orchestration_service/agent_loop.py:130-144 | From the answers alone: nothing is forced exactly when an iteration that is reached calls format_output and an attempt returns, and it is forced twice exactly when none does and the limit is used up |
| AgentLoop.ErrorCountsAsFormatted | services/orchestration-service/orchestration_service/agent_loop.py:130-144 | A run returns with no output made and none forced exactly when it reaches an iteration that formats and none that delivers |
| AgentLoop.DeliveredIff | services/orchestration-service/orchestration_service/agent_loop.py:62-128 | The loop makes an output exactly when it reaches an iteration whose first returning attempt was answered with one |
| AgentLoop.OutputIsLost | services/orchestration-service/orchestration_service/agent_loop.py:287-291 | That happens: after answers without a choice, format_output is answered with an error and the model then says finish |

## Left out

- HTTP, Redis, database, object store and vector store clients: their answers are inputs of the model.
- The retry loop's clock: each time is an input, read once per breaker call, where the code reads it twice in a transition.
- `_get_heading_level`: the level of a line is a parameter; the results hold for any rule.
- Regular expression engines: the patterns are modelled as the matching they define, on characters. White space is the set that `strip()` and `\s` share; digits are a parameter that only has to exclude the colon.
- Unicode lower-casing that changes lengths: highlighting lower-cases character by character.
- The reranker, and the search modes with a single list.
- jieba, tiktoken, SHA-256, cosine similarity and rounding of similarities: parameters.
- Floating-point rounding of scores and waits.
- The lookup of citation data, templates and fonts around the footnote lists: only numbers, order and refs are modelled.
- Message history, progress objects, timings and argument texts of the agent; prompts and the parsing of model answers, which become kinds of answer.
- An exception in planning that is not an HTTP error, and the overall task time-out inside the loop: the run ends without returning (the task lifecycle has both as ends of the loop).
- Embedding.EmbeddingClient.EmbedBatch: for a batch size of at least 1, as configured; a write to the cache store is taken to succeed, and vectors are compared exactly.
- CitationVerifier.VerifyCitations: the refusal of a blank text comes before it, and cutting excerpts and building the response objects after it are not modelled.
- HybridSearch.AgreementIsRankedFirst: for lists without duplicates, which the two searches return.
- ParagraphChunker.ChunksConserveText: states conservation of characters other than white space, since stripping and joining change white space.
- Highlighting.FindHighlightSpans: requires that the tokenizer returns no empty token, as it filters them out.
- RateLimiter.SequentialIsExact: one window; expiry between sequential calls only starts a new count.
- CitationVerifier.Verify: similarity is a fixed function of sentence and content, so an embedding service that answers the same pair differently is not modelled.
- Role matrices, routing tables, file validation, token usage sums and in-memory index stores: finite tables and filters that a reading settles.
