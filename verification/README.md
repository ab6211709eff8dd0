# Verification of the Legal Plugin's deterministic cores

A Dafny model of the parts of the AI Contract Assistant that decide without a
language model: where an edit lands in a Word document with tracked changes, when
the document is captured, which quotes a condensed conversation may hold, which
edits and findings survive, how documents are numbered, cut up and indexed, and
what fits the context budget. `dafny verify dfyconfig.toml` checks all of it.

| files | what they model |
|---|---|
| Utf16, FoldedText, Embedding, TrackedText, SelfMatch, LiveTargets, TightPick, FoldLaws | the accepted-changes text placed inside Word's raw text, and the search stretches cut for each live occurrence |
| DocumentCapture, CaptureLaws | the one-slot capture protocol, as steps of calls, replies, continuations and timers, and as the object that takes them |
| SentenceGate, GateLaws, QuoteLines, QuoteLaws, LineForm, Compaction, HeldQuotes, CompactionOutcome, SegmentText, ConversationLog, LogLaws | condensing a conversation into verbatim quotes: the sentence gate, both validators, one compaction, and the append-only log it leaves |
| JsonText, JsonMeaning, ScanLaws, Proposals, ProposalLaws | reading stacked edit blocks and making them applicable |
| Placeholders, PlaceholderLaws, ReviewRecall, ReviewLaws | the placeholders a stored review quotes, and the review made safe to recall |
| Bm25, Bm25Laws, Chunker, ChunkUnits, DocxParser, ChunkLaws, Numbering, NumberingLaws | the inverted index, the DOCX chunker, and paragraph numbering |
| Budget, BudgetLaws | capping the prompt and the pane's gauge |

The main results are `Embedding.Embed` and `Embedding.Sandwich`,
`LiveTargets.LiveReplaceTargets`, `PicksAreDistinct` and `PickIsTheLiveText`, the protocol
lemmas of `DocumentCapture` and `CaptureLaws`, `ConversationLog.RunsStaySound` and
`ReplayedIsUncoveredIff`, `CompactionOutcome.CondenseIs`, `GateLaws.AcceptsWhole`,
`QuoteLaws.TrustedStandsInRow`, `QuoteLines.KeptReadBack`, `JsonMeaning.RepairKeepsMeaning`, `JsonScan.StackIsSplit` and
`BothReadTheSameIff`, `Proposals.NormalizeIsIdempotent`,
`ReviewRecall.KeptAreTheRest` with `DroppedMeansFilled` and `CanGoWithIff`, `Bm25.BM25Index.Search`,
`DocxParser.Parser.Parse` with `ChunkUnits.LeavesUnderItsClauseIff`, `Numbering.MoveKeepsCounts`
with `TopNumbersDifferIff`, and `Budget.AutoNeverTurnsOn`.

Where a loop or an object changes things step by step in the program it does so
here, and is proved against a function of its inputs; the lemmas are about those
functions. The modules named `Laws`, with JsonMeaning, LineForm, HeldQuotes and
CompactionOutcome, say what those functions come to without their help: from the
characters, the events, or the stores.

What the program takes from elsewhere is a parameter: Unicode tables (`Unicode`,
`Chars`), the line shapes its regular expressions recognise (`Markdown`, `Tools`),
JSON.parse and raw_decode, Word's match list, and what the language model answered.

## Where code and comment part

The model follows the code. Each of these has a lemma that gives a concrete input,
the exact condition, or both.

- `trackedText.ts:137-140` calls the tight stretch the one with struck runs only
  inside. It need not even hold the live text (`Embedding.TightMayLoseText`); it
  does exactly when one placement fills it (`Embedding.TightHoldsTheTextIff`).
- `documentCapture.ts:133-140` says an apply never reads beside a capture in
  flight. It does when a finalize overtook that capture
  (`DocumentCapture.ApplyMayReadAlongside`, `ApplyStartsAlone`).
- `compaction.py:226-227` says every occurrence of a quote is tried. Overlapping
  ones are not (`SentenceGate.OverlapIsMissed`, `AllTriedIff`).
- A kept quote with a quote mark or space at an edge is written and read back as
  another (`QuoteLines.RoundTripIffClean`, `PeeledTextMayBeUnclean`).
- `contextGauge.ts:80-82` says nothing is left to condense after a compaction.
  Past 200 pending rows there is (`ConversationLog.PoolAfterCondensing`).
- `word.ts:872-876` says a picked match is the target. It can be part of it that no
  reading of the struck runs gives (`TightPick.TightPickMissesTheText`,
  `LiveTargets.PickIsTheLiveText`).
- `review_recall.py:203-225` says a line that shows a live placeholder is kept, and
  a span of several markers left intact. A line goes when all it stands for is
  filled, and a live label or blank on it may be none of that
  (`ReviewRecall.LiveLabelCanGo`, `BundledSpanCanGo`, `CanGoWithIff`).
- Adding a chunk id a second time leaves stale postings unless its old tokens are
  among the new (`Bm25.StalePostingDangles`, `AddAgreesIff`).
- `parseEditBlocks.ts:125` says the pane mirrors the backend. It goes on where the
  backend stops, and skips what the backend reads (`JsonScan.MalformedParts`,
  `WordBetween`, `BothReadTheSameIff`).
- `context.py:105-107` says a condensed row is never replayed. When the summaries
  cannot be read it is (`ConversationLog.CoveredRowIsReplayed`,
  `ReplayedIsUncoveredIff`).
- A part of oversized text can exceed the token limit (`Chunker.PartMayExceed`,
  `PartExceedsIff`).
- Small text held back can carry the clause that began after it
  (`ChunkUnits.LaterClauseIsCarried`, `LeavesUnderItsClauseIff`), and the clause
  number kept with it is never used (`ChunkUnits.CarriedIsCurrent`).
- The text of a heading below level 2, and of a numbered top-level heading all but
  its name, is in no chunk and no heading (`Chunker.LostIff`,
  `TopLevelLosesTheRest`).
- Decimal lists that take turns repeat numbers (`Numbering.TurnsRepeatNumbers`,
  `TopNumbersDifferIff`).
- `contextGauge.ts:58-59` says the target brings the counter below the warn line,
  and `context.py:377-379` that a success turns the offer off. At 150,000
  characters and 90 percent the target alone lands on the line, where the warning
  still shows (`Budget.TargetLeavesTheWarning`, `WarnsAfterReclaimIff`).
- A capped prompt loses the attorney's notes that followed the document
  (`Budget.CappedKeepsTheRest`, `CappedFitsIff`).

## Model

| member | source | states |
|---|---|---|
| FoldedText.FoldText | clients/word/src/trackedText.ts:72-82 | the loop builds the folding: folded units and where each came from |
| FoldedText.FoldingUnits | clients/word/src/trackedText.ts:72-82 | the index map strictly increases, every unit is the fold of the unit it names, and no two spaces stand side by side |
| FoldedText.FoldingKeeps | clients/word/src/trackedText.ts:72-82 | a unit is in the folding exactly when it is no space following a space |
| FoldedText.KeyHasVisibleEnds | clients/word/src/trackedText.ts:84-90 | a needle's key neither starts nor ends with a space and holds no kept break |
| FoldedText.HitsSound | clients/word/src/trackedText.ts:87-103 | the places counted are matches, in order, and never overlap |
| FoldedText.HitsLeftmost | clients/word/src/trackedText.ts:87-103 | greedy leftmost: a match left out overlaps a counted one before it |
| FoldedText.ScanIsHits | clients/word/src/trackedText.ts:87-103 | the spans listed are the counted places, mapped back to the source text |
| FoldedText.IndexOf | clients/word/src/trackedText.ts:91-100 | the first match at or after an index, or -1 when there is none |
| FoldedText.FindOccurrences | clients/word/src/trackedText.ts:87-103 | the indexOf loop lists exactly those spans, nothing for an empty key |
| FoldedText.OccurrencesInOrder | clients/word/src/trackedText.ts:87-103 | spans come in document order, disjoint, each starting and ending on visible text |
| FoldLaws.FoldIs | clients/word/src/trackedText.ts:57-66 | all white space folds to one space, curly quotes to straight ones, anything else to lower case; a kept break stays apart |
| FoldLaws.KeyOfNormalForm | clients/word/src/trackedText.ts:84-84 | needles with the same normal form are searched alike |
| FoldLaws.WholeWordStandsAlone | clients/word/src/trackedText.ts:87-103 | a whole word counted has no word character at either side |
| FoldLaws.StandingAloneIsCounted | clients/word/src/trackedText.ts:87-103 | and a match that has none is counted or overlaps one that is |
| Embedding.Embed | clients/word/src/trackedText.ts:110-135 | null exactly when the break-free current text is no subsequence of raw; otherwise left and right are placements and bound every placement; the backward loop, which reads raw unguarded, never leaves it |
| Embedding.PlaceLeft | clients/word/src/trackedText.ts:111-122 | the forward loop: the earliest place of each unit, or no placement exists |
| Embedding.PlaceRight | clients/word/src/trackedText.ts:123-133 | the backward loop stays inside raw whenever the forward one succeeded, and finds the latest place of each unit |
| Embedding.PlacementIsSubsequence | clients/word/src/trackedText.ts:104-110 | a placement makes the break-free text a subsequence |
| Embedding.SubsequenceIsPlacement | clients/word/src/trackedText.ts:104-110 | and a subsequence has a placement |
| Embedding.Sandwich | clients/word/src/trackedText.ts:137-161 | for every placement the tight stretch lies in the occurrence's span and the span in the wide stretch |
| Embedding.ExactWhenUnique | clients/word/src/trackedText.ts:137-161 | when both edge units have one place only, tight and wide are the true span |
| Embedding.WideHoldsTheText | clients/word/src/trackedText.ts:137-161 | the wide stretch holds the occurrence's units in order |
| Embedding.TightHoldsTheTextIff | clients/word/src/trackedText.ts:137-161 | the tight stretch holds the live text exactly when some placement puts the first unit at its latest place and the last at its earliest |
| Embedding.TightHoldsWhenAnEdgeIsUnique | clients/word/src/trackedText.ts:137-161 | one edge with a single place is enough |
| Embedding.TightMayLoseText | clients/word/src/trackedText.ts:137-140 | the tight stretch need not: raw "abacbc", current "abc" has the tight stretch "ac" |
| TrackedText.TrackedView | clients/word/src/trackedText.ts:163-172 | both foldings and the placements, or none when the texts cannot be lined up |
| TrackedText.StretchBounds | clients/word/src/trackedText.ts:141-150 | for a live part both stretches lie inside raw and the wide one is not empty |
| TrackedText.StretchesAt | clients/word/src/trackedText.ts:141-161 | offers the tight cut, then the wide one, each only where it is searchable and found at its own offset, no text twice |
| FoldLaws.SearchableIff | clients/word/src/trackedText.ts:49-53 | exactly texts of 1 to 255 characters without a line break or tab are searched for |
| FoldLaws.CutIff | clients/word/src/trackedText.ts:151-157 | a cut is offered exactly when it is searchable and a counted occurrence starts at its offset; it names that one and how many there are |
| FoldLaws.StretchesAre | clients/word/src/trackedText.ts:158-161 | the tight cut first, then the wide one unless its text is the same |
| SelfMatch.CollapseFolds | clients/word/src/normalize.ts:12-20 | collapsing white space and straightening quotes before folding changes nothing |
| SelfMatch.MatchesWhereCut | clients/word/src/trackedText.ts:151-157 | a clean cut's key matches the raw folding at the cut, ending with the cut's last unit |
| SelfMatch.CutIsPlaced | clients/word/src/trackedText.ts:151-157 | a stretch's nth names an occurrence that starts at the offset it was cut from, with nth below the total |
| SelfMatch.StretchNamesItself | clients/word/src/trackedText.ts:151-157 | for a clean cut that occurrence is the cut itself, first unit to last |
| LiveTargets.StretchesFor | clients/word/src/trackedText.ts:179-184 | the offers for the first live occurrence, or for the text as written |
| LiveTargets.StretchesForEvery | clients/word/src/trackedText.ts:185-195 | the best offer of every live occurrence that has one, in order |
| FoldLaws.FirstOffersAre | clients/word/src/trackedText.ts:179-184 | for one occurrence: those of the first live one, or the text as written once |
| FoldLaws.OfferedAsWritten | clients/word/src/trackedText.ts:173-178 | views that do not line up: the text as written, exactly when it is searchable and raw holds it as often as it is live |
| LiveTargets.LaterStartsLater | clients/word/src/trackedText.ts:185-195 | of two live occurrences the later one's stretch starts later in raw, and not before the earlier one's tight stretch ends |
| LiveTargets.OffersStartInOrder | clients/word/src/trackedText.ts:185-195 | the occurrences any two offers name start in order, and a tight one ends before the next begins, whether or not every live occurrence has an offer |
| LiveTargets.OffersAtMostLive | clients/word/src/trackedText.ts:185-195 | never more offers than live occurrences |
| LiveTargets.OffersAreConsistent | clients/word/src/word.ts:878-898 | offers with the same text agree on their count, so caching Word's matches by text is safe |
| LiveTargets.PickAll | clients/word/src/word.ts:385-395 | exactly the stretches whose text Word finds as often as raw holds it, taken literally or else, with a wildcard character, escaped, give a match, in order: entry nth of that list |
| FoldLaws.WildcardsAre | clients/word/src/word.ts:104-104 | the characters that send a search on to wildcards |
| LiveTargets.LiveReplaceTargets | clients/word/src/word.ts:878-898 | a match for every live occurrence up to the cap, each entry nth of a list of Word's with as many entries as raw has occurrences, the literal list before the escaped one; refused exactly when the text is not live, an occurrence has no offer, or Word's count differs for one |
| LiveTargets.PicksAreDistinct | clients/word/src/word.ts:878-898 | when Word's matches for the texts searched are their raw occurrences, the picks' starts strictly increase, over all the offers there are |
| LiveTargets.ExactWhenUnambiguous | clients/word/src/trackedText.ts:185-195 | edges with one place each: the best stretch is the true span |
| LiveTargets.PickIsTheOffer | clients/word/src/word.ts:878-898 | the match picked is then the very stretch that was offered |
| LiveTargets.PickIsTheLiveText | clients/word/src/word.ts:872-898 | and it is the live text's span under a reading of the struck runs exactly when that reading puts the occurrence's edges where the stretch has them; under every reading exactly when both edges have one place |
| TightPick.CutIsFound | clients/word/src/trackedText.ts:151-159 | a searchable clean cut is offered unless an earlier match of its own key reaches into it |
| TightPick.TightPickMissesTheText | clients/word/src/word.ts:872-876 | in raw "abacbc" the live "abc" is replaced by its only offer "ac", which is the live text under no reading |
| DocumentCapture.ReachableKeepsInv | clients/word/src/documentCapture.ts:107-186 | every interleaving of calls, replies, continuations and timers keeps the protocol invariant |
| DocumentCapture.StoppedIsFinal | clients/word/src/documentCapture.ts:124-129 | once capture is off no step starts a run or turns it on again |
| CaptureLaws.StoppedIff | clients/word/src/documentCapture.ts:124-129 | over every run of steps capture is off exactly when some reply turned it off |
| CaptureLaws.NoRunAfterDisabling | clients/word/src/documentCapture.ts:124-129 | after such a reply no run starts |
| CaptureLaws.LastSentIs | clients/word/src/documentCapture.ts:116-125 | what is compared before a send is what the last answered send's run had read |
| CaptureLaws.StartsIff | clients/word/src/documentCapture.ts:131-154 | a step starts a run exactly when it makes a capture, capture is on, and the slot is free or a finalize takes it |
| CaptureLaws.RunsGoTheirWay | clients/word/src/documentCapture.ts:116-129 | a run changes by its own read, reply and owner alone |
| CaptureLaws.ApplyWaitsIff | clients/word/src/documentCapture.ts:139-147 | an apply waits exactly when capture is on and the slot is taken |
| CaptureLaws.WaiterGoesOn | clients/word/src/documentCapture.ts:139-147 | one that resumes waits on for the holder, if there is one, and else no longer |
| CaptureLaws.WaitersAwaitTheHolder | clients/word/src/documentCapture.ts:139-147 | a waiter is as it was, or awaits the run that held the slot |
| DocumentCapture.OverlapIsFinalize | clients/word/src/documentCapture.ts:131-154 | runs in flight outside the slot never outnumber the finalize captures; before the first finalize at most one run is in flight |
| DocumentCapture.SlotIsFreedByItsHolder | clients/word/src/documentCapture.ts:150-153 | only the run that holds the slot frees it: an older run never frees a newer one's |
| DocumentCapture.QuietMeansFree | clients/word/src/documentCapture.ts:131-154 | when every run has settled and resumed its owner the slot is free |
| DocumentCapture.ApplyReadsAfter | clients/word/src/documentCapture.ts:133-147 | an apply's run starts only after the run that held the slot at its call has settled |
| DocumentCapture.ApplyIsNeverDropped | clients/word/src/documentCapture.ts:139-147 | a waiting apply keeps its bond until it starts a run, or capture has been turned off |
| DocumentCapture.ApplyWaitsForTheSlot | clients/word/src/documentCapture.ts:139-147 | an apply called while the slot is held starts nothing and waits on the holder |
| DocumentCapture.OutsideIsOvertaken | clients/word/src/documentCapture.ts:145-153 | over every run of steps, the runs in flight outside the slot are exactly those a finalize overtook that have not settled |
| DocumentCapture.ApplyStartsAlone | clients/word/src/documentCapture.ts:133-140 | an apply's run has no other run in flight beside it exactly when every run a finalize overtook on the way has settled |
| DocumentCapture.NoFinalizeNothingOvertaken | clients/word/src/documentCapture.ts:133-140 | so without a finalize it always starts alone |
| DocumentCapture.ApplyMayReadAlongside | clients/word/src/documentCapture.ts:133-140 | a run of the protocol in which an apply reads beside an overtaken capture, which the comment says cannot happen |
| DocumentCapture.SendsWhenDue | clients/word/src/documentCapture.ts:105-129 | what a settled read sends: idle and apply only a changed document, finalize always |
| DocumentCapture.TimersAreDebounced | clients/word/src/documentCapture.ts:156-186 | each debounce has at most one pending callback, the one its variable names |
| CaptureLaws.PendingIs | clients/word/src/documentCapture.ts:156-186 | over every run of steps each debounce has a callback pending exactly when its event armed it while capture was on and it was neither fired nor lost since |
| DocumentCapture.Capturer.CallCapture | clients/word/src/documentCapture.ts:131-154 | the method moves the fields as the protocol's call step does |
| DocumentCapture.Capturer.ResumeWaiter | clients/word/src/documentCapture.ts:139-147 | the wait loop moves the fields as the protocol's resume step does |
| DocumentCapture.Capturer.SettleRead | clients/word/src/documentCapture.ts:116-123 | the read's completion moves the fields as the protocol's step does |
| DocumentCapture.Capturer.SettleSend | clients/word/src/documentCapture.ts:124-129 | so does the reply's; a disabling one turns capture off, and an answered one sets what was sent last |
| DocumentCapture.Capturer.ResumeOwner | clients/word/src/documentCapture.ts:148-153 | and the owner's continuation |
| DocumentCapture.Capturer.NoteChange | clients/word/src/documentCapture.ts:156-167 | a change re-arms the idle timer as the protocol says |
| DocumentCapture.Capturer.NoteApply | clients/word/src/documentCapture.ts:172-183 | an apply re-arms its own timer |
| DocumentCapture.Capturer.FireIdle | clients/word/src/documentCapture.ts:160-163 | the idle callback clears its timer and captures, as the protocol says |
| DocumentCapture.Capturer.FireApply | clients/word/src/documentCapture.ts:176-179 | so does the apply callback |
| SentenceGate.SentenceEndIndices | skills/legal_research/compaction.py:181-217 | exactly the terminators that genuinely end a sentence |
| GateLaws.EndsIff | skills/legal_research/compaction.py:165-217 | told from the characters: a terminator ends a sentence exactly at the row's end, or before white space, behind no listed abbreviation, when nothing visible follows or first a capital or a digit that belongs to no listed word |
| GateLaws.AbbreviationEndsNothing | skills/legal_research/compaction.py:211-213 | "Mr." and its like end nothing before the row's end |
| GateLaws.NumberGoesOn | skills/legal_research/compaction.py:211-215 | nor does a word a number belongs to, before a number |
| GateLaws.CapitalBegins | skills/legal_research/compaction.py:202-216 | any other word, white space and a capital: a sentence ends |
| SentenceGate.FindTokenBefore | skills/legal_research/compaction.py:165-178 | the word before a terminator, its opening punctuation stripped |
| SentenceGate.SentenceStarts | skills/legal_research/compaction.py:233-251 | exactly the message's start, the first visible character after a genuine end, and the first of each line |
| SentenceGate.QuotesAWholeSentence | skills/legal_research/compaction.py:220-270 | accepts exactly when one occurrence that is tried is aligned with those boundaries |
| GateLaws.AcceptsWhole | skills/legal_research/compaction.py:220-270 | told from the characters: what is accepted stands somewhere from a genuine start to a genuine stop, and without overlapping occurrences exactly that is accepted |
| GateLaws.WholeRowIsAccepted | skills/legal_research/compaction.py:220-270 | a message can always be quoted in full |
| GateLaws.RefusedAtAbbreviation | skills/legal_research/compaction.py:211-213 | a quote that stops at a listed abbreviation, before or behind its full stop, is refused |
| SentenceGate.AcceptedIsWhole | skills/legal_research/compaction.py:220-270 | an accepted quote stands in the message from a sentence or line start to the end or a genuine terminator, short of at most a full stop |
| SentenceGate.OneSentenceOnlyWhole | skills/legal_research/compaction.py:220-270 | a one-line message with no genuine end before its last character can be quoted only whole, but for a final full stop |
| SentenceGate.TriedUnlessCovered | skills/legal_research/compaction.py:258-269 | an occurrence is tried exactly when it does not start inside an earlier one that was |
| SentenceGate.AllTriedIff | skills/legal_research/compaction.py:226-227 | every occurrence is tried exactly when no two of them overlap |
| SentenceGate.CompleteWithoutOverlap | skills/legal_research/compaction.py:226-227 | where occurrences do not overlap every aligned one is accepted |
| SentenceGate.OverlapIsMissed | skills/legal_research/compaction.py:226-227 | not every occurrence is tried: "A. A" ends the message "xA. A. A" aligned, and is refused |
| QuoteLines.ParseQuoteLines | skills/legal_research/compaction.py:273-296 | every line is a quote, blank, or a fence; the first other line is the error |
| QuoteLaws.ReadIs | skills/legal_research/compaction.py:273-296 | the quotes are those of the lines not left out, in their places, or the first line that is no quote is told |
| QuoteLaws.SkippedIff | skills/legal_research/compaction.py:58-58 | left out are exactly blank lines and fences: three backticks and letters |
| LineForm.FormIsRead | skills/legal_research/compaction.py:59-61 | every line of the expression's form is read as its pieces say, "said earlier" or not |
| LineForm.ReadHasForm | skills/legal_research/compaction.py:59-61 | and no other line is |
| QuoteLines.DecimalToNat | skills/legal_research/compaction.py:288-296 | a row number written in decimal reads back |
| QuoteLines.RenderParses | skills/legal_research/compaction.py:408-430 | a rendered line always parses, to the same row and speaker and to its text peeled |
| QuoteLines.RoundTripIffClean | skills/legal_research/compaction.py:408-430 | it parses back to the same quote exactly when the text has no quote mark or space at either edge |
| QuoteLines.PeeledTextMayBeUnclean | skills/legal_research/compaction.py:273-296 | a line is parsed to a quote whose text has such an edge |
| QuoteLines.FindQuoteFailure | skills/legal_research/compaction.py:330-357 | the first reason a quote is not to be trusted: range, row, speaker, words, or not a whole sentence |
| QuoteLines.TrustedIsVerbatim | skills/legal_research/compaction.py:330-357 | a trusted quote names a row in range, by its speaker, and stands in it as whole sentences |
| QuoteLaws.TrustedIff | skills/legal_research/compaction.py:330-357 | trusted exactly when it cites the last row of its id, in range, by its speaker, is not empty, and is found in it as whole sentences |
| QuoteLaws.FailureIs | skills/legal_research/compaction.py:330-357 | the reason given is the first requirement not met |
| QuoteLaws.NormKeepsVisible | skills/legal_research/compaction.py:141-162 | normalising keeps every visible character in order, quote forms and dashes alike, emphasis and code marks left out |
| QuoteLaws.NormIsLines | skills/legal_research/compaction.py:141-162 | and leaves the lines that hold something, each its words with one space between |
| QuoteLaws.TrustedStandsInRow | skills/legal_research/compaction.py:330-357 | so a trusted quote's visible characters stand one after another in the row it cites |
| QuoteLines.PartitionQuotes | skills/legal_research/compaction.py:360-405 | kept and dropped quotes, or why nothing could be kept |
| QuoteLines.KeptAndDropped | skills/legal_research/compaction.py:360-405 | increasing positions of the kept and of the dropped quotes cover all parsed ones, each once: kept exactly when trusted, each reason its quote's own |
| QuoteLines.KeptAreTrusted | skills/legal_research/compaction.py:360-405 | nothing is dropped exactly when all are trusted, and then all are kept |
| QuoteLines.ValidateSegment | skills/legal_research/compaction.py:299-327 | the strict check stops at the first failure |
| QuoteLines.FirstFailureIsFirstDropped | skills/legal_research/compaction.py:299-327 | which is the first one the lenient check drops |
| QuoteLines.StrictIsLenientWithoutDrops | skills/legal_research/compaction.py:299-405 | the strict check passes exactly when the lenient one drops nothing |
| QuoteLines.RenderedBodyParses | skills/legal_research/compaction.py:408-430 | clean quotes written line by line parse back to the same list |
| QuoteLines.KeptReadBack | skills/legal_research/compaction.py:360-430 | whatever the model wrote, clean quotes kept from it read back as themselves and pass the strict check |
| ConversationLog.ConversationStore.AppendTurn | memory/conversation_store.py:24-38 | a turn adds two rows with fresh increasing ids and changes no row |
| ConversationLog.SummaryStore.AppendSegment | memory/conversation_summary.py:29-46 | one segment is appended and none is changed |
| ConversationLog.RowsAfterFacts | memory/conversation_store.py:66-86 | rows past an id are the conversation's own, in id order |
| ConversationLog.BoundaryIsLastCut | memory/conversation_summary.py:74-89 | the latest covered id is the end of the last segment's part |
| ConversationLog.SelectedIsNextPart | skills/legal_research/compaction.py:433-459 | the rows to condense are the next part of the conversation and leave the newest keep_recent rows |
| ConversationLog.RunsStaySound | skills/legal_research/compaction.py:433-459 | over every run of turns and condensings each conversation's segments tile its rows up to the latest covered id, and the newest rows are never condensed |
| ConversationLog.RunsFromEmpty | skills/legal_research/compaction.py:600-625 | so it is from empty stores on |
| ConversationLog.ReplayedIsNotInjected | skills/legal_research/context.py:96-150 | whatever is switched on and whichever read fails, no row is both replayed word for word and covered by a segment injected beside it |
| ConversationLog.CoveredIff | skills/legal_research/context.py:105-107 | a row of the conversation is covered by a stored segment exactly when it lies at or below the boundary |
| ConversationLog.ReplayedIsUncoveredIff | skills/legal_research/context.py:119-150 | no replayed row is covered by any stored segment exactly when nothing is recalled, the boundary was read, nothing was ever condensed, or the window holds no more than the rows not yet condensed |
| ConversationLog.FailedReadReplaysCovered | skills/legal_research/context.py:130-140 | when the summaries cannot be read a covered row is replayed again |
| ConversationLog.CoveredRowIsReplayed | skills/legal_research/context.py:130-140 | two turns and one compaction lead to a log where that happens |
| ConversationLog.NothingIsForgotten | skills/legal_research/context.py:119-150 | with the boundary read and room in the window, a row is replayed exactly when no segment covers it |
| LogLaws.RecalledPastSegments | skills/legal_research/context.py:96-150 | the newest segments of the conversation and the newest of its rows past the latest condensed one are recalled, as many as the settings allow |
| LogLaws.RecalledWithoutSegments | skills/legal_research/context.py:119-150 | with compaction off or the summaries unreadable, no segment and the newest rows of all |
| LogLaws.NothingRecalled | skills/legal_research/context.py:113-150 | nothing is recalled with the store off, half a key, or the rows unreadable |
| LogLaws.SelectedAre | skills/legal_research/compaction.py:433-459 | the next compaction covers the rows past the latest condensed one, at most 200 read, all but the newest kept ones |
| ConversationLog.PoolAfterCondensing | clients/word/src/contextGauge.ts:80-82 | the pool a condensing leaves is empty exactly when at most 200 rows were pending; the comment says always |
| Compaction.SortOrders | skills/legal_research/compaction.py:568-593 | sorting gives row order and loses and adds nothing |
| Compaction.SortIsStable | skills/legal_research/compaction.py:568-593 | quotes of one row keep their order |
| Compaction.TrimShortens | skills/legal_research/compaction.py:580-593 | dropping a quote shortens the segment by exactly its line |
| Compaction.TrimmedIsLongest | skills/legal_research/compaction.py:580-593 | what is left is the longest suffix that meets the target or is down to the floor |
| Compaction.TrimToTarget | skills/legal_research/compaction.py:580-593 | the loop computes that suffix and its text |
| Compaction.CompactConversation | skills/legal_research/compaction.py:497-629 | the outcome of one compaction; a segment is written only with success and then once |
| Compaction.WriteSegment | skills/legal_research/compaction.py:560-625 | one partitioned answer capped, sorted, trimmed and written, or refused with nothing written |
| Compaction.SuccessIsSound | skills/legal_research/compaction.py:568-625 | a success freed at least one character, holds only trusted quotes in row order within the cap, and met the target or is down to the floor |
| CompactionOutcome.CondenseIs | skills/legal_research/compaction.py:524-629 | for every outcome: the first usable answer decides; a success holds a suffix of its first trusted quotes up to the cap, in row order, the n oldest dropped one by one only while too little was freed and more than the floor was left; every refusal has its reason |
| HeldQuotes.KeptIsHeld | skills/legal_research/compaction.py:524-593 | the cap from the settings, the order, and which quotes are dropped, of any quotes kept |
| CompactionOutcome.SegmentIsCondensed | skills/legal_research/compaction.py:609-611 | what is written is what the log appends: the range selected, and otherwise nothing |
| SegmentText.SanitizedAre | skills/legal_research/edit_parsing.py:49-65 | the model sees the attorney's rows as they are and the assistant's without blocks, where anything is left |
| SegmentText.SegmentIs | skills/legal_research/compaction.py:408-430 | the segment's lines: heading with the number of messages, note, one line a quote, end |
| Compaction.CompactionIsCondensed | skills/legal_research/compaction.py:609-625 | the segment a success writes is the step the conversation log's runs are made of |
| JsonText.EscapeUnescapedWhitespaceInStrings | clients/word/src/parseEditBlocks.ts:81-108 | the flag loop computes the repair |
| JsonText.RepairIsIdempotent | skills/legal_research/edit_parsing.py:89-117 | repairing twice is repairing once |
| JsonText.RepairIsIdentityIff | skills/legal_research/edit_parsing.py:89-117 | text is left alone exactly when no raw break or tab stands in a string, but right after a live backslash |
| JsonText.RepairedIsClean | skills/legal_research/edit_parsing.py:89-117 | so no repaired text has one elsewhere |
| JsonText.RepairAppend | skills/legal_research/edit_parsing.py:89-117 | repair reads left to right: the in-string state after a prefix decides the rest |
| JsonText.PrintRepairs | skills/legal_research/edit_parsing.py:89-117 | every JSON value printed with raw breaks in its strings repairs to the same value printed with escapes |
| JsonMeaning.RepairKeepsMeaning | clients/word/src/parseEditBlocks.ts:81-108 | between two quotes the repaired text, strictly read, denotes the characters the text as written does with its line breaks and tabs taken as themselves |
| JsonMeaning.StringMeans | clients/word/src/parseEditBlocks.ts:81-108 | so a string of the model's means what the model wrote |
| JsonMeaning.OutsideStays | clients/word/src/parseEditBlocks.ts:81-108 | outside strings nothing changes |
| JsonScan.PrintIsBalanced | clients/word/src/parseEditBlocks.ts:132-173 | a printed value moves the scanner past it with depth and string state restored, whatever its strings hold |
| JsonScan.StackIsCut | clients/word/src/parseEditBlocks.ts:132-173 | the scanner cuts stacked objects and arrays exactly where they stand, whatever strings, scalars and words stand between them |
| JsonScan.StackIsSplit | clients/word/src/parseEditBlocks.ts:132-173 | for every list of values printed with white space or commas between, the texts cut are its objects and arrays, in order |
| JsonScan.IterJsonValues | clients/word/src/parseEditBlocks.ts:132-173 | the loop yields what parses: the whole, or the parts the scanner cuts |
| ScanLaws.ValuesAre | clients/word/src/parseEditBlocks.ts:110-173 | the text as it is, then repaired, and only then its parts |
| ScanLaws.GapIs | skills/legal_research/edit_parsing.py:148-150 | between values white space and commas are skipped, and nothing else |
| JsonScan.StackIsDecoded | skills/legal_research/edit_parsing.py:133-160 | decoding one value after another gives the values up to the first malformed one |
| JsonScan.PaneReads | clients/word/src/parseEditBlocks.ts:132-173 | the pane reads the whole text as one value, or every well-formed object and array of the stack, whatever stands between |
| JsonScan.BackendReads | skills/legal_research/edit_parsing.py:133-160 | the backend reads every value before the first malformed one |
| JsonScan.BothReadTheSameIff | clients/word/src/parseEditBlocks.ts:124-173 | pane and backend, whose parsers read each stacked value alike, read the same list exactly when the text is one value, or the well-formed objects and arrays are the very values before the first malformed one |
| JsonScan.MalformedParts | clients/word/src/parseEditBlocks.ts:124-173 | they differ on "[oops]" and "{}" one after the other |
| JsonScan.WordBetween | clients/word/src/parseEditBlocks.ts:124-173 | and on "{}", "oops" and "{}", where nothing but a word stands between two objects |
| Proposals.SplitEdit | clients/word/src/parseEditBlocks.ts:267-293 | a block of field lines becomes one edit per changed line; any other edit stays |
| Proposals.SplitMultilineFieldEdits | clients/word/src/parseEditBlocks.ts:267-293 | the loop computes that split |
| Proposals.SplitIsPerLine | clients/word/src/parseEditBlocks.ts:267-293 | exactly one edit for every changed line, in order |
| ProposalLaws.SplitsIff | clients/word/src/parseEditBlocks.ts:267-293 | an edit is split exactly when it replaces lines by as many, two at least changed, each of those a field line as cut down |
| ProposalLaws.LinesAre | clients/word/src/parseEditBlocks.ts:269-270 | lines end at a line feed, with the carriage return before it |
| ProposalLaws.ReducedTo | clients/word/src/parseEditBlocks.ts:209-226 | a line is cut down to its one changed column |
| ProposalLaws.NotReduced | clients/word/src/parseEditBlocks.ts:209-226 | and else stays whole |
| ProposalLaws.LabeledIff | clients/word/src/parseEditBlocks.ts:231-236 | a labeled blank has a blank and something else |
| Proposals.SplitIsFixed | clients/word/src/parseEditBlocks.ts:267-293 | what a split leaves cannot be split again |
| Proposals.CollapseDuplicateFills | clients/word/src/parseEditBlocks.ts:307-341 | the Map loop computes the collapse |
| Proposals.GroupsAreFound | clients/word/src/parseEditBlocks.ts:307-341 | every edit is in the group of its key and of no other |
| Proposals.CollapseFolds | clients/word/src/parseEditBlocks.ts:307-341 | one edit per key in first-seen order, no key twice; a repeated text replacement becomes one replace_all |
| ProposalLaws.SameKeyIff | clients/word/src/parseEditBlocks.ts:307-316 | edits are folded together exactly when target, new text, anchor and position agree, a missing one as good as an empty one |
| Proposals.DistinctIsCollapsed | clients/word/src/parseEditBlocks.ts:307-341 | edits with distinct keys are left alone |
| Proposals.NormalizedShape | clients/word/src/parseEditBlocks.ts:385-392 | what comes out has distinct keys, cannot be split and holds no no-op or erased blank |
| ProposalLaws.NormalizedAre | clients/word/src/parseEditBlocks.ts:385-392 | exactly the edits that change something come out, in order |
| ProposalLaws.ErasesBlankIff | clients/word/src/parseEditBlocks.ts:376-383 | an edit erases a blank exactly when it replaces a text that holds one by the words left of it without its blanks |
| Proposals.NormalizeIsIdempotent | clients/word/src/parseEditBlocks.ts:343-392 | running the pipeline again changes nothing |
| ReviewRecall.DropFilledLines | skills/legal_research/review_recall.py:203-272 | the line loop keeps and drops what the specification says |
| ReviewRecall.KeptAreTheRest | skills/legal_research/review_recall.py:203-272 | every line survives word for word and in order unless it is dropped |
| ReviewRecall.AllFilledIsDropped | skills/legal_research/review_recall.py:203-272 | an ordinary line whose references are all filled is always dropped |
| ReviewRecall.DroppedMeansFilled | skills/legal_research/review_recall.py:203-272 | a dropped line is ordinary, refers to a filled placeholder, and every live one it refers to is part of a longer reference |
| ReviewLaws.DroppedIff | skills/legal_research/review_recall.py:203-272 | a line goes exactly when it is no heading and not under the gate's, shows a placeholder, and the document holds none it shows, proper parts of others it shows aside |
| ReviewLaws.LiveIsPart | skills/legal_research/review_recall.py:239-255 | a live placeholder on a dropped line is a proper part of another the line shows |
| ReviewRecall.DropsWhenAllFilledIff | skills/legal_research/review_recall.py:203-225 | dropping and all-filled agree exactly when all are filled or a live reference stands for itself |
| ReviewRecall.CanGoWithIff | skills/legal_research/review_recall.py:203-225 | a line can be dropped with a given text still in the document exactly when it is ordinary, refers to a placeholder, and none it stands for is part of that text |
| ReviewRecall.LiveLabelCanGo | skills/legal_research/review_recall.py:203-225 | of the review "`L: [N]`" the field and the label are candidates; it goes with the label still live, which the docstring denies |
| ReviewRecall.BundledSpanCanGo | skills/legal_research/review_recall.py:211-224 | of the review "`[N] [_]`" only the label is a candidate; it goes with the blank still live, which the docstring denies |
| Placeholders.PlaceholderCandidates | skills/legal_research/review_recall.py:71-105 | the loops over spans and labels collect the candidates |
| Placeholders.CandidatesAre | skills/legal_research/review_recall.py:71-105 | each once: the spans with exactly one marker and the bare labels, trimmed, without empty ones and source tags |
| PlaceholderLaws.MarkerFinds | skills/legal_research/review_recall.py:54-54 | a marker is brackets around at most 40 characters, or a run of two underscores or more |
| PlaceholderLaws.LabelFinds | skills/legal_research/review_recall.py:55-55 | a bare label is brackets around a capital and at most 38 characters |
| PlaceholderLaws.MarkersFound | skills/legal_research/review_recall.py:91-91 | markers are counted left to right, the next one behind the last |
| PlaceholderLaws.LabelsFound | skills/legal_research/review_recall.py:93-94 | and so are labels found |
| PlaceholderLaws.SpanFirst | skills/legal_research/review_recall.py:85-86 | a span is what stands between two backticks |
| Placeholders.FieldAndLabel | skills/legal_research/review_recall.py:71-105 | a single field in backticks gives itself and its label |
| Placeholders.BundledLabel | skills/legal_research/review_recall.py:71-105 | a span of a label and a blank gives the label alone |
| ReviewRecall.SurvivingBlockerCount | skills/legal_research/review_recall.py:108-148 | the Red and Missing Context rows of the findings table, unknown without a table or a rating column |
| ReviewRecall.NoBlockersLeft | skills/legal_research/review_recall.py:108-148 | zero exactly when no row is rated Red or Missing Context |
| ReviewLaws.BlockersAre | skills/legal_research/review_recall.py:108-148 | the number is that of the blocking rows below the header of the first findings table, by its first rating column |
| ReviewLaws.BlocksIff | skills/legal_research/review_recall.py:134-147 | a row blocks exactly when its rating, marks and case aside, is Red or Missing Context |
| ReviewLaws.CellsAre | skills/legal_research/review_recall.py:129-135 | a row's cells are what stands between its bars, those at its ends aside, trimmed |
| ReviewLaws.UnknownBlockers | skills/legal_research/review_recall.py:127-132 | without a table row or a rating column the number is unknown |
| ReviewRecall.ReconcileGateVerdict | skills/legal_research/review_recall.py:160-200 | the gate pass writes what the specification says |
| ReviewRecall.GateKeepsTheRest | skills/legal_research/review_recall.py:160-200 | it adds one note under the gate's heading and rewrites at most one status line, only when no blocker survives; all else stays |
| ReviewLaws.AnnotatedIff | skills/legal_research/review_recall.py:173-200 | the gate is annotated exactly when it names a token whose finding went, and the note names all of those |
| ReviewLaws.NeutralizedIff | skills/legal_research/review_recall.py:186-198 | an annotated gate's status is replaced exactly when no blocker is left |
| ReviewRecall.ReconcileReviewWithDoc | skills/legal_research/review_recall.py:203-272 | from the placeholders the review itself quotes: the reconciled review and the tokens dropped, or the review as it was |
| ReviewRecall.OutputHoldsTheRest | skills/legal_research/review_recall.py:203-272 | the reconciled review holds exactly the lines not dropped, in order and word for word but for the gate's status line, behind its note, with at most the gate's note beside them |
| ReviewRecall.UnnamedIsUnchanged | skills/legal_research/review_recall.py:203-272 | when no token is named the review comes back as it was, and with a document to go by no line of it was to go |
| ReviewLaws.RewrittenIff | skills/legal_research/review_recall.py:203-272 | the review is rewritten exactly when there is a document and some line goes, and opens with a note on what went |
| ReviewLaws.NamedIff | skills/legal_research/review_recall.py:255-260 | a token is named exactly when some line goes and is judged by it |
| ReviewRecall.TokensAreOfDroppedLines | skills/legal_research/review_recall.py:203-272 | the tokens named are exactly those dropped lines stand for |
| ReviewRecall.NothingNamedNothingGone | skills/legal_research/review_recall.py:203-272 | when none is named no line is dropped |
| Bm25.AddAgreesIff | rag/bm25_index.py:62-84 | adding keeps the index in agreement exactly when the id is new or its old tokens are among the new |
| Bm25.StalePostingDangles | rag/bm25_index.py:62-84 | re-adding an id with other tokens leaves it posted under a token it no longer has |
| Bm25.UnpostAgrees | rag/bm25_index.py:86-102 | removing a chunk keeps the agreement and leaves no empty posting set |
| Bm25.IndexIsDetermined | rag/bm25_index.py:62-102 | agreement leaves one possible index |
| Bm25.ReloadIsTheSame | rag/bm25_index.py:145-182 | saving and loading gives the same chunks back, index included |
| Bm25.ScoreIsPositiveIff | rag/bm25_index.py:104-143 | a chunk's direct score is positive exactly when it holds a query token |
| Bm25Laws.TermIs | rag/bm25_index.py:122-131 | a token's weight times its denominator, with k1 and b worked out, is its rarity times how often the chunk uses it |
| Bm25Laws.MoreUsesScoreMore | rag/bm25_index.py:122-131 | of chunks as long, more uses score higher |
| Bm25Laws.LongerScoresLess | rag/bm25_index.py:122-131 | of chunks with as many uses, the longer scores lower |
| Bm25Laws.RarerWeighsMore | rag/bm25_index.py:122-122 | the fewer chunks hold a token the more it weighs |
| Bm25Laws.ScoresAdd | rag/bm25_index.py:113-131 | a query scores as its parts do |
| Bm25Laws.OneTokenScores | rag/bm25_index.py:116-131 | one token scores its weight in the chunks that hold it and nothing in others |
| Bm25.AvgIsPositive | rag/bm25_index.py:55-60 | no division by a zero average where a score is computed |
| Bm25.BM25Index.Add | rag/bm25_index.py:62-84 | the chunk stored, its tokens posted, the average recomputed |
| Bm25.BM25Index.RemoveByDocId | rag/bm25_index.py:86-102 | every chunk of the document goes and nothing else |
| Bm25.BM25Index.Load | rag/bm25_index.py:158-182 | rebuilds a consistent index of the saved chunks |
| Bm25.BM25Index.SaveAndLoad | rag/bm25_index.py:145-182 | an index saved and loaded again has the same chunks, postings and average |
| Bm25.BM25Index.Search | rag/bm25_index.py:104-143 | the list that scoring every chunk directly would give, best first, all scores positive |
| Bm25.BM25Index.RecomputeAvgDl | rag/bm25_index.py:55-60 | the average length over the stored chunks, zero for none |
| Chunker.GroupedKeepsSentences | ingest/parsers/docx_parser.py:84-103 | the parts hold all sentences in order |
| Chunker.GroupedFits | ingest/parsers/docx_parser.py:84-103 | each part is one sentence or has summed estimates within the limit |
| Chunker.GroupedIsGreedy | ingest/parsers/docx_parser.py:84-103 | no part could have taken the next sentence |
| Chunker.SplitOversized | ingest/parsers/docx_parser.py:84-103 | the loop computes those parts |
| Chunker.PartExceedsIff | ingest/parsers/docx_parser.py:84-103 | a part exceeds the limit exactly when what its sentences' rounded-down estimates leave out, with the spaces between them, makes up what they fall short of it |
| Chunker.PartIsBounded | ingest/parsers/docx_parser.py:84-103 | a part is one sentence as it stands, or above the limit by less than its number of sentences |
| Chunker.PartMayExceed | ingest/parsers/docx_parser.py:84-103 | "Ab. Cd. Ef. Gh." is above a limit of two tokens and comes back whole |
| ChunkLaws.SentencesAre | ingest/parsers/docx_parser.py:88-88 | text is cut at white space behind an end mark, as long as it goes, and nowhere else |
| ChunkLaws.ShortNameIs | ingest/parsers/docx_parser.py:276-285 | a section name of more than eight words ends at its first colon, or comma without one, or full stop without either |
| ChunkLaws.TopNumberOpensSection | ingest/parsers/docx_parser.py:268-289 | a number of one part opens a section without a clause |
| ChunkLaws.DeeperNumberBeginsClause | ingest/parsers/docx_parser.py:291-296 | one of several parts begins a clause, buffered behind its number |
| ChunkLaws.HeadingIs | ingest/parsers/docx_parser.py:298-308 | level 1 opens a section, level 2 a clause, a deeper one changes nothing; none is buffered |
| ChunkLaws.BoldHeadingIs | ingest/parsers/docx_parser.py:310-315 | a bold heading opens a section |
| ChunkLaws.BodyIs | ingest/parsers/docx_parser.py:317-332 | body text is buffered; a clause number replaces the last, a list paragraph's label the clause where no number is current |
| ChunkLaws.SmallIff | ingest/parsers/docx_parser.py:225-237 | a buffer is held back when it is shorter than the least number of tokens, at four characters each |
| ChunkLaws.UnitTextIs | ingest/parsers/docx_parser.py:239-247 | a unit's text is that of its buffers that hold any, line by line |
| Chunker.InkOfSentences | ingest/parsers/docx_parser.py:88 | cutting into sentences loses white space only |
| DocxParser.Parser.EmitChunk | ingest/parsers/docx_parser.py:202-223 | one chunk per part, in order, under the current headings |
| DocxParser.Parser.FlushBuffer | ingest/parsers/docx_parser.py:225-237 | a flush loses, repeats and moves no text |
| DocxParser.Parser.FlushPending | ingest/parsers/docx_parser.py:239-247 | what was held back leaves as one unit |
| DocxParser.Parser.FlushAll | ingest/parsers/docx_parser.py:249-251 | nothing is left in the buffer or held back |
| DocxParser.Parser.TakeParagraph | ingest/parsers/docx_parser.py:257-332 | each paragraph is buffered at most once and moves the headings as its numbering and style say |
| DocxParser.Parser.TakeBody | ingest/parsers/docx_parser.py:317-332 | body text is always buffered, under the section it stands in |
| DocxParser.Parser.Parse | ingest/parsers/docx_parser.py:256-341 | every visible character of every buffered text is in exactly one chunk, in order, under the section current when it was buffered; a unit is one large buffer or small ones joined |
| ChunkUnits.UnitsArePlaced | ingest/parsers/docx_parser.py:202-251 | over every document, each unit left under the headings current where it was flushed, and each text in it stood, and was closed, where it says, with no end of unit between |
| ChunkUnits.CarriedIsCurrent | ingest/parsers/docx_parser.py:239-247 | a unit's chunks carry the headings current at its flush; the clause number held with the texts is never used |
| ChunkUnits.NumberedStaysNumbered | ingest/parsers/docx_parser.py:239-247 | a text that came in under a clause number leaves under a number and the same clause |
| ChunkUnits.LeavesUnderItsClauseIff | ingest/parsers/docx_parser.py:202-251 | from the paragraphs: a text leaves under its own clause exactly when it came with a number, or the last label before the flush and before any number, if there is one, names the same clause; under its own number exactly when the last number before the flush, if any, is the same |
| ChunkUnits.LabelTakesTheTextBefore | ingest/parsers/docx_parser.py:317-332 | a small text before a small labelled list paragraph always leaves under that label |
| ChunkUnits.LaterClauseIsCarried | ingest/parsers/docx_parser.py:317-332 | "Preamble." and the list paragraph "Term: one year." leave in one unit under the clause "Term" |
| Chunker.EmittedKeepsInk | ingest/parsers/docx_parser.py:202-251 | joining, splitting and trimming units keeps every visible character with its section |
| Chunker.SectionLasts | ingest/parsers/docx_parser.py:268-315 | a section lasts from the element that opens it to the next that opens one |
| Chunker.LostIff | ingest/parsers/docx_parser.py:268-315 | a paragraph's text is not kept whole exactly when its style is a heading below level 2 and its number is not decimal, or it is a top-level decimal paragraph whose section name is shorter than it |
| Chunker.TopLevelLosesTheRest | ingest/parsers/docx_parser.py:278-295 | of a top-level decimal paragraph with a bold run only the bold run is kept, whatever follows it |
| Numbering.MoveKeepsCounts | ingest/numbering.py:110-132 | each counter below the top equals start - 1 plus the paragraphs at its level since the list's last shallower one |
| Numbering.MoveKeepsTop | ingest/numbering.py:110-132 | top-level counters follow the list's own last number or the last decimal one |
| Numbering.TopCountsOn | ingest/numbering.py:110-132 | a decimal top-level paragraph's number is its list's last plus one, or for a list's first the last number given plus one |
| Numbering.TopNumbersDifferIff | ingest/numbering.py:110-132 | decimal top-level numbers are pairwise different exactly when no decimal list is taken up again after another one's paragraph |
| Numbering.ResumedRepeats | ingest/numbering.py:110-132 | the first list taken up again gets the number of the paragraph right after its own run |
| Numbering.OtherListsCount | ingest/numbering.py:110-132 | a list that is not decimal counts its own top-level paragraphs from its start value |
| NumberingLaws.NumbersAre | ingest/numbering.py:134-147 | a number is made of the counters of its own level and every shallower one its list has counted, shallowest first |
| Numbering.TurnsRepeatNumbers | ingest/numbering.py:110-122 | two decimal lists that take turns repeat a number |
| Numbering.NumberingResolver.Resolve | ingest/numbering.py:75-147 | every call keeps both counts and returns the level's own number last, which for a decimal top-level paragraph is the next one given |
| Budget.CapChatContext | skills/legal_research/context.py:228-264 | what is written and what is reported lost: sizes exact, the percentage rounded down |
| BudgetLaws.CappedSays | skills/legal_research/context.py:228-264 | over the budget the last message is the document's first characters, marked as cut, in its frame, and the request |
| Budget.CappedFitsIff | skills/legal_research/context.py:228-264 | the capped prompt fits exactly when document and notes together are at least overflow plus marker long |
| Budget.CappedLandsOnBudget | skills/legal_research/context.py:228-264 | without notes and with document enough, the prompt totals exactly the budget |
| Budget.CappedKeepsTheRest | skills/legal_research/context.py:228-264 | only the last message changes; it keeps a document prefix and the request, and nothing after them |
| Budget.CappedTwiceIff | skills/legal_research/context.py:228-264 | capping again changes nothing exactly when the first cut fitted or the second would keep no more of the document |
| Budget.BuildIsConsistent | skills/legal_research/context.py:308-387 | totals and shares are those of the parts; both offers are backed by pressure and by history; only history can be condensed |
| BudgetLaws.BuildShows | skills/legal_research/context.py:308-387 | each part shows its own size, in tokens and as a share, in order; when condensing is offered, and when automatically |
| BudgetLaws.LiveDocumentShows | clients/word/src/contextGauge.ts:142-172 | reading the document anew sets its size and no other part's |
| BudgetLaws.ReclaimedShows | clients/word/src/contextGauge.ts:91-123 | reclaiming takes that much off what can be condensed, and leaves nothing to offer |
| Budget.UpdateKeepsConsistent | clients/word/src/contextGauge.ts:91-172 | an update of the pane keeps that |
| Budget.AutoNeverTurnsOn | clients/word/src/contextGauge.ts:142-172 | over every chain of updates automatic condensing is on exactly when it was on and no update relieved the pressure |
| Budget.NoOfferAfterReclaim | clients/word/src/contextGauge.ts:110-123 | after history was reclaimed no update offers condensing again |
| Budget.LiveAsMeasured | clients/word/src/contextGauge.ts:142-172 | reading the document at its measured size changes nothing |
| Budget.LastReadingWins | clients/word/src/contextGauge.ts:142-172 | only the last reading counts, but for automatic condensing, which only narrows |
| Budget.ReclaimAndReadCommute | clients/word/src/contextGauge.ts:91-172 | reclaiming and reading the document commute |
| Budget.ReclaimedFromTotal | clients/word/src/contextGauge.ts:91-110 | reclaiming takes exactly that much off the total, as far as history goes |
| Budget.WarnsAfterReclaimIff | clients/word/src/contextGauge.ts:58-70 | after at least the target is reclaimed the share is at most the warn line, and the warning still shows exactly when the warn line is a whole number of characters and the target alone came back |
| Budget.TargetLeavesTheWarning | skills/legal_research/context.py:377-379 | at the shipped settings the target alone leaves the warning up |

## Left out

- Office.js, Word.run, React, timers as browser facilities, and the time limits `withinTime` and `captureBeforeFinalize`: foreign calls; only the order of their completions is modelled.
- `buildSnapshotBody`: one formatted string.
- Postgres, Redis, Qdrant, HTTP, tracing and logging: the two conversation stores are in-memory logs with increasing ids, and a failed read or write is an outcome.
- The language model: an arbitrary string, or none.
- Compactions that run at the same time, and settings that change during a run.
- NFC, lower and folded case, `isspace` and line breaks: parameters with the few facts that are used (`Sane`).
- LiveTargets.PickIsTheLiveText: of stretches NFC leaves alone; for others `SelfMatch.CutIsPlaced` and `LiveTargets.PicksAreDistinct` say what is known.
- LiveTargets.PicksAreDistinct: takes it that Word's match list for a stretch offered is that stretch's raw occurrences; what Word's own search finds is not part of this model.
- The other users of stretches (`searchLive`, `findClauseRange`) and the escaping of wildcards.
- FoldedText.FoldText: offsets are unbounded integers; an `Int32Array` holds every offset of a string shorter than 2^31.
- JSON numbers by their meaning: numbers and keywords are inert text; strings have theirs (`JsonMeaning`).
- JsonScan.BothReadTheSameIff: JSON.parse and raw_decode are parameters, told apart by what each makes of every stacked value, and no string or scalar reads as an object or array does; `NaN` and `Infinity`, which only the backend's takes, are two readings, so `PaneReads` and `BackendReads` apply and this lemma does not.
- `flattenEditValues`, `annotateFillOverwrites`, `extractEditBlocks` and the prose fallbacks: shape checks, one branch each.
- ReviewRecall.ReconcileReviewWithDoc: works on the review's lines; splitting the text into lines and joining them again, where a final line break is lost, is not modelled.
- The regular expressions for line shapes and for the source tag are parameters; those for spans, markers and labels are modelled.
- Bm25.BM25Index.Search: scores are real numbers, not floats, and the logarithm is any function positive above 1; chunks of equal score may come in any order.
- Pickling and files: a saved index is the map that is written.
- The filter that drops short and boilerplate chunks after parsing (docx_parser.py:343-363), table layout, and the bold-run, label and number extractors, which are parameters.
- The template text of a list level (`lvlText`): the numbers put into it are modelled, not the substitution.
- Budget.CapChatContext: budgets are not negative; characters per token is a positive real number.
- What retrieval, grounding and prompts put into the other messages.
