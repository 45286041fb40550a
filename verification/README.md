# Verified models of the note, title and bound tools

Dafny models of the algorithmic cores of the Python tools under `notes/` and `spike/`, with proofs of what those tools
promise. `dafny verify dfyconfig.toml` checks the whole project.

What is modelled, by module:

- `HittingSet`: the branch-and-bound search behind `minimum_keep_required`. `best` shrinks while it runs and the memo is
  written on entry, so the class invariant separates finished entries from those still open on the call stack.
- `ResponseMachine`, `NoteContract`, `NoteLanguage`, `NoteReader`, `NoteProgress`, `NoteJson`, `TokenMask`, `MaskedRuns`:
  the character machine that masks note decoding, the language it completes, its place in the grammar of RFC 8259, its
  freedom from dead ends, and the cached token mask. The ceilings are parameters (`Limits`).
- `JsonGrammar`, `JsonUnambiguous`, `JsonValue`: that grammar as derivation trees, the proof that no text has two of them,
  and the values they stand for.
- `TitleContract`, `TitleLanguage`, `TitleDecoding`: the same for the title machine, down to the decoder behind it.
- `Coverage`, `Pruning`: gap runs, greedy segments and the budget fit of `prune_keeps`.
- `Classification`, `JsonData`, `ResponseReading`, `ResponseText`: locators, the response decoder on rows and on parsed
  JSON, and its round trip with the assembled text. The registered run reads its answers with the same decoder.
- `RunClock`, `Receipts`, `RunResult`, `ClassifierCall`, `RegisteredRun`, `RunMinimum`: the registered run over an arbitrary
  non-decreasing clock and an arbitrary transport. `World` keeps a ghost record of every operation started, which the
  promises are about. The run is parametric in the receipt check and in the reading of a chat's answer, which only have to
  agree with `validate_call_receipt` (`IsValidator`) and with what a call makes of a response (`IsAnswer`).
- `ReviewLedger`, `Sections`, `Exposure`, `Evidence`: review reference and its sections, review decisions, promotion to the runner ledger, exposure and recall.
- `ProductRun`: the product lane's offer, batches, decoding, pruning and gates.
- `Overlay`, `Markers`, `CleanMap`, `VoiceActivity`, `UnionLength`: the coordinate and interval algorithms.
- `Common`, `Decimals`: options, results, string order, stable sorting, facts about sequences, and decimal numbers.

Where the source loops or edits in place, the model is a method or a class, proved against a function or predicate that
states the outcome; the lemmas are about those.

Results that need a condition:

- `NoteProgress.NoDeadEnds`: with `maxItems > 0` and `maxIds == 0` the machine has a dead end, since an item must carry an
  ID; the registered ceilings (8 and 3) are on the good side.
- `ReviewLedger.PromotionKeepsShape`: `_event_input` asks only that an event ID is not empty, while
  `_validate_ledger_shape` strips it first. An ID of blanks therefore passes review and promotion and is refused by the
  runner. The model follows the code; `BlankIdRefused` is the concrete case and `PromotionKeepsShape` the exact condition.
  The runner also compares the registration with its own, which the product lane's ledgers do not carry.
- `Pruning.FitExists`: that a reported miss is over budget fails when there is no gap in range (`max_gap < 1`) and the
  budget has room for one survivor; `MissWithinBudget` is the input and `MissIsOver` the exact condition. Nothing kept is
  reported without a fit as well, which is over a negative budget only.
- `Pruning.FitStride`: the "stride exhausted" raise is unreachable over rows in turn order, which a manifest gives
  (`ManifestKeepsTurnOrder`); `RaiseReached` is an input out of turn order that reaches it, and the contract of `FitStride`
  says exactly when it is reached. A stride floor below 1 runs into `max` of an empty segment.
- `MaskedRuns.NoteNeverRefused`, `TitleNeverRefused`: that a masked run is never refused depends on the tokenizer. A run may
  sample two tokens that decode together to other text than one by one, as byte-level tokenizers do inside a character;
  `MaskedRunLeaves` is such a run. What is refused is exactly what has left the contract (`NoteRefusesOutside`,
  `TitleRefusesOutside`), and the hypothesis of the two results is about the last token of the run only.
- `RegisteredRun.Run`: the model's times are reals. Of the two halves of the outer time refusal, the one for a time
  shorter than the transport's never fires.

## Model

| member | source | states |
|---|---|---|
| HittingSet.MinimumHittingSet | notes/candidate_exposure.py:371-426 | Refused exactly when some event is exposed by no candidate, naming the first such event; otherwise the ascending IDs returned name candidates that each expose an event and together expose them all, and no set of IDs that does is smaller. Exposing is showing every fragment of a bundle |
| HittingSet.Search.Run | notes/candidate_exposure.py:395-423 | One call of the recursive search: `best` only shrinks and always hits everything, finished memo entries are justified, entries below `covered` are left alone, and no completion of the node it is called on is cheaper than the `best` it leaves; recursion ends because `covered` strictly grows |
| HittingSet.Search.Branch | notes/candidate_exposure.py:409-423 | Working through the target event's options, most new events first and equals by ID, keeps the same promises, with the node itself still an open memo entry |
| HittingSet.SortedByPreference | notes/candidate_exposure.py:416-421 | The options are tried in order of the new events they serve, most first, and equals by ID |
| HittingSet.HitsMean | notes/candidate_exposure.py:371-389 | A set of IDs hits every option set exactly when its candidates together expose every event |
| Common.BeforeMeans | notes/candidate_exposure.py:420 | One string is before another exactly when it has the lesser character at the first place they differ, or is its beginning |
| HittingSet.Search.Pruned | notes/candidate_exposure.py:401-402 | A node cut by the bound or by the memo has no completion cheaper than `best`: an open entry on the stack has a strictly smaller `covered` and so cannot be the one that cut it |
| HittingSet.Search.BuildMasks | notes/candidate_exposure.py:386-390 | The masks map exactly the IDs that occur to the sets of events they serve |
| HittingSet.Target | notes/candidate_exposure.py:404-415 | The target is an uncovered event with the fewest options left, the earliest on ties |
| HittingSet.BranchingIsStatic | notes/candidate_exposure.py:410-415 | Counting only options that cover something new is counting all options of an uncovered event, so the heuristic never skips one |
| HittingSet.Advance | notes/candidate_exposure.py:422-423 | Every option of an uncovered event strictly enlarges `covered` |
| HittingSet.AllTried | notes/candidate_exposure.py:416-423 | Once every option of one uncovered event has been followed, no completion of the node is cheaper than `best` |
| HittingSet.StillCompletes | notes/candidate_exposure.py:416-423 | A completion of a node that uses an option completes the node after that option with one ID less |
| ResponseMachine.Machine.StateAfter | notes/structured_decoding.py:189-194 | The loop over the characters computes the fold of `step`, stopping at the first refusal |
| ResponseMachine.Machine.RunConcat | notes/structured_decoding.py:189-200 | Reading is compositional over concatenation |
| NoteLanguage.PrintedIsComplete | notes/structured_decoding.py:93-167 | Every printed value of 0..maxItems items with 1..maxIds IDs each, between any whitespace, is completed |
| NoteLanguage.CompleteIsPrinted | notes/structured_decoding.py:93-167 | Every completed string is such a printed value between whitespace, and the value is constructed |
| NoteLanguage.Language | notes/structured_decoding.py:174-186 | The machine completes a string exactly when it is whitespace, a printed value and whitespace, for every pair of limits; the free texts of a value are exactly the JSON string bodies without a backslash |
| NoteContract.FreeTextAllowed | notes/structured_decoding.py:54-58 | What the free-text hole lets through, character by character, is what RFC 8259 (section 7) lets a string hold without an escape |
| NoteContract.ItemSpelled | notes/structured_decoding.py:82-90 | A printed item, written out: the five fields in their order and under their names |
| NoteContract.IdsSpelled | notes/structured_decoding.py:117-143 | The IDs of an item are quoted and separated by commas |
| NoteContract.ItemsSpelled | notes/structured_decoding.py:117-162 | Items are separated by commas |
| NoteReader.RoundTrip | notes/structured_decoding.py:82-90 | An independent reader gets back from every printed response the items it was printed from |
| NoteReader.UniqueReading | notes/structured_decoding.py:93-167 | No string is the print of two different values or splits into whitespace and value in two ways |
| NoteProgress.RunSound | notes/structured_decoding.py:93-167 | Every state reached is one the contract names, inside one of its literals or behind one of its fields, and its counters are within the limits |
| NoteProgress.Finish | notes/structured_decoding.py:117-162 | From every such state a continuation to the end state is constructed, spelled in the contract's own characters |
| NoteProgress.NoDeadEnds | notes/structured_decoding.py:117-162 | No reachable state is a dead end if and only if no item may be opened at all or an item may carry an ID |
| NoteProgress.RegisteredNeverStuck | notes/structured_decoding.py:61-62 | At the registered ceilings every reachable state has a completion |
| NoteJson.CompleteIsJson | notes/structured_decoding.py:93-167 | Every completed string derives from the grammar of RFC 8259 (sections 2 to 7), so it has no trailing comma, and its only derivation is the tree of the items it prints |
| JsonUnambiguous.DerivationUnique | notes/candidate_first.py:1170-1185 | A JSON text has one derivation: its tree and the whitespace around it are determined |
| TokenMask.AllowedTokenIds | notes/structured_decoding.py:203-234 | The loop returns the tokens whose text the machine survives from the state and, at the end state, the stop tokens; it refuses exactly when there are none |
| TokenMask.Tokens.MaskIsPrefixTest | notes/structured_decoding.py:256-277 | The mask computed at a state agrees with the per-string test: a stop token is allowed exactly when what was emitted is complete, any other token exactly when emitted plus token is viable and the token is not empty |
| TokenMask.Tokens.EmittedMeans | notes/structured_decoding.py:258-265 | What was emitted is the decoding of all sampled tokens but the stop tokens, in their order, and nothing when there are none |
| TokenMask.Tokens.NeverRefuses | notes/structured_decoding.py:203-234 | No viable text is left without an allowed token when its state can be finished in characters that are tokens of their own, and there is a stop token |
| TokenMask.Tokens.RefusesOutside | notes/structured_decoding.py:203-234 | Over a machine that can always be finished in such characters, a mask is refused if and only if the text has left the contract |
| TokenMask.Tokens.StopsComplete | notes/structured_decoding.py:256-277 | A masked sequence that ends in a stop token has emitted a complete response |
| TokenMask.Tokens.StaysViable | notes/structured_decoding.py:256-277 | Sampling only from the mask does not leave the contract, as long as the last token adds to the decoded text what it decodes to alone |
| TokenMask.Processor.Process | notes/structured_decoding.py:258-282 | One call: refused exactly when the uncached mask is; otherwise the columns left finite are exactly those of the allowed tokens, with their logits unchanged |
| TokenMask.Processor.Indices | notes/structured_decoding.py:258-277 | With the cache in any state it can be in, the token set is the one a fresh computation gives, and exactly the entry of its state is added |
| TokenMask.MakeProcessor | notes/structured_decoding.py:250-256 | Refuses exactly when the tokenizer names no stop token; otherwise the processor starts with an empty cache |
| MaskedRuns.NoteStopsOnJson | notes/structured_decoding.py:237-284 | Any masked note decoding that stops has emitted the JSON text of a valid document, and it reads as that document only |
| MaskedRuns.NoteNeverRefused | notes/structured_decoding.py:203-234 | No masked note decoding runs into the refusal, when each character of the contract's own literals is a token of its own, there is a stop token, and the last token decodes in its place as it does alone |
| MaskedRuns.NoteRefusesOutside | notes/structured_decoding.py:203-234 | With those tokens the note processor refuses exactly the texts that have left the contract, however they were decoded |
| MaskedRuns.MaskedRunLeaves | notes/structured_decoding.py:264-272 | Without that condition the guard is reached: two tokens that decode together to something else are both sampled from the mask, and the next call refuses |
| MaskedRuns.TitleStopsOnOffer | notes/mlx_title_selection.py:161-194 | Any masked title decoding that stops has emitted JSON that the decoder reads as an offered turn or as no turn |
| MaskedRuns.TitleNeverRefused | notes/title_decoding.py:75-122 | No masked title decoding runs into the refusal, when each character of its responses is a token of its own, there is a stop token, and the last token decodes in its place as it does alone |
| MaskedRuns.TitleRefusesOutside | notes/title_decoding.py:75-134 | With those tokens the title processor refuses exactly the texts that have left the contract |
| TitleContract.OfferValues | notes/title_decoding.py:61-72 | The value spellings are `null` and then each offered index in decimal, all distinct, none empty, none with a closing brace |
| TitleContract.OffersAccepted | notes/title_decoding.py:61-72 | Offers are refused exactly when there is none, or one is repeated or negative |
| Decimals.DecimalRoundTrip | notes/title_decoding.py:61-72 | Reading a printed index gives the index back |
| TitleContract.LanguageDistinct | notes/title_decoding.py:137-145 | `language()` has one more string than there are offers, and all are distinct |
| TitleLanguage.CompletesExactly | notes/title_decoding.py:91-145 | The machine completes exactly whitespace, a string of `language()` and whitespace, also when one offered index begins another |
| TitleLanguage.ResponseIsComplete | notes/title_decoding.py:91-135 | Every response of the language is completed |
| TitleLanguage.CompleteIsResponse | notes/title_decoding.py:91-135 | Every completed string is a response of the language, and its value is recovered |
| TitleLanguage.RunSound | notes/title_decoding.py:91-130 | Every state reached is inside the prefix, holds the beginning of an offered value, or is at an end |
| TitleLanguage.NoDeadEnds | notes/title_decoding.py:91-122 | Every reachable state has a completion |
| TitleDecoding.DecodesToOffer | notes/mlx_title_selection.py:161-194 | However a completed response is parsed by the grammar of RFC 8259, decoding it returns exactly the offered turn, or null, that it was printed from |
| TitleDecoding.DecodesExactly | notes/mlx_title_selection.py:161-194 | On parsed JSON: `null` and the offered indices are read from the one-pair object that names them and from nothing else, and an index not offered is refused as such |
| TitleDecoding.ReadsAs | notes/mlx_title_selection.py:161-194 | However a title response is derived as JSON, it is the object of the single pair `turn` and the value printed |
| Coverage.RunsSplit | notes/candidate_first.py:472-479 | The gap runs split the rows: chained at the gap inside, further apart between |
| Coverage.RunsUnique | notes/candidate_first.py:472-479 | Only one split has these properties |
| Coverage.RunsFall | notes/candidate_first.py:472-479 | The number of runs never rises with the gap |
| Coverage.GreedyParts | notes/candidate_first.py:481-498 | The greedy segments of a run are parts of turn span below the stride |
| Coverage.GreedyIsFewest | notes/candidate_first.py:481-498 | Any other way of dividing a run into parts of turn span below the stride uses at least as many |
| Coverage.SegmentsFall | notes/candidate_first.py:481-498 | The number of segments never rises with the stride |
| Coverage.OneSegment | notes/candidate_first.py:508-519 | A stride above a run's span leaves one segment |
| Pruning.Longest | notes/candidate_first.py:486-497 | The representative has the longest anchor of its segment, the earliest of equals |
| Pruning.RunsAt | notes/candidate_first.py:472-479 | The loop computes the one split into runs |
| Pruning.CollapseRun | notes/candidate_first.py:483-497 | The loop over one run picks one representative of each greedy segment; a stride below 1 hits the empty `max` |
| Pruning.Collapse | notes/candidate_first.py:481-498 | All runs' picks in order, or the refusal |
| Pruning.SurvivorsFall | notes/candidate_first.py:481-498 | The number of survivors never rises with the stride |
| Pruning.SurvivorsAtLeastRuns | notes/candidate_first.py:503-523 | Each run keeps a survivor, and one each when the stride exceeds every span |
| Pruning.FitStride | notes/candidate_first.py:510-519 | The inner loop ends and returns the least stride from the floor on that fits; for a floor of at least 1 the raise is reached if and only if no stride fits up to the larger of the floor and one above the widest span |
| Pruning.RaiseReached | notes/candidate_first.py:510-519 | The raise is reachable out of turn order: rows at turns 0, 5, 0 with a budget of 1 and a floor of 5 reach it although stride 6 would fit |
| Pruning.FitBudget | notes/candidate_first.py:500-523 | The gap loop with its `else`: a floor below 1 hits the empty `max`; otherwise the least fitting gap with its least fitting stride, or the raise exactly when no stride tried at that gap fits, or the widest-gap collapse when no gap fits |
| Pruning.FitExists | notes/candidate_first.py:500-523 | Over rows in turn order nothing is refused; a fit is reported exactly when some gap in range leaves at most the budget of runs, and it is within budget; a miss is over budget if `max_gap` is at least 1 or the budget below 1 |
| Pruning.MissIsOver | notes/candidate_first.py:500-523 | Of at least one kept row in turn order, every miss is over budget if and only if `max_gap` is at least 1 or the budget below 1; nothing kept is reported without a fit too, and is over a negative budget only |
| Pruning.MissWithinBudget | notes/candidate_first.py:500-523 | The failing input: with no gap in range a single kept row is reported as a miss and fits any budget of at least 1 |
| Pruning.FitIsUnique | notes/candidate_first.py:500-523 | No two outcomes meet what the search promises, so gap, stride, survivors and refusals are determined by it |
| Pruning.FitIsThreshold | notes/candidate_first.py:500-523 | The reported gap and stride are exact thresholds: everything from them on fits, nothing before them does |
| Pruning.EveryRowRepresented | notes/candidate_first.py:481-498 | Every row of a run lies in a segment whose representative, the longest and earliest, is picked |
| Pruning.SurvivorsAreRows | notes/candidate_first.py:481-498 | The survivors are a subsequence of the kept rows |
| Pruning.KeptRowIsCovered | notes/candidate_first.py:481-523 | Every kept row has a survivor in its own run, less than the stride away in turns, with an anchor at least as long |
| Pruning.CheckDecisions | notes/candidate_first.py:455-466 | The checks pass exactly when there is one decision for each candidate and no other |
| Pruning.PruneKeeps | notes/candidate_first.py:435-535 | Refuses the decisions exactly when they do not cover the candidates once each; otherwise its outcome is the search's over the candidates decided KEEP, all of them and no others; the KEEP count is the number of KEEP decisions, each survivor was decided KEEP, the survivors are a subsequence of the kept rows in ordinal order, and kept rows in turn order are never refused |
| Pruning.KeptMeans | notes/candidate_first.py:467-470 | The rows kept are those of the candidates decided KEEP, as many as there are KEEP decisions |
| Pruning.ManifestKeepsTurnOrder | notes/candidate_first.py:467-470 | When later candidates are anchored no earlier, the kept rows are in turn order |
| Classification.LocatorsDistinct | notes/candidate_first.py:1119-1136 | The locators of a batch are distinct |
| Classification.LocatorsNumbered | notes/candidate_first.py:1119-1136 | The i-th locator is a `c` and two digits that spell i, counted from 1 |
| Classification.DecodeClassification | notes/candidate_first.py:1188-1259 | The method, with its position map and sort, computes the decoder's function, whose meaning is in `DecodesPermutations` and `FirstFaultNamed` |
| Classification.DecodesPermutations | notes/candidate_first.py:1213-1259 | A response is accepted exactly when there are 1 to 99 distinct, non-empty IDs and the rows name each offered locator once with one of the two words; the items are then the candidates in registered order, KEEP exactly where the row that named the candidate says `KEEP` |
| Classification.FirstFaultNamed | notes/candidate_first.py:1213-1240 | A fault is that of the first row that is not clean: an unknown locator, else one named before, else a word that is no verdict |
| Classification.EveryLocatorNamed | notes/candidate_first.py:1213-1240 | As many distinct offered locators as were offered name every one of them |
| Classification.DisplacementCount | notes/candidate_first.py:1236-1259 | The reported count is the number of moved positions, and never 1 |
| Classification.DecodedCounts | notes/candidate_first.py:1241-1259 | The counts are the number of candidates and the number of places with each verdict |
| Classification.NeverOneDisplaced | notes/candidate_first.py:1236-1240 | One position alone cannot be displaced, and none is exactly when the order is the registered one |
| Classification.AssembleRoundTrip | notes/product_run.py:174-179 | Decoding the assembled rows keeps exactly the candidates whose word is `KEEP`, nothing displaced |
| Classification.DecisionsRoundTrip | notes/product_run.py:174-179 | Decisions spelled out, assembled and decoded are the decisions that were spelled |
| ResponseReading.ReadsPermutations | notes/candidate_first.py:1188-1240 | A JSON value is accepted exactly when it is an object of the one key `items`, no object in it repeats a key, and its items are rows of a locator and a verdict that name each offered locator once; it decodes as those rows do |
| ResponseReading.AcceptsExactly | notes/candidate_first.py:1188-1259 | The accepted values, written out: exactly those that spell rows naming each offered locator once with one of the two words, and they decode as those rows do |
| ResponseReading.UnrepeatedMeans | notes/candidate_first.py:1170-1185 | A value passes the key check exactly when no object anywhere in it names a key twice |
| ResponseReading.ReadDecides | notes/candidate_first.py:1213-1259 | What is read from a JSON value decides the candidates asked about, once each and in order |
| ResponseText.AssembledDecodes | notes/product_run.py:174-179 | Round trip on text: what is assembled is JSON, and decoding it, however it is read as JSON, keeps exactly the candidates whose word is `KEEP`, nothing displaced |
| ResponseText.AssembledParses | notes/product_run.py:174-179 | The same through any parser that gives a JSON text its value |
| Overlay.FromTransport | notes/transcript.py:72-124 | Accepts exactly the entries that are fresh, in range, in strictly rising position and not overlapping inside a turn, and files them by turn in order; otherwise names the fault of the first entry that is not acceptable |
| Overlay.AcceptedIsDisjoint | notes/transcript.py:83-124 | The replacements an accepted overlay holds for a turn are in order, disjoint and inside the turn |
| Overlay.Text | notes/transcript.py:130-150 | Refuses exactly a span outside the turn; otherwise the loop renders the span character by character as specified |
| Overlay.ReplacementIsSpelled | notes/transcript.py:130-150 | A replacement whose own range lies in the span is spelled there, whole, between the renderings before and behind it |
| Overlay.RestIsSource | notes/transcript.py:130-150 | A stretch touched by no replacement that lies in the span is the source's own text |
| Overlay.WalkIsRendered | notes/transcript.py:140-150 | The cursor loop equals the positional rendering: at a replacement's first character its text, at its others nothing, elsewhere the source character |
| Overlay.TextComposes | notes/transcript.py:130-150 | The rendering of a span is the renderings of its two parts in a row whenever no replacement inside the span straddles the cut |
| Overlay.TextLength | notes/transcript.py:130-150 | The rendered length is the span's plus the growth of exactly the replacements wholly inside it |
| Markers.MarkersAreBraced | notes/transcript.py:376 | All six markers have the shape the results below need |
| Markers.MaskOneMore | notes/candidate_exposure.py:226-228 | Replacing one more marker kind in the masked text is masking with one more kind |
| Markers.ReplaceAllIsMasked | notes/candidate_exposure.py:226-228 | Replacing the kinds one after another is a single scan over the text |
| Markers.MaskedAnyOrder | notes/transcript.py:379-382 | The order in which the kinds are replaced does not matter, so iterating over a set is well defined |
| Markers.MaskedInPlace | notes/candidate_exposure.py:226-228 | Masking at full width keeps the length, and every character that is not blanked in its place |
| CleanMap.WidthIrrelevant | notes/transcript.py:379-382 | The words left are the same whether a marker becomes one blank or as many as its length |
| CleanMap.SpansAreWords | notes/candidate_exposure.py:229 | The spans found are exactly the maximal stretches of characters that are not spaces |
| CleanMap.SpanTexts | notes/candidate_exposure.py:229-232 | The texts of the spans are the words of the split |
| CleanMap.MapOffsets | notes/candidate_exposure.py:233-237 | The loop's offsets are one a character of the joined text, strictly rising, and point at the character itself or, for a separator, at the gap behind the word |
| CleanMap.MapRow | notes/candidate_exposure.py:224-246 | Never refuses as inexact; a row is skipped exactly when it has no words; otherwise its map is faithful and its text is the masked words joined |
| CleanMap.CleanersAgree | notes/transcript.py:379-382 | `_clean`, in any marker order, gives the same text as the coordinate map |
| CleanMap.MapAll | notes/candidate_exposure.py:221-246 | The rows with words are mapped in order, with the texts the transcript loader keeps |
| CleanMap.QmsumCoordinates | notes/candidate_exposure.py:215-255 | Succeeds exactly for the transcript the loader makes of the same rows, and then maps each of its turns to its raw row |
| CleanMap.FragmentFromRaw | notes/candidate_exposure.py:326-337 | A non-empty clean fragment maps to a non-empty raw span inside the row, beginning and ending at its own first and last characters |
| CleanMap.RawToClean | notes/candidate_first.py:846-861 | Each raw row maps to its clean turn, or to none when it is empty after cleaning |
| CleanMap.RowMapsInverse | notes/candidate_first.py:846-861 | The row map inverts the coordinates: row i maps to turn k exactly when turn k came from row i |
| VoiceActivity.Hangover | spike/aec_bound.py:536-541 | The backward pass turns frame i on exactly when an originally active frame lies in i..i+gap |
| VoiceActivity.Spans | spike/aec_bound.py:542-550 | The scan returns exactly the maximal runs, in order and apart |
| VoiceActivity.RunsDetermined | spike/aec_bound.py:542-550 | Only one list of spans is that of the maximal runs |
| VoiceActivity.VoicedSpans | spike/aec_bound.py:529-550 | The spans are the maximal runs of the bridged frames, in time: a hundred frames to the second |
| VoiceActivity.TimedIsRegular | spike/aec_bound.py:529-550 | Such spans stay in order, are not empty, and begin and end on whole milliseconds |
| VoiceActivity.Windows | spike/aec_bound.py:553-560 | The loops return the windows of all spans, each end rounded to the millisecond, halves to even; times are whole microseconds |
| VoiceActivity.RoundedIsNearest | spike/aec_bound.py:558 | Rounding gives the nearest whole millisecond, and of two as near the even one |
| VoiceActivity.WindowsAreCut | spike/aec_bound.py:556-559 | The windows of a span start at its start, one hop after another, as long as they fit, and none that fits is missing |
| VoiceActivity.WindowInSpan | spike/aec_bound.py:553-560 | Every window lies inside one span |
| VoiceActivity.EveryWindow | spike/aec_bound.py:553-560 | No span's windows are left out |
| VoiceActivity.WindowsApart | spike/aec_bound.py:553-560 | Windows are pairwise disjoint when the hop is at least the window |
| VoiceActivity.VoicedWindows | spike/aec_bound.py:529-560 | From the frames on: every reported window lies inside one voiced span, and with a hop of at least the window no two of them share a tick |
| VoiceActivity.ReportedInSpan | spike/aec_bound.py:553-560 | Rounded windows, too, lie inside one span each, where spans begin and end on whole milliseconds |
| VoiceActivity.ReportedApart | spike/aec_bound.py:553-560 | Rounded windows, too, are pairwise disjoint when the hop is at least the window |
| UnionLength.UnionSeconds | spike/aec_bound.py:822-838 | The sweep returns the measure of the union for any segments, overlapping, repeated or unordered |
| UnionLength.CoveredMeans | spike/aec_bound.py:822-838 | The union holds a tick exactly when some segment does |
| UnionLength.UnionAgainstSum | spike/aec_bound.py:822-838 | The union is at most the summed lengths, and equal exactly when no two segments overlap in positive measure |
| ReviewLedger.EnrichEvent | notes/candidate_exposure.py:475-505 | The event keeps its ID, kind and stripped proposition and gets one bundle for each acceptable candidate, in order |
| ReviewLedger.CheckInputs | notes/candidate_exposure.py:160-212 | Passes exactly when every event is complete and no ID is repeated |
| ReviewLedger.CreateReference | notes/candidate_exposure.py:429-594 | Succeeds exactly when the events are complete, all their candidates known and the section size positive, refused in that order and never by the search; the reference then holds one enriched event per input in order, the section IDs, and a minimum hitting set of the events' option sets |
| Sections.BuildSections | notes/candidate_exposure.py:353-368 | Refuses exactly a size that is not positive; the loop otherwise collects the sections |
| Sections.TurnInOneSection | notes/candidate_exposure.py:353-368 | Each turn is in exactly one section |
| Sections.SectionIs | notes/candidate_exposure.py:353-368 | The k-th section begins k sizes on, has as many turns as the size or what is left, and exposes exactly the candidates anchored in it |
| Sections.SectionIdSpelled | notes/candidate_exposure.py:361 | A section's ID spells the numbers of its first and last turn, counted from 1, in at least four digits |
| Sections.SectionIdsDistinct | notes/candidate_exposure.py:353-368 | No two sections share an ID, so a review can cover them |
| Sections.SectionsExposeManifest | notes/candidate_exposure.py:353-368 | The sections expose a manifest's candidates exactly once each, in manifest order |
| ReviewLedger.ValidateReview | notes/candidate_exposure.py:642-741 | Passes exactly when the review is bound to the reference, covers every event in order with a complete decision, retains no proposition twice and resolves every section; a wrong binding and a wrong coverage are named as such |
| ReviewLedger.BuildRunnerLedger | notes/candidate_exposure.py:744-791 | Succeeds exactly when the review is valid, reports nothing missing and retains something; the ledger then lists one event for each decision that is no rejection, in review order, with the reviewed ID, kind and proposition and exactly the event's selected bundles in the event's order, under its digest |
| ReviewLedger.SelectedAreShown | notes/candidate_exposure.py:766-771 | The bundles promoted are those at the places of the selected ones, in order: no other, and none left out |
| ReviewLedger.PromotedRecords | notes/candidate_exposure.py:760-780 | The promoted events are those at the places of the decisions that reject nothing, in order |
| ReviewLedger.ValidateLedgerShape | notes/classifier_runner.py:265-352 | The runner's check passes exactly the ledgers of the shape `PromotionKeepsShape` is about |
| ReviewLedger.PromotionKeepsShape | notes/classifier_runner.py:265-352 | The promoted ledger passes the runner's shape check if and only if it carries the runner's own registration, some event is retained and no retained event ID is blank; all its bundles are then shown by a candidate |
| ReviewLedger.BlankIdRefused | notes/candidate_exposure.py:160-212 | The failing input, for any stripping that empties a blank and any hashing: an event whose ID is a single blank is accepted as input, validly reviewed, retained and promoted, and its ledger is refused by the shape check |
| ReviewLedger.PromotedIdsDistinct | notes/candidate_exposure.py:763-780 | Promoted event IDs are distinct |
| ReviewLedger.PropositionsDistinct | notes/candidate_exposure.py:763-780 | The ledger's events are the retained decisions, all of them and in review order, with pairwise distinct normalised propositions |
| Exposure.PacketExposure | notes/classifier_runner.py:1071-1121 | Passes exactly when every bundle lies wholly inside some candidate |
| Exposure.EventLedgerReport | notes/classifier_runner.py:1124-1183 | For any decisions, a repeated ID counting by its last verdict: passes exactly when all bundles are exposed and every event has a candidate that shows a whole bundle of it and whose last decision is KEEP; each row then holds exactly those candidates of its event |
| ReviewLedger.KeepsAtLeastMinimum | notes/classifier_runner.py:1124-1172 | When the review rejects nothing, decisions that pass the recall gate keep at least as many candidates as the published minimum |
| Evidence.KeptIdsAreTallied | notes/classifier_runner.py:1216 | The KEEP count is at least the number of IDs whose last verdict is KEEP, and equal when no ID is repeated |
| Evidence.KeptIdsMean | notes/classifier_runner.py:1128-1135 | An ID is kept exactly when the last decision about it is KEEP |
| Evidence.TallyCounts | notes/classifier_runner.py:1216-1217 | A count is the number of places with the verdict |
| Evidence.ByIdLast | notes/candidate_first.py:452-454 | A repeated ID stands for its last row |
| RunClock.TransportFits | notes/classifier_runner.py:1361-1371 | Operations that follow one another take no more time, summed, than passed |
| RunClock.ChatsDisjoint | notes/classifier_runner.py:693-739 | No operation begins before an earlier one has ended, so chat intervals are disjoint |
| RunClock.FollowedNext | notes/classifier_runner.py:693-746 | A chat between two boundary checks is the next call of a run in turn |
| Receipts.MadeValidates | notes/classifier_runner.py:747-779 | The receipt a call leaves behind passes `validate_call_receipt` for that call, and re-derives what the call decoded |
| Receipts.ValidatedIsMade | notes/classifier_runner.py:782-868 | A receipt that validates is, field for field, the one the call would have left with its text, counts and time |
| ClassifierCall.ActiveTimeout | notes/classifier_runner.py:621-644 | Refuses exactly a timeout that is not positive or a deadline already reached at its own reading; otherwise the timeout is the least of the configured one, the time left and the ceiling |
| ClassifierCall.RequireDeadline | notes/classifier_runner.py:647-653 | Passes exactly when the next reading is before the deadline |
| ClassifierCall.ResolveIdentity | notes/classifier_runner.py:656-671 | Makes one resolve in budget, or none, and succeeds if and only if it sees the registered identity with both its readings before the deadline |
| ClassifierCall.TimedChat | notes/classifier_runner.py:724-738 | Makes one chat in budget, or none, and succeeds if and only if the transport answers with the readings around it before the deadline; the time it reports is that of the chat's own interval |
| ClassifierCall.Exchange | notes/classifier_runner.py:717-746 | A chat between two boundary checks: succeeds if and only if the chat is answered and both checks see the registered identity, with every reading before the deadline |
| ClassifierCall.PerformCall | notes/classifier_runner.py:693-779 | A call succeeds if and only if its chat is answered by a complete, well-formed response and both boundary checks see the registered identity in time; it then made exactly a resolve, a chat and a resolve, its receipt retains the chat's answer, tokens and time, and the receipt passes the replay check for the same arguments with the same decision |
| ClassifierCall.AnswersExactly | notes/classifier_runner.py:740-750 | A call is answered exactly by a response that finished at a stop, under either name of the model, with content that reads as a decision of the call's candidates and tokens within the context; the answer is then that reading |
| RegisteredRun.ResolveLast | notes/classifier_runner.py:1538-1544 | The last resolve closes the run's sequence of operations, and passes if and only if it sees the registered identity in time |
| RegisteredRun.RunPreflight | notes/classifier_runner.py:1488-1508 | Succeeds if and only if every preflight call goes through and agrees; the calls follow in turn, their receipts replay and their summed time is the transport's |
| RegisteredRun.RunCorpus | notes/classifier_runner.py:1510-1536 | Succeeds if and only if every corpus call goes through; the calls follow in turn, one a batch, their receipts replay with the transport's own decisions and their summed time is the transport's |
| RegisteredRun.AnsweredMeans | notes/classifier_runner.py:1510-1536 | The decisions of a run are what each corpus call's own answer decides, put together in batch order |
| RegisteredRun.TimeAndReplay | notes/classifier_runner.py:1560-1569 | Of a built result exactly a time above the limit is refused: never one shorter than the transport time, never a failed replay |
| RegisteredRun.Conclude | notes/classifier_runner.py:1545-1569 | Built from receipts that validate, the result is refused if and only if a registered gate fails or the outer time is above the limit; otherwise it replays, counts the decisions made, and holds the preflight's, the corpus's and the outer time |
| RegisteredRun.Run | notes/classifier_runner.py:1447-1569 | In every outcome, under any non-decreasing clock and any transport, each operation started before the deadline with no more than the time left and after the one before it ended. The run returns if and only if the events are exposed, every operation goes through, the gates hold on the transport's own decisions and the outer time is within the limit; the result then replays, its operations are resolve, (resolve, chat, resolve) a call, resolve with the registered identity at every boundary, and transport time is at most outer time, at most the limit. Unexposed events are refused before any operation |
| RunResult.BatchesConcat | notes/candidate_first.py:1091-1101 | The batches put together are the candidates, none is empty or above the size, and all but the last are full |
| RunResult.ValidatePreflight | notes/classifier_runner.py:970-996 | The loop sums the times of the receipts that validate and agree, or returns the first refusal |
| RunResult.ValidateCorpus | notes/classifier_runner.py:999-1068 | The loop collects decisions and times of the receipts that validate, or returns the refusal |
| RunResult.PreflightMeans | notes/classifier_runner.py:970-996 | The preflight loop succeeds exactly when every receipt validates as its own call's and agrees, and returns the sum of their times |
| RunResult.SemanticsMean | notes/classifier_runner.py:902-931 | The fixture call agrees with every fixture verdict; a sabotaged call shows its own verdict throughout, where the fixture's are not all that |
| RunResult.CorpusMeans | notes/classifier_runner.py:1020-1058 | The corpus loop succeeds exactly when every receipt validates as its own batch's, and returns their decisions put together and the sum of their times |
| RunResult.ValidatorDecides | notes/classifier_runner.py:782-868 | A receipt that validates decides its call's candidates once each and in order |
| RunResult.DecidesManifest | notes/classifier_runner.py:1059-1068 | Receipts that validate decide exactly the manifest's candidates, once and in order, so that check cannot fail of its own |
| RunResult.BuildResult | notes/classifier_runner.py:1262-1358 | The method computes the result of its receipts, with its refusals in their order |
| RunResult.BuiltExactly | notes/classifier_runner.py:1262-1306 | Receipts that validate are built into a result if and only if the two counts match, IDs are distinct, every event is recalled and at most 64 IDs are kept; otherwise the first gate missed is named. The summary holds their decisions, the number of each verdict, and the preflight's and the corpus's summed times, each as its own |
| RunResult.ValidateResult | notes/classifier_runner.py:1380-1444 | Replay rebuilds with the retained outer time and compares |
| RunResult.TimedReplays | notes/classifier_runner.py:1361-1444 | Inserting the outer time into a result built without one gives what building with it gives |
| RunResult.ReplayGuarantees | notes/classifier_runner.py:1380-1444 | Whatever replays, from wherever, decides each manifest candidate once and in order, recalls every locked event, keeps at most 64 IDs and counts each verdict, sums the times of its own preflight and corpus receipts, stays within 900 seconds, and lists exactly the candidates that show each bundle and the kept ones that recall each event |
| RunResult.ReplayPinsReceipts | notes/classifier_runner.py:1039-1055 | In whatever replays, the k-th corpus receipt is numbered behind the preflight, is of the k-th batch's candidates and texts, was answered under the registered identity at both boundaries, and proves its prompt and completion within the context |
| RunMinimum.ReplayKeepsMinimum | notes/classifier_runner.py:1380-1444 | Whatever replays against the ledger of a review that rejected nothing keeps at least the reference's published minimum |
| ProductRun.OfferedAt | notes/candidate_first.py:1077-1088 | The k-th offered candidate is the one at k strides, as long as there is one |
| ProductRun.OfferDecidesAlike | notes/candidate_first.py:1077-1088 | At batch size 1, with answers that depend on the candidate alone, the verdicts on the offer are those a full offer gets |
| ProductRun.DecideBatch | notes/product_run.py:371-385 | A batch is decided exactly when its IDs and the transport's verdicts are valid, and then by those verdicts in order |
| ProductRun.Decide | notes/product_run.py:361-387 | Succeeds if and only if every batch is answered validly and in time; every offered candidate is then decided once and in order, by the transport's own verdicts |
| ProductRun.DecidedSays | notes/product_run.py:361-387 | A candidate of a batch is decided KEEP exactly where the transport's word for it is `KEEP` |
| ProductRun.EventRecall | notes/product_run.py:260-281 | Counts exactly the events one of whose bundles is shown by a kept candidate |
| ProductRun.RecallCounts | notes/product_run.py:260-281 | The count is the number of events recalled |
| ProductRun.DecidedCovers | notes/product_run.py:386-393 | Decisions that name each offered candidate once are the coverage the pruner demands |
| ProductRun.Judge | notes/product_run.py:386-405 | An offer decided once each is pruned and put to the gates; over a manifest the outcome is exactly what the gates say of it |
| ProductRun.Gate | notes/product_run.py:394-405 | What is within all three gates passes with its recall and is otherwise unchanged; above the keep limit the refusal names the budget, else below the recall it names the recall, else the time |
| ProductRun.Run | notes/product_run.py:316-423 | A returned product is the fitted pruning of the transport's decisions on the offer, within the keep limit, the recall gate and the time limit; over a manifest neither the count check nor the pruner refuses, and a run answered in time is refused exactly by the first gate its product misses |
| ProductRun.ProductWasKept | notes/product_run.py:361-405 | Every survivor of a returned product is an offered candidate that the transport was asked about and answered with `KEEP` |
| ProductRun.ProductCovers | notes/product_run.py:389-405 | In a product that passes, every offered candidate decided KEEP has a survivor less than the fitted stride away with an anchor at least as long |

## Left out

- SHA-256, JSON serialisation, the JSON parser, the tokenizer, Unicode categories, whitespace classes and case folding are
  function parameters. What is assumed of them stands in the requires clauses: digests are 64 hexadecimal digits
  (`Digests`); unescaping leaves names and verdicts without backslashes as they are (`LeavesPlain`); the blank is
  whitespace and no character of a marker is (`Spacing`); the characters a contract is spelled with are single tokens (`Spells`); and a sampled
  token adds its own text (`LastJoins`). Distinct normalised propositions are stated before hashing.
- `check_one_context` (its file is not part of this model) is a parameter that gives an estimate or none.
- Fragment maps, packet rendering and request texts: candidates and request texts are given. `build_fragment_map` and
  `resolve_fragment` are not part of this model, and `generate_manifest` with its cue patterns is left out.
- Exact key sets and type tests on parsed JSON are represented by datatypes; only relational checks are kept.
- Floating-point rounding: times are reals in the run, integer ticks in `UnionLength` and whole microseconds in `VoiceActivity`. A sum of
  rounded times can differ from the rounded total in its last place.
- VoiceActivity.VoicedSpans: starts from the boolean frame array; the level threshold is not modelled.
- TokenMask.Processor.Process: works on one row of logits, as reals.
- Overlay.FromTransport: the speaker label overrides, a plain dictionary, are left out.
- Classification.AssembleRoundTrip: is about rows; the text between assembling and parsing is the subject of `ResponseText.AssembledDecodes`.
- ResponseReading.ReadsPermutations: the parser is taken to read RFC 8259 and nothing more; Python's also reads `NaN` and `Infinity`, which no accepted response contains.
- ReviewLedger.CreateReference: the per-turn listing, the event links of the sections and the review's fixed texts are left out, and the digests come from a parameter.
- RegisteredRun.Run: the outcome of a failed transport is one error, and the input derivation and lock files before the first resolve are taken as done, except for the exposure check.
- RunResult.BuildResult: the span diagnostic, the input binding and the constant provenance texts of the result are left out.
- RegisteredRun.TimeAndReplay: the source edits the result dictionary in place; here it is a record update, since nothing else holds the dictionary.
- ProductRun.Run: begins at the offer; reading the cycle's files and comparing digests is left out, and the clock is not assumed to be monotone.
- Iteration over a set takes an arbitrary order here; for the marker set the result is proved not to depend on it, and of several smallest sets the search publishes, nothing is proved beyond the order in which its options are tried (`HittingSet.SortedByPreference`).
- `phase_interior`, `classify`, the signal processing of `spike/aec_bound.py`, `qmsum_span_report` and the
  span lists of `qmsum_search_spans` beyond its row mapping.
- The other lanes: note admission, privacy gate, probes, orchestration, HTML rendering, file writing and command lines.
