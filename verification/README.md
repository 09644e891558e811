# Taurine's text engine: model and proofs

Taurine expands text that a user types into somebody else's document. It never sees
that document: it keeps a private copy of what was typed, decides from the copy how many
characters to delete before the caret and what to type instead, and hands both to a
daemon. This project models that engine in Dafny and proves that copy and document stay
in step, that deletions are exact, that cycling and undo take back what they did, and that
five smaller self-contained parts of the repository keep their promises.

Check everything with `dafny verify dfyconfig.toml`.

## How it is built

| module (file) | what it models |
|---|---|
| `Text`, `Types` | strings, the suffix relation, words; expansion results and what the daemon does with them |
| `RingBuffer` (`FastBuffer.dfy`), `History` | the growable capped ring of typed characters, and whole runs of edits on it |
| `QuoteScan`, `SuffixScan`, `WordSuffix` | the scans over the tracked text: quotes, trigger words, suffix and word candidates |
| `Expansion`, `ExpansionLaws`, `Outcomes` | from the text to an expansion result; what a result deletes and types, and which kind decides |
| `Completion`, `EventLaws`, `Lockstep`, `Coherence`, `Cycling` | the completion state machine; what each event does; against the document, over whole runs |
| `Engine` (`Evaluator.dfy`) | the evaluator as a class updated in place, proved equal to the functions above |
| `CaseCycle`, `Undo`, `EndToEnd` | case cycling, backspace undo, and expansion, cycling and undo together |
| `Comma`, `CommaLaws` | digit grouping |
| `Container` | the encrypted export file |
| `Version` | is a published version newer |
| `KeyRace` | the first-install database key under interleaving processes |
| `Emoji` | emoji search, its ranking and its cache |

Code that changes fields or walks an array or a list is a class or a method with loops;
each such method is proved equal to a function of the old state, and the laws are proved
about the function. Unicode tables, the trigger catalogue, unit, colour and date
conversion, emoji tables, ciphers and key derivation are parameters: the theorems hold for
every instantiation that meets the laws stated beside them. Clocks, random bytes and
keystore faults are parameters too.

## Main results

* **When the copy tracks the document.** `Lockstep.RunTracks`: through every interleaving of
  the keys the engine is told of (typed characters, the action key, Backspace, interrupts,
  Tab, cycling, erasing in a selection, cancelling, clipboard placeholders), whatever the
  settings and the catalogue do in between, the tracked text is a suffix of the document,
  as long as no Backspace is stale. A stale one finds a selection on a text that has no
  word any more; `process_event` drops its rewrite. `PassedEraseTracks`: a Backspace that
  the daemon passes on keeps every document in step if and only if it is not stale;
  `StaleSelectionLosesText` is a run on which one is. With tidy catalogues and no text typed
  past completion a word selection never becomes stale (`SelectedEraseRewrites`).
* **When the shown text is in the document.** The text that the next rewrite will delete
  stands before the caret, when it fits the ring: in word mode after every run without text
  typed past completion (`Coherence.RunAnchors`), and in both modes after runs that keep one
  trigger character (`Lockstep.RunShows`), with two steps that keep it exactly under a
  condition. Erasing in an emoji selection does if and only if the trigger character
  survives (`EraseSelectedShows`; `EmojiEraseLosesTrigger` is a run on which it does not).
  Typing past completion, as under instant expansion, does if and only if the typed text
  repeats the shown one (`BypassShows`, `InstantCharShows`).
* **The completion fields agree.** `Coherence.RunIsCoherent`: under one catalogue, after any
  keys, an active completion holds exactly the suggestions of its query and shows the
  selected one or the query, and an inactive one holds nothing. `Coherence.RunAnchors`:
  what a word completion would replace is a whole word of the document.
* **When undo is exact.** `Undo.UndoRestores`: after an expansion and any number of case
  presses, undo restores the document if and only if the retyped text is the text that was
  deleted. `EndToEnd` says when that is, kind of expansion by kind: always for colours,
  units and emoji; for keywords exactly when the keyword was typed with no whitespace but
  spaces; for word fallbacks exactly when the gaps between the replaced words are single
  spaces and nothing trails them. `TabbedKeywordIsNotRestored` and
  `DoubleSpaceIsNotRestored` are inputs on which it is not.
* **What is typed.** `Outcomes` says of each kind of expansion, field by field, what it
  deletes, types, retypes on undo and hands on, in which order the kinds decide, and that
  there is no result exactly when no kind applies. `EventLaws` says what every event does
  to text, completion and clipboard: an erasure without a selection keeps completion
  active if and only if the text left spells a query, and inline AI comes before any
  expansion.
* **Undo once.** `Undo.TakenOnce`, `RoundTripIsFinal`: an entry is handed out once, and after
  an undo no press or Backspace rewrites anything until the next expansion.
* **What opens a file.** `Container.DecryptsExactly`: a file decrypts if and only if its
  application wrap holds a key that opens the payload and, if it has a password part, this
  part opens to the same key under the password; `PasswordErrors` and `NoFile` say which
  error has which cause.
* **Which text is replaced.** A keyword result is the longest suffix that has an
  expansion and stands at a word boundary, with one exception, stated exactly:
  `ExpansionLaws.BoundaryFailsExactly`. A fallback result is the longest word suffix of
  the first conversion that accepts any (`FallbackIsFirstLongest`).
* **The ring is a bounded text**, whatever it wraps or grows, and slots outside the text
  are always zeroed. Every scan over the ring is proved against the plain text.
* **Quote readings agree.** The forward and the backward reading of quotes agree at every
  position if and only if the forward reading ends outside any quotation, for any mixture
  of quote kinds.
* **Exactly when "newer" is precedence.** `Version.NewerIsPrecedence`: on every version of
  Semantic Versioning 2.0.0 without build metadata, `is_newer_version` is the precedence of
  section 11, both ways, if and only if the versions are not `Misordered`: the condition
  names the branch that goes wrong (a hyphen that hides a difference, text beside a number,
  numbers too large for the code). `MixedIdentifiersFormACycle`, `HyphensHideTheRest`,
  `LargeNumbersAreDropped` and `BuildMetadataIsCompared` are failing inputs.
* **Exactly when keys agree.** `KeyRace.AgreementIsUnanimity`: a process that was given the
  stored key keeps it under every interleaving if and only if every process about to store
  holds that key too. `CreatorsCanDisagree` is a run on which two processes get different
  keys; once nobody is about to store, all later fetches agree and the retry heals the
  loser.
* **Exactly when grouping ends.** `Comma.LoopEndsExactly`: the grouping loop comes to its end
  if and only if the last interval is positive or the intervals use up the digits.

## Where the model follows the code rather than its documentation

* The longest suffix candidate has no preceding character even when the text goes on
  (core/src/engine/buffer.rs line 475), so a 30-character candidate always counts as
  standing at a word boundary. `SuffixScan.Candidate` and `ExpansionLaws.Expandable` say so.
* The key that `create_and_store_key` returns is checked by re-reading
  (core/src/db/key.rs lines 44-57); the check rules out a key that was already overwritten,
  not one that is overwritten afterwards.

## Model

| member | source | states |
|---|---|---|
| RingBuffer.FastBuffer.constructor | core/src/engine/buffer.rs:21-28 | a new ring holds the empty text |
| RingBuffer.FastBuffer.Grow | core/src/engine/buffer.rs:30-43 | doubling up to the cap unrolls the ring without changing its text |
| RingBuffer.FastBuffer.Push | core/src/engine/buffer.rs:45-62 | afterwards the ring holds the last CAPACITY characters of the old text and the new character, grown or overwritten |
| RingBuffer.FastBuffer.Pop | core/src/engine/buffer.rs:64-71 | the last character goes, and its slot is zeroed (the class invariant keeps every unused slot zero) |
| RingBuffer.FastBuffer.PopN | core/src/engine/buffer.rs:73-77 | the last count characters go, or all of them |
| RingBuffer.FastBuffer.PopWord | core/src/engine/buffer.rs:79-120 | the ring's word deletion is the word deletion on its text, wrapped or not |
| RingBuffer.FastBuffer.Clear | core/src/engine/buffer.rs:122-126 | the text is empty and every slot is zero |
| RingBuffer.FastBuffer.BufferString | core/src/engine/buffer.rs:128-136 | the string is the ring's text |
| RingBuffer.FastBuffer.AsStr | core/src/engine/buffer.rs:138-166 | the contiguous and the wrapped path both give the ring's text |
| RingBuffer.FastBuffer.IsInsideOpenQuote | core/src/engine/buffer.rs:168-201 | true exactly when the forward reading of the text ends inside a quotation |
| RingBuffer.FastBuffer.CountBackslashesBefore | core/src/engine/buffer.rs:203-216 | the walk over ring slots counts the run of backslashes before a position of the text |
| RingBuffer.FastBuffer.TriggerCharCount | core/src/engine/buffer.rs:219-262 | the walk over ring slots is the counting scan of the text |
| RingBuffer.FastBuffer.ExtractTriggerWord | core/src/engine/buffer.rs:264-324 | returns exactly the trigger word that the declarative definition gives, or none when there is none |
| RingBuffer.FastBuffer.ExtractTailWord | core/src/engine/buffer.rs:326-353 | returns the maximal run of non-whitespace at the end of the text |
| RingBuffer.FastBuffer.ExtractSuffixCandidates | core/src/engine/buffer.rs:385-480 | the loop with its three-capitals-and-minus look-ahead yields the simple candidates: the i-th is the last i characters with whitespace made spaces |
| RingBuffer.FastBuffer.IsWordBoundary | core/src/engine/completion.rs:104-113 | true when the second-last character is whitespace or there is none |
| Text.PopWordIsTheSplit | core/src/engine/buffer.rs:79-120 | of a text split into kept part, maximal one-class word and trailing whitespace, word deletion leaves the kept part; so the split is unique |
| Text.PopWordSplits | core/src/engine/completion.rs:8-33 | every text splits that way around what word deletion leaves, and something is deleted unless it was empty |
| Text.PopWordKeepsSuffix | core/src/engine/buffer.rs:79-120 | a word deleted from a document that ends with the text leaves one that ends with the text after the same deletion |
| Text.TailWordUnique | core/src/engine/buffer.rs:326-353 | a nonempty suffix is the tail word if and only if it has no whitespace and whitespace or the start precedes it |
| History.Apply | core/src/engine/buffer.rs:45-126 | each edit of the ring is the same edit of its bounded text |
| History.RunKeepsSuffix | core/src/engine/buffer.rs:45-126 | after any sequence of edits the ring's text is a suffix of the unbounded text under the same edits |
| History.RunIsExact | core/src/engine/buffer.rs:1-4 | as long as no more than CAPACITY characters were typed, the two texts are equal |
| History.TypingKeepsNewest | core/src/engine/buffer.rs:45-62 | typing any string keeps exactly the newest CAPACITY characters |
| QuoteScan.RunParityIsAutomaton | core/src/engine/buffer.rs:203-216 | an odd run of backslashes before a position means that a left-to-right escape automaton is in its escaped state there |
| QuoteScan.LiveMeans | core/src/engine/buffer.rs:176-188 | the marks that open and close are the unescaped double and single quotes |
| QuoteScan.InsideMeans | core/src/engine/buffer.rs:190-197 | a position is inside a quotation if and only if a live mark outside quotations opened it and none of its kind has come since; the other kind is text |
| QuoteScan.ReadingsAgree | core/src/engine/buffer.rs:168-254 | forward and backward quote state agree at every position if and only if the forward reading ends outside quotations |
| QuoteScan.TriggerIsOutsideQuotes | core/src/engine/buffer.rs:264-324 | in a text with all quotations closed the trigger that the backward scan finds is outside quotations in the forward reading |
| QuoteScan.ScannedIsTriggerWord | core/src/engine/buffer.rs:219-324 | the counting scan and the collecting scan together find exactly the words that a last bare trigger starts, without bare whitespace other than spaces, and with no second bare trigger before the next bare whitespace |
| QuoteScan.TriggerWord | core/src/engine/buffer.rs:264-324 | the text ends with the trigger character and the word literally, and no word is missed |
| QuoteScan.TriggerUnique | core/src/engine/buffer.rs:264-324 | a text has at most one trigger word |
| QuoteScan.QuoteFreeTrigger | core/src/engine/buffer.rs:219-324 | without quotes the trigger word starts at the last trigger character, has no whitespace but spaces, and whitespace separates it from every other trigger character |
| SuffixScan.CandidatesFromTail | core/src/engine/buffer.rs:470-479 | the candidates built in one pass from the reversed buffer are the simple ones, the longest without a preceding character |
| WordSuffix.BuildWordCandidates | core/src/engine/fallback.rs:12-22 | the candidates are the last k words joined by spaces, six words or all first, one word last |
| WordSuffix.FallbackNeverOverDeletes | core/src/engine/fallback.rs:12-31 | k joined words are no longer than the text from the k-th last word to the end, and as long exactly when every gap is one character and nothing trails |
| WordSuffix.JoinedIsLiteral | core/src/engine/fallback.rs:18-22 | the text ends literally with k joined words exactly when every gap from the k-th last word on is one space and nothing trails |
| WordSuffix.WordStartMeaning | core/src/engine/fallback.rs:12-22 | where that text begins a word begins, after whitespace or at the start |
| ExpansionLaws.TailResultsAreExact | core/src/engine/expansion.rs:39-93 | colour and unit results delete the tail word, which the text ends with and undo retypes |
| ExpansionLaws.EmojiResultsAreExact | core/src/engine/expansion.rs:96-113 | emoji results delete the trigger character and the word, which the text ends with and undo retypes |
| ExpansionLaws.SuffixResultIsLongest | core/src/engine/expansion.rs:168-211 | a keyword result is the longest expandable suffix (it has an expansion, and stands at a boundary or is the longest candidate), deletes its length, and is missing exactly when there is none |
| ExpansionLaws.BoundaryFailsExactly | core/src/engine/buffer.rs:470-479 | a keyword result is cut out of the middle of a word if and only if a letter or digit precedes the last 30 characters and these have an expansion |
| ExpansionLaws.ThirtyLettersInsideWord | core/src/engine/buffer.rs:470-479 | a text of 31 letters on which that happens |
| ExpansionLaws.NormalIsLiteral | core/src/engine/buffer.rs:446-455 | the keyword is literally what the text ends with if and only if its only whitespace is the space |
| ExpansionLaws.HitIsLongest | core/src/engine/fallback.rs:25-40 | a conversion's result replaces the longest word suffix it accepts, and is missing only when it accepts none |
| ExpansionLaws.FallbackIsFirstLongest | core/src/engine/fallback.rs:24-157 | the fallback's result is the longest replacement of the first conversion that accepts anything, and is missing exactly when none does |
| ExpansionLaws.FallbackDeletesWithin | core/src/engine/fallback.rs:25-155 | that result replaces the last one to six words and deletes no more than the text they take up |
| ExpansionLaws.AiDeletesTheSpan | core/src/engine/evaluator.rs:312-365 | inline AI deletes the leftmost `tau,` with a prompt on the last line, to the end, and offers no undo |
| ExpansionLaws.TauMeaning | core/src/engine/evaluator.rs:391-394 | the pattern is `tau,` in any case, after whitespace or the start, with something other than whitespace after it |
| ExpansionLaws.DeletionIsExact | core/src/engine/expansion.rs:25-284 | whatever branch decides, what undo retypes is as long as what was deleted; unless it is the dictionary or a regex trigger, something is deleted and no more than the text holds |
| Outcomes.ColorOutcome | core/src/engine/expansion.rs:39-55 | a colour comes first: its conversion replaces the tail word |
| Outcomes.UnitOutcome | core/src/engine/expansion.rs:57-94 | then a unit: the converted quantity, in lakh grouping, in the input's own groups or as it is, replaces the tail word |
| Outcomes.ReplacesTypes | core/src/engine/fallback.rs:30-40 | what a replacement types is the converted text |
| Outcomes.EmojiOutcome | core/src/engine/expansion.rs:96-114 | then an emoji, for the trigger character and the word |
| Outcomes.DictionaryOutcome | core/src/engine/expansion.rs:115-166 | then the dictionary: a spinner and a look-up of the word |
| Outcomes.KeywordOutcome | core/src/engine/expansion.rs:168-211 | then the longest expandable suffix: the catalogue's own steps and undo, or a spinner and the AI transformer |
| Outcomes.RegexOutcome | core/src/engine/expansion.rs:213-270 | then a regex trigger, in the same way |
| Outcomes.FallbackOutcome | core/src/engine/fallback.rs:24-157 | last a fallback: the first accepting conversion's value replaces the longest suffix it accepts |
| Outcomes.NothingOutcome | core/src/engine/expansion.rs:25-284 | there is no result if and only if no kind applies |
| Engine.PopWordFromQuery | core/src/engine/completion.rs:8-33 | the string function is the same word deletion as the ring's |
| Engine.TriggerCompletionState.Activate | core/src/engine/evaluator.rs:87-100 | an activated completion has no query, text, suggestion or selection |
| Engine.TriggerCompletionState.Deactivate | core/src/engine/evaluator.rs:102-111 | a deactivated completion has none either |
| Engine.Evaluator.Reset | core/src/engine/evaluator.rs:143-147 | text, completion and captured clipboard are cleared |
| Engine.Evaluator.IsBufferValidForCompletion | core/src/engine/completion.rs:40-47 | true exactly when the text has a tail word or, in emoji mode, a trigger word |
| Engine.Evaluator.ApplyUserQuery | core/src/engine/completion.rs:173-188 | the new completion fields for a user's query, emoji trigger restored, selection dropped |
| Engine.Evaluator.RebuildCompletionSuggestions | core/src/engine/completion.rs:198-219 | the suggestions are those of the query in the active mode, or none |
| Engine.Evaluator.UpdateCompletionAfterChar | core/src/engine/completion.rs:115-140 | the completion fields after a typed character |
| Engine.Evaluator.SyncCompletionFromBuffer | core/src/engine/completion.rs:142-171 | the completion fields after an edit, from the query the text now spells |
| Engine.Evaluator.AppendToBuffer | core/src/engine/evaluator.rs:306-310 | the text is appended, the newest CAPACITY characters kept |
| Engine.Evaluator.RewriteCurrentText | core/src/engine/completion.rs:221-234 | the ring loses the shown text and gains the replacement, and the rewrite says so |
| Engine.Evaluator.RewriteSelectedQuery | core/src/engine/completion.rs:236-256 | the whole new state and the rewrite of a Backspace in a selection |
| Engine.Evaluator.CycleCompletion | core/src/engine/completion.rs:258-319 | the whole new state and the rewrite of Tab and Shift-Tab |
| Engine.Evaluator.ActivateTriggerlessCompletionNoCycle | core/src/engine/completion.rs:73-86 | completion starts on the tail word exactly when it has suggestions |
| Engine.Evaluator.ActivateTriggerlessCompletion | core/src/engine/completion.rs:57-71 | the whole new state and the rewrite of Tab outside completion |
| Engine.Evaluator.FindExpansion | core/src/engine/expansion.rs:25-284 | the branches are tried in the source's order, each on the ring's text |
| Engine.Evaluator.EvaluateBufferForExpansion | core/src/engine/expansion.rs:25-284 | the text is cleared exactly when there is a result |
| Engine.Evaluator.SearchSuffixes | core/src/engine/expansion.rs:168-211 | the loop from the longest candidate down stops at the longest match |
| Engine.Evaluator.CheckAllInlineFallbacks | core/src/engine/fallback.rs:6-157 | the nested searches return the first conversion's longest hit |
| Engine.Evaluator.CheckInlineAiTrigger | core/src/engine/evaluator.rs:312-365 | a span clears text and clipboard even when its prompt resolves to nothing |
| Engine.Evaluator.ProcessActionKey | core/src/engine/evaluator.rs:254-271 | inline AI before expansion, completion ended, a line break tracked when nothing expanded |
| Engine.Evaluator.ProcessEvent | core/src/engine/evaluator.rs:215-294 | the whole new state and the result for every event, fullscreen suppression included |
| EventLaws.CharContinues | core/src/engine/completion.rs:115-140 | while completion is active a character extends the shown text, which becomes the query with its own suggestions |
| EventLaws.CharStarts | core/src/engine/completion.rs:123-135 | otherwise the emoji trigger starts an emoji completion if and only if emoji are enabled and whitespace or the start precedes it |
| EventLaws.CharExpands | core/src/engine/evaluator.rs:273-291 | under instant expansion the text is evaluated at every character, past completion |
| EventLaws.EraseAsksAgain | core/src/engine/completion.rs:142-171 | without a selection completion survives an erasure if and only if the text left ends in a word (in emoji mode a trigger word of shortcode letters), which is then the query |
| EventLaws.SelectionErases | core/src/engine/completion.rs:236-256 | in a selection the shown text is replaced by the shortened query, which is asked again; on a text that spells no query completion ends |
| EventLaws.EventErasesSelection | core/src/engine/evaluator.rs:234-252 | the event does the same to the state and drops the rewrite |
| EventLaws.CycleSelects | core/src/engine/completion.rs:258-319 | the neighbouring suggestion of the query, in either mode, replaces what is shown |
| EventLaws.CycleDoesNothing | core/src/engine/completion.rs:258-301 | otherwise nothing is rewritten, and which fields go |
| EventLaws.TabStarts | core/src/engine/completion.rs:57-71 | Tab on a word with suggestions completes it to the first |
| EventLaws.TabStartsBare | core/src/engine/completion.rs:57-71 | with Tab completion off it starts a completion with nothing to select |
| EventLaws.TabDoesNothing | core/src/engine/completion.rs:57-62 | Tab on anything else changes nothing |
| EventLaws.ActionPrefersAi | core/src/engine/evaluator.rs:254-263 | an inline-AI span whose prompt resolves to something is deleted and handed on before any expansion |
| EventLaws.ActionForgetsEmptyPrompt | core/src/engine/evaluator.rs:324-349 | a span whose prompt resolves to nothing takes text and clipboard with it |
| EventLaws.ActionExpands | core/src/engine/evaluator.rs:258-271 | without a span the text is evaluated, and a line break tracked if it expands to nothing |
| EventLaws.OtherEvents | core/src/engine/evaluator.rs:221-234 | an interrupt forgets everything, a suppressing window clears text and completion, a pasted text is ignored |
| Lockstep.StepTracks | core/src/engine/evaluator.rs:227-293 | one key that is not a stale Backspace keeps the tracked text a suffix of the document |
| Lockstep.PassedEraseTracks | core/src/engine/evaluator.rs:234-252 | a Backspace that is passed on (daemon/src/hook/listener/mod.rs 585-607) keeps every document in step if and only if nothing is selected, nothing is tracked or the engine is suppressed |
| Lockstep.StaleSelectionLosesText | core/src/engine/evaluator.rs:234-237 | a run whose last Backspace changes the document and not the tracked text |
| Lockstep.UntoldErase | daemon/src/hook/listener/mod.rs:722-726 | an erasure that only the document sees keeps every document in step if and only if nothing is tracked |
| Lockstep.RunTracks | core/src/engine/completion.rs:57-319 | so does any run without stale Backspaces, under any settings and catalogues, and a selected index always selects the shown text |
| Lockstep.StepShows | core/src/engine/completion.rs:115-256 | one careful key keeps the shown text at the end of the tracked text |
| Lockstep.RunShows | core/src/engine/completion.rs:57-319 | after any careful run the document ends with what the next rewrite deletes |
| Lockstep.EraseSelectedShows | core/src/engine/completion.rs:236-256 | erasing in a selection keeps it there if and only if the emoji trigger survives (always in word mode), or the query is too long for the ring |
| Lockstep.BypassShows | core/src/engine/evaluator.rs:306-310 | text typed past completion keeps the shown text at the end of the tracked text if and only if it repeats it |
| Lockstep.InstantCharShows | core/src/engine/completion.rs:115-122 | so a character under instant expansion does if and only if the shown text consists of that character |
| Lockstep.EmojiEraseLosesTrigger | core/src/engine/completion.rs:173-188 | a four-key run after which the engine shows an emoji trigger that the document does not hold |
| Lockstep.SelectedEraseRewrites | core/src/engine/completion.rs:236-256 | when no suggestion is empty or ends in whitespace, erasing in a word selection always rewrites, after any run |
| Lockstep.Start | core/src/engine/evaluator.rs:131-141 | a new engine satisfies every invariant in front of any document |
| Coherence.ActionEndsCompletion | core/src/engine/evaluator.rs:223-271 | the action key and an interrupt leave a coherent completion inactive and empty |
| Coherence.RunIsCoherent | core/src/engine/completion.rs:115-319 | under one catalogue any run keeps suggestions, query, selection and shown text in agreement, and an inactive completion empty |
| Coherence.RunAnchors | core/src/engine/completion.rs:57-319 | after any run without instant expansion the text a word completion shows is a whole word at the end of text and document, and the tail word when it holds no whitespace |
| Cycling.CycleOnce | core/src/engine/completion.rs:258-319 | one key turns the index by one and replaces exactly the selected suggestion in the document |
| Cycling.CyclingTurnsTheRing | core/src/engine/completion.rs:258-319 | after any keys the document is the untouched prefix and the suggestion at the turned index, and the query is unchanged |
| Cycling.CyclingActsOnStates | core/src/engine/completion.rs:258-319 | when suggestions fit the ring, engine state and document together are a function of the index alone |
| Cycling.CyclingIsCyclic | core/src/engine/completion.rs:303-309 | opposite keys cancel, and as many keys as suggestions return to the start, in state and document |
| Cycling.TabSelects | core/src/engine/completion.rs:57-71 | Tab on a tail word with suggestions selects the first and changes nothing left of the word |
| Cycling.EraseAfterCycling | core/src/engine/completion.rs:236-256 | erasing after any cycling leaves the prefix and the query without its last character or word |
| CaseCycle.RenderSentence | core/src/engine/case_cycle.rs:93-105 | the flag loop gives the text with the character at its first letter in upper case |
| CaseCycle.SentenceChangesFirstLetter | core/src/engine/case_cycle.rs:93-105 | a text without letters stays as it is; otherwise the first letter is replaced and all before and after it is kept |
| CaseCycle.RenderTitle | core/src/engine/case_cycle.rs:107-123 | the loop capitalises a letter exactly after whitespace or at the start |
| CaseCycle.TitleChangesFirstLetters | core/src/engine/case_cycle.rs:107-123 | character by character: a letter that begins a word in upper case, anything else itself |
| CaseCycle.CaseCycleSession.Advance | core/src/engine/case_cycle.rs:52-80 | the loop ends within one lap at the first variant that looks different, and the session still shows its variant of the original |
| CaseCycle.AdvanceChangesText | core/src/engine/case_cycle.rs:52-80 | a press changes the text if and only if some variant looks different |
| CaseCycle.OppositeRestores | core/src/engine/case_cycle.rs:52-80 | a press in the other direction restores the displayed text |
| CaseCycle.FourPressesReachAll | core/src/engine/case_cycle.rs:20-80 | at most four presses in one direction show any given rendering |
| CaseCycle.NextShowsAllInOrder | core/src/engine/case_cycle.rs:20-26 | when all renderings differ, Next shows sentence, title, upper and lower case and then the original |
| CaseCycle.LooksOf | core/src/engine/case_cycle.rs:83-91 | what each of them shows |
| Undo.EngineState.SetUndoState | core/src/engine/state.rs:302-311 | an entry is stored, or both entries are cleared for an empty trigger or output |
| Undo.EngineState.RefreshUndoState | core/src/engine/state.rs:313-321 | length and time are renewed only for the same trigger |
| Undo.EngineState.RegisterCaseCycle | core/src/engine/state.rs:354-358 | a fresh session on the expanded text |
| Undo.EngineState.AdvanceCaseVariant | core/src/engine/state.rs:360-385 | the rewrite replaces the shown text by the next rendering, and the undo entry takes its length |
| Undo.EngineState.ClearUndoState | core/src/engine/state.rs:393-398 | undo entry and session are gone |
| Undo.EngineState.TakeActiveUndoState | core/src/engine/state.rs:400-410 | the entry is handed out once and only inside the window; the session is gone either way |
| Undo.AllowsBlindUndo | core/src/engine/undo.rs:5-31 | allowed exactly for text-only steps of less than the payload limit in bytes, saturation included |
| Undo.CyclingStaysInStep | core/src/engine/state.rs:360-385 | after any presses the document is the prefix and the shown rendering, and the undo length is its length |
| Undo.ExpandCycleUndo | core/src/engine/state.rs:302-411 | expansion, any presses and undo inside the window leave the undo trigger in place of what was deleted |
| Undo.UndoRestores | core/src/engine/state.rs:302-411 | so the document is restored if and only if the undo trigger is the text that was deleted |
| Undo.TakenOnce | core/src/engine/state.rs:400-410 | an entry is handed out inside five seconds and never again |
| Undo.RoundTripIsFinal | core/src/engine/state.rs:360-410 | after an undo no press and no Backspace rewrites anything |
| Undo.PressRewrites | core/src/engine/state.rs:360-385 | a press rewrites if and only if the session was used before or is younger than five seconds, and by what |
| Undo.ArmedAnswers | daemon/src/hook/dispatch.rs:133-160 | what an undoable expansion arms |
| Undo.NotArmed | daemon/src/hook/dispatch.rs:133-160 | any other expansion leaves nothing to undo or cycle |
| Undo.StoreAndRefresh | core/src/engine/state.rs:302-321 | no entry for an empty trigger or output, and a refresh of its own trigger only |
| Undo.NoUndo | core/src/engine/state.rs:400-410 | outside the window the document is untouched and the entry is dropped |
| Undo.LateRefresh | core/src/engine/state.rs:313-321 | a refresh that arrives after case presses is right exactly when the lengths agree, or the document held nothing else |
| EndToEnd.LiteralExpansionsUndo | core/src/engine/expansion.rs:39-113 | colour, unit and emoji expansions are always undone exactly |
| EndToEnd.SuffixExpansionsUndo | core/src/engine/expansion.rs:168-211 | keyword expansions are undone exactly if and only if the keyword held no whitespace but spaces |
| EndToEnd.FallbackExpansionsUndo | core/src/engine/fallback.rs:25-155 | fallback expansions are undone exactly if and only if every gap between the replaced words is one space and nothing trails |
| EndToEnd.TabbedKeywordIsNotRestored | core/src/engine/buffer.rs:446-455 | a keyword typed with a tab, which undo retypes with a space |
| EndToEnd.DoubleSpaceIsNotRestored | core/src/engine/fallback.rs:18-31 | two words with two spaces between them, of which undo leaves an extra character |
| EndToEnd.ExpansionsUndo | core/src/engine/expansion.rs:25-284 | whatever branch decides, an offered undo is exact if and only if the document ends with what it retypes (the tracked text, unless a regex trigger decided) |
| Comma.Preprocess | core/src/engine/comma.rs:4-31 | commas erased, and the positive group lengths of the first grouped number |
| Comma.CountGroups | core/src/engine/comma.rs:14-24 | the reversed scan counts the groups right to left without the leading one |
| Comma.FormatResult | core/src/engine/comma.rs:33-104 | groups the number a result starts with, for all results and intervals on which the source comes to an end |
| Comma.LoopEndsExactly | core/src/engine/comma.rs:72-98 | the loop runs out of digits if and only if the last interval is positive or the intervals together are long enough |
| Comma.FormatInteger | core/src/engine/comma.rs:72-98 | the digit-by-digit reversed loop is grouping from the right |
| CommaLaws.FormattingOnlyInsertsCommas | core/src/engine/comma.rs:33-104 | erasing commas from the output gives what erasing them from the result gives, so a comma-free result itself |
| CommaLaws.NoNumber | core/src/engine/comma.rs:39-53 | a result is left alone if and only if no digit follows its optional sign or it has a line break |
| CommaLaws.GroupingRoundTrip | core/src/engine/comma.rs:4-104 | reading the groups of a number, erasing and formatting restores it if and only if its leading group is no longer than the next |
| CommaLaws.ReformattingIsStable | core/src/engine/comma.rs:4-104 | for positive non-increasing intervals, re-deriving intervals from the output and formatting again changes nothing |
| Container.Encrypt | core/src/exchange/crypto.rs:75-117 | the bytes written, or the first error in the source's order |
| Container.ReadFile | core/src/exchange/crypto.rs:119-171 | every offset is in range for any bytes, and the parts are the slices at fixed offsets |
| Container.Decrypt | core/src/exchange/crypto.rs:119-232 | a plaintext or an error for any bytes, the errors in the source's order |
| Container.ParseSerialize | core/src/exchange/crypto.rs:99-171 | reading undoes writing |
| Container.SerializeParse | core/src/exchange/crypto.rs:119-171 | whatever is accepted is exactly what writing its parts gives |
| Container.DecryptEncrypt | core/src/exchange/crypto.rs:75-232 | what is encrypted decrypts with the same password, and without one under any |
| Container.DecryptsExactly | core/src/exchange/crypto.rs:173-232 | a file decrypts to p if and only if its application wrap holds a key that opens the payload to p and, if it has a password part, this part opens to the same key under a non-blank password |
| Container.PasswordErrors | core/src/exchange/crypto.rs:173-219 | which failure gives which error |
| Container.OtherPasswords | core/src/exchange/crypto.rs:198-219 | a written file opens under another password if and only if that opens the password wrap to the same data key; if it does not open it the password is wrong |
| Container.NoFile | core/src/exchange/crypto.rs:119-145 | too short, wrong header and unsupported flags, each if and only if the bytes say so |
| Container.EncryptRefuses | core/src/exchange/crypto.rs:34-48 | a password is refused if and only if it is blank or shorter than eight bytes |
| Container.PasswordIsNeeded | core/src/exchange/crypto.rs:173-177 | the reader refuses a file that was written with a password when given none or a blank one |
| Container.BothWrapsHoldTheKey | core/src/exchange/crypto.rs:80-97 | the application wrap and the password wrap hold the same data key, the one the payload is sealed with; the first does not depend on the password |
| Container.AcceptedIsWellFormed | core/src/exchange/crypto.rs:119-232 | whatever decrypts is the bytes of a well-formed file that the password unlocks |
| Version.IsNewerVersion | cli/src/commands/update.rs:437-489 | the early-return comparison, missing fields and dropped components included |
| Version.NewerIsAsymmetric | cli/src/commands/update.rs:437-489 | on all strings no version is newer than itself or than one that is newer than it |
| Version.NewerIsPrecedence | cli/src/commands/update.rs:437-489 | on numbers of any size and identifiers with hyphens, both ways it is precedence as in section 11 of Semantic Versioning 2.0.0 if and only if the versions are not misordered |
| Version.NewerReads | cli/src/commands/update.rs:437-489 | the code compares the numbers that fit 32 bits and then what stands before the next hyphen |
| Version.ParseSpellings | cli/src/commands/update.rs:443-444 | a plus sign and leading zeros do not change a number |
| Version.LargestNumbers | cli/src/commands/update.rs:443-444 | the largest components and identifiers that are read as numbers |
| Version.OrderIsClash | cli/src/commands/update.rs:466-483 | two identifiers that the code sees differently are ordered as the standard says if and only if they do not clash |
| Version.PreOrder | cli/src/commands/update.rs:461-489 | lifted to whole pre-releases, at the first identifiers that differ |
| Version.PlainNewerIsPrecedence | cli/src/commands/update.rs:437-489 | without hyphens it is precedence, in either direction, if and only if the first identifiers that differ are not a number and a text before its digits |
| Version.NewerIsStrictTotalOrder | cli/src/commands/update.rs:437-489 | where identifiers are numbers or start with a letter it is precedence and a strict total order |
| Version.HyphensHideTheRest | cli/src/commands/update.rs:437-456 | versions that differ only after a second hyphen are left unordered |
| Version.LargeNumbersAreDropped | cli/src/commands/update.rs:443-444 | a version with a number beyond 32 bits that counts as older than 1.0.0 |
| Version.BuildMetadataIsCompared | cli/src/commands/update.rs:443-444 | build metadata that makes a version newer than the same one without |
| Version.MixedIdentifiersFormACycle | cli/src/commands/update.rs:476-482 | outside, identifiers with a leading digit and letters form a cycle |
| KeyRace.DecodeEncode | core/src/db/key.rs:24-40 | a stored key decodes to itself |
| KeyRace.DecodeAccepts | core/src/db/key.rs:24-32 | decoding accepts an even number of hexadecimal digits and nothing else |
| KeyRace.UpperCaseDigits | core/src/db/key.rs:24-32 | of either case |
| KeyRace.GetOrCreateKey | core/src/db/key.rs:16-58 | without interleaving the code is the three steps of the state machine, faults included |
| KeyRace.OnlyObserversWrite | core/src/db/key.rs:16-44 | only a process that saw no entry writes, and with an entry nobody new comes to write |
| KeyRace.WritesAreBounded | core/src/db/key.rs:38-44 | once there is an entry it is written at most once more per process about to store |
| KeyRace.SettledForever | core/src/db/key.rs:16-58 | once nobody is about to store, the entry never changes again |
| KeyRace.FinishingAgrees | core/src/db/key.rs:16-58 | then every fetch that finishes returns the stored key or fails, ever after |
| KeyRace.OverwrittenCreatorFails | core/src/db/key.rs:38-58 | a creator gets its key exactly when the last key stored before its re-read is its own, and otherwise an error |
| KeyRace.CreatorsCanDisagree | core/src/db/key.rs:38-58 | a run in which two creators are given different keys |
| KeyRace.AgreementIsUnanimity | core/src/db/key.rs:16-58 | a process given the stored key agrees with the keystore under every interleaving if and only if all who are about to store hold the same key |
| KeyRace.OpenKeyedConnection | core/src/db/key.rs:70-92 | at most two fetches and two attempts, the second of each exactly when the source makes it |
| KeyRace.OpenOutcomes | core/src/db/key.rs:70-92 | when a database opens and with which key, when no key can be had, and with which error opening fails |
| KeyRace.FetchMeans | core/src/db/key.rs:16-36 | what a fetch returns for a missing, a good and a corrupt entry |
| KeyRace.RetryHeals | core/src/db/key.rs:60-92 | whatever others do before the entry settles and after the second fetch, the retry opens a database keyed with the final entry exactly when that fetch succeeds or the first key was right |
| Emoji.SortedIsUnique | core/src/engine/emoji.rs:275-279 | a strictly sorted result is determined by its elements, whatever sort and input order produced it |
| Emoji.Deduplicate | core/src/engine/emoji.rs:258-268 | each matching emoji is kept once with its best score, then shortest, match |
| Emoji.RankingIsUnique | core/src/engine/emoji.rs:216-282 | there is only one list of the matching emoji, each with its best match, in order |
| Emoji.SearchUncached | core/src/engine/emoji.rs:216-282 | the search returns it for every order in which the hash map yields its entries: the emoji that match, aliases that are the query first, then other aliases, then names, shorter and alphabetical within |
| Emoji.MatchMeaning | core/src/engine/emoji.rs:228-234 | a text matches if and only if every whole word of the query is a whole word of it |
| Emoji.BuildCache | core/src/engine/emoji.rs:185-201 | every cached list is what the search returns, and every alias and name is cached |
| Emoji.Search | core/src/engine/emoji.rs:203-214 | the cached search is the uncached one on every query |
| Emoji.SearchEmojiShortcodes | core/src/engine/emoji.rs:1-18 | exactly the hyphenated shortcodes that continue the query, once each, in order |
| Emoji.ContinuesMeaning | core/src/engine/emoji.rs:5-12 | hyphens and underscores stand for each other in shortcodes, and nothing else does |
| Text.TrimMeaning | core/src/engine/emoji.rs:204 | trimming takes the whitespace from both ends and only that |
| Text.Utf8RoundTrip | core/src/exchange/crypto.rs:42 | the byte length of a text is that of its UTF-8 encoding, which decodes |
| Text.TextLessMeaning | cli/src/commands/update.rs:483 | texts are ordered at the first character that differs |

## Left out

- Version.NewerIsPrecedence: versions with build metadata, which the code does not remove before it splits at hyphens and dots (cli/src/commands/update.rs lines 438-444), are not covered; BuildMetadataIsCompared is an input on which it goes wrong.
- Lockstep.RunShows: careful runs keep one emoji trigger character throughout; a changed one leaves the completion fields with the old character.
- Lockstep.RunTracks: keys the engine is never told of (shortcuts such as a paste, and a word deletion outside completion on Windows and macOS, daemon/src/hook/listener/mod.rs lines 722-726 and 786-789) are not steps, nor is the Paste event, which nobody sends and the engine ignores; UntoldErase says what such an erasure does. How the editor deletes a word is taken to be the engine's own word deletion.
- ExpansionLaws.DeletionIsExact: dictionary and regex results take their delete count from a regular expression or a keyword that need not be in the text, so no bound by the text is stated for them.
- Undo.UndoRestores: the injection is taken to succeed completely before the refresh; a refresh with another length is covered by LateRefresh.
- The dictionary regular expression and its intent pre-check, user regex triggers, and natural-language dates and time zones: parameters, since they rest on tables, clocks and libraries.
- `resolve_prompt`: clipboard placeholders inside an inline-AI prompt are one abstract function of the prompt and the captured text.
- The application key of the export container and its masking: a parameter.
- Zeroing of keys, cipher strength, the real keyring and SQLite.
- Poisoned locks and the relaxed atomic mirror of the completion flag.
- The trigger catalogue, templates, hotkeys, import and deletion, CLI, terminal and tray interfaces, downloads, logging and statistics.
