/** The completion state machine as functions of the tracked text and the
    completion fields (core/src/engine/completion.rs, and the event loop of
    core/src/engine/evaluator.rs). The class `Evaluator` implements them. */
module Completion {
  import opened Text
  import opened Types
  import opened QuoteScan
  import opened RingBuffer
  import opened Expansion

  datatype SelectionMode = CompletionMode

  datatype Fields = Fields(
    active: bool,
    isEmoji: bool,
    originalQuery: string,
    currentText: string,
    suggestions: seq<string>,
    selectedIndex: Option<nat>,
    selectionMode: Option<SelectionMode>)

  /** The tracked text, the completion fields and the captured clipboard. */
  datatype State = State(view: string, c: Fields, clipboard: Option<string>)

  datatype Event = Char(c: char) | Backspace | WordBackspace | ActionKey | Interrupt | Paste(text: string)

  function Activated(isEmoji: bool): Fields {
    Fields(true, isEmoji, [], [], [], None, None)
  }

  function Deactivated(): Fields {
    Fields(false, false, [], [], [], None, None)
  }

  function PushAll(view: string, s: string): string {
    LastN(view + s, CAPACITY)
  }

  function WithTrigger(env: Env, names: seq<string>): (r: seq<string>)
    ensures |r| == |names|
    ensures forall i :: 0 <= i < |r| ==> r[i] == [env.emojiTrigger] + names[i]
  {
    seq(|names|, i requires 0 <= i < |names| => [env.emojiTrigger] + names[i])
  }

  function StripTrigger(env: Env, query: string): string {
    if StartsWith(query, env.emojiTrigger) then query[1..] else query
  }

  /** The suggestions a query has in the mode that is active. */
  function SuggestionsFor(env: Env, isEmoji: bool, query: string): seq<string> {
    if isEmoji then WithTrigger(env, env.shortcodes(StripTrigger(env, query))) else env.wordTriggers(query)
  }

  function Rebuilt(env: Env, c: Fields, query: string): Fields {
    c.(suggestions :=
         if !c.active || !env.tabCompletion || query == [] then [] else SuggestionsFor(env, c.isEmoji, query))
  }

  function QueryText(env: Env, isEmoji: bool, query: string): string {
    if isEmoji && !StartsWith(query, env.emojiTrigger) then [env.emojiTrigger] + query else query
  }

  function ApplyQuery(env: Env, c: Fields, query: string): Fields {
    Rebuilt(env, c.(currentText := QueryText(env, c.isEmoji, query), originalQuery := query,
                    selectedIndex := None, selectionMode := None), query)
  }

  predicate WordBoundary(t: Table, view: string) {
    |view| < 2 || t.space(view[|view| - 2])
  }

  /** After the character ch was pushed. */
  function AfterChar(env: Env, view: string, c: Fields, ch: char): Fields {
    if env.instantExpand then c
    else if env.emojiEnabled && ch == env.emojiTrigger && !c.active && WordBoundary(env.table, view) then Activated(true)
    else if !c.active then c
    else ApplyQuery(env, c, c.currentText + [ch])
  }

  predicate ShortcodeChars(t: Table, query: string) {
    forall i :: 0 <= i < |query| ==> t.alnum(query[i]) || query[i] == '-' || query[i] == '_'
  }

  /** The query the tracked text spells, in the mode that is active. */
  ghost function BufferQuery(env: Env, view: string, isEmoji: bool): Option<string> {
    if isEmoji then TriggerWord(env.table, view, env.emojiTrigger) else TailWord(env.table, view)
  }

  ghost function Synced(env: Env, view: string, c: Fields): Fields {
    var query := BufferQuery(env, view, c.isEmoji);
    if !c.active then c
    else if query.None? || (c.isEmoji && !ShortcodeChars(env.table, query.value)) then Deactivated()
    else ApplyQuery(env, c, query.value)
  }

  ghost predicate BufferValid(env: Env, s: State) {
    BufferQuery(env, s.view, s.c.isEmoji).Some?
  }

  ghost predicate CompletionActive(env: Env, s: State) {
    s.c.active && BufferValid(env, s)
  }

  function Rewrite(s: State, replacement: string): (State, CompletionRewrite) {
    (s.(view := PushAll(Chop(s.view, |s.c.currentText|), replacement), c := s.c.(currentText := replacement)),
     CompletionRewrite(|s.c.currentText|, replacement))
  }

  function PopQuery(t: Table, query: string, word: bool): string {
    if word then PopWord(t, query) else Chop(query, 1)
  }

  ghost function RewriteSelected(env: Env, s: State, word: bool): (State, Option<CompletionRewrite>) {
    if !BufferValid(env, s) then (s.(c := Deactivated()), None)
    else if !s.c.active || s.c.selectionMode.None? then (s, None)
    else
      var next := PopQuery(env.table, s.c.originalQuery, word);
      var (s', r) := Rewrite(s, next);
      (s'.(c := ApplyQuery(env, s'.c, next)), Some(r))
  }

  /** Erasing in a valid selection shows and queries what is left of the query. */
  lemma EraseRequeries(env: Env, s: State, word: bool)
    requires BufferValid(env, s) && s.c.active && s.c.selectionMode.Some?
    ensures var next := PopQuery(env.table, s.c.originalQuery, word);
            RewriteSelected(env, s, word) ==
            (State(PushAll(Chop(s.view, |s.c.currentText|), next),
                   Rebuilt(env, Fields(true, s.c.isEmoji, next, QueryText(env, s.c.isEmoji, next), s.c.suggestions, None, None), next),
                   s.clipboard),
             Some(CompletionRewrite(|s.c.currentText|, next)))
  {
  }

  function NextIndex(selected: Option<nat>, count: nat, forward: bool): (i: nat)
    requires count > 0
    ensures i < count
  {
    match selected
    case Some(index) => if forward then (index + 1) % count else (index + count - 1) % count
    case None => if forward then 0 else count - 1
  }

  ghost function Cycle(env: Env, s: State, forward: bool): (State, Option<CompletionRewrite>) {
    if !env.tabCompletion then (s.(c := s.c.(suggestions := [], selectedIndex := None, selectionMode := None)), None)
    else if !BufferValid(env, s) then (s.(c := Deactivated()), None)
    else if !s.c.active || s.c.originalQuery == [] then (s, None)
    else
      var suggestions := SuggestionsFor(env, s.c.isEmoji, s.c.originalQuery);
      if suggestions == [] then (s.(c := s.c.(suggestions := [], selectedIndex := None)), None)
      else
        var next := NextIndex(s.c.selectedIndex, |suggestions|, forward);
        var (s', r) := Rewrite(s, suggestions[next]);
        (s'.(c := s'.c.(suggestions := suggestions, selectedIndex := Some(next), selectionMode := Some(CompletionMode))),
         Some(r))
  }

  /** Tab without a selection shows and selects the first suggestion. */
  lemma TabSelectsFirst(env: Env, s: State, suggestions: seq<string>)
    requires env.tabCompletion && BufferValid(env, s) && s.c.active && s.c.originalQuery != []
    requires s.c.selectedIndex.None? && suggestions != []
    requires suggestions == SuggestionsFor(env, s.c.isEmoji, s.c.originalQuery)
    ensures var text := suggestions[0];
            Cycle(env, s, true) ==
            (State(PushAll(Chop(s.view, |s.c.currentText|), text),
                   Fields(true, s.c.isEmoji, s.c.originalQuery, text, suggestions, Some(0), Some(CompletionMode)),
                   s.clipboard),
             Some(CompletionRewrite(|s.c.currentText|, text)))
  {
  }

  /** Word completion on the tail word, before any cycling. */
  ghost function ActivateNoCycle(env: Env, s: State): Option<State> {
    var tail := TailWord(env.table, s.view);
    if tail.None? || env.wordTriggers(tail.value) == [] then None
    else Some(s.(c := Activated(false).(currentText := tail.value, originalQuery := tail.value,
                                        suggestions := env.wordTriggers(tail.value))))
  }

  ghost function Activate(env: Env, s: State): (State, Option<CompletionRewrite>) {
    var s' := ActivateNoCycle(env, s);
    if s'.None? then (s, None) else Cycle(env, s'.value, true)
  }

  /** Evaluating the text for an expansion clears it when there is one. */
  ghost function Evaluate(env: Env, s: State): (State, Option<ExpansionResult>) {
    var r := Evaluation(env, s.view);
    (ClearedAfter(s, r.Some?), r)
  }

  function ClearedAfter(s: State, expanded: bool): State {
    if expanded then s.(view := []) else s
  }

  /** A `tau,` span clears the text and the captured clipboard, even when its
      prompt resolves to nothing. */
  function CheckAi(env: Env, s: State): (State, Option<ExpansionResult>) {
    if TauStart(env.table, s.view).None? then (s, None)
    else (s.(view := [], clipboard := None), AiResult(env, s.view, s.clipboard))
  }

  function Reset(s: State): State {
    State([], Deactivated(), None)
  }

  /** Inline AI first, then an expansion of what is left of the text. */
  ghost function Decide(env: Env, s: State): (State, Option<ExpansionResult>) {
    var (s1, ai) := if env.aiEnabled then CheckAi(env, s) else (s, None);
    if ai.Some? then (s1, ai) else Evaluate(env, s1)
  }

  ghost function ProcessAction(env: Env, s: State): (State, Option<ExpansionResult>) {
    var (s2, r) := Decide(env, s);
    (AfterAction(s2, s.c.active, r.Some?), r)
  }

  /** The action key ends a completion; without an expansion it types a line
      break. */
  function AfterAction(s: State, wasActive: bool, expanded: bool): State {
    var s' := if wasActive then s.(c := Deactivated()) else s;
    if !expanded && !s'.c.active then s'.(view := PushAll(s'.view, ['\n'])) else s'
  }

  ghost function ProcessChar(env: Env, s: State, ch: char): (State, Option<ExpansionResult>) {
    var view := PushAll(s.view, [ch]);
    var s1 := s.(view := view, c := AfterChar(env, view, s.c, ch));
    if !env.instantExpand then (s1, None)
    else
      var (s2, r) := Evaluate(env, s1);
      (if r.Some? && s2.c.active then s2.(c := Deactivated()) else s2, r)
  }

  ghost function ProcessErase(env: Env, s: State, word: bool): State {
    if s.c.selectionMode.Some? then RewriteSelected(env, s, word).0
    else
      var view := PopQuery(env.table, s.view, word);
      s.(view := view, c := Synced(env, view, s.c))
  }

  ghost function Process(env: Env, s: State, e: Event): (State, Option<ExpansionResult>) {
    if env.fullscreenSuppressed then (s.(view := [], c := Deactivated()), None)
    else match e
      case Interrupt => (Reset(s), None)
      case Backspace => (ProcessErase(env, s, false), None)
      case WordBackspace => (ProcessErase(env, s, true), None)
      case ActionKey => ProcessAction(env, s)
      case Paste(_) => (s, None)
      case Char(ch) => ProcessChar(env, s, ch)
  }
}
