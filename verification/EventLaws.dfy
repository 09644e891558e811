/** What every event does, said outright: in terms of the text, the catalogue and
    the fields before it, and not of the functions the state machine is made of. */
module EventLaws {
  import opened Text
  import opened Types
  import opened QuoteScan
  import opened RingBuffer
  import opened Expansion
  import opened Completion

  // ------------------------------------------------------------- vocabulary

  /** No completion: every field is cleared. */
  predicate Ended(c: Fields) {
    && !c.active && !c.isEmoji && c.originalQuery == [] && c.currentText == [] && c.suggestions == []
    && c.selectedIndex.None? && c.selectionMode.None?
  }

  /** The suggestions of a query: those of the catalogue in word mode; in emoji
      mode the shortcodes of the query without a leading trigger, each with the
      trigger before it. */
  predicate Lists(env: Env, isEmoji: bool, query: string, ss: seq<string>)
    requires query != []
  {
    if !isEmoji then ss == env.wordTriggers(query)
    else
      var codes := env.shortcodes(if query[0] == env.emojiTrigger then query[1..] else query);
      |ss| == |codes| && forall i :: 0 <= i < |ss| ==> ss[i] == [env.emojiTrigger] + codes[i]
  }

  /** Completion is on this query and nothing is selected. The query is shown, in
      emoji mode with the trigger before it. */
  predicate Asks(env: Env, isEmoji: bool, query: string, c: Fields) {
    && c.active && c.isEmoji == isEmoji && c.originalQuery == query
    && c.selectedIndex.None? && c.selectionMode.None?
    && c.currentText == (if isEmoji && (query == [] || query[0] != env.emojiTrigger) then [env.emojiTrigger] + query
                         else query)
    && (if env.tabCompletion && query != [] then Lists(env, isEmoji, query, c.suggestions) else c.suggestions == [])
  }

  /** w is the last word of the text: nonempty, without whitespace, and with
      whitespace or the start before it. */
  predicate EndsInWord(t: Table, view: string, w: string) {
    && w != [] && EndsWith(view, w) && (forall i :: 0 <= i < |w| ==> !t.space(w[i]))
    && (|w| < |view| ==> t.space(view[|view| - |w| - 1]))
  }

  /** w is the emoji trigger word of the text. */
  ghost predicate EndsInTrigger(env: Env, view: string, w: string) {
    |w| < |view| && EndsWith(view, w) && TriggerAt(env.table, view, env.emojiTrigger, |view| - 1 - |w|)
  }

  ghost predicate EndsInQuery(env: Env, view: string, isEmoji: bool, w: string) {
    if isEmoji then EndsInTrigger(env, view, w) else EndsInWord(env.table, view, w)
  }

  lemma WordQuery(t: Table, view: string, w: string)
    ensures TailWord(t, view) == Some(w) <==> EndsInWord(t, view, w)
  {
    TailWordEnds(t, view);
    if w != [] && EndsWith(view, w) {
      TailWordUnique(t, view, w);
    }
  }

  lemma TriggerQuery(env: Env, view: string, w: string)
    ensures TriggerWord(env.table, view, env.emojiTrigger) == Some(w) <==> EndsInTrigger(env, view, w)
  {
    var r := TriggerWord(env.table, view, env.emojiTrigger);
    if r.Some? {
      AppendEnds([env.emojiTrigger], r.value);
      EndsWithTransitive(view, [env.emojiTrigger] + r.value, r.value);
      if EndsInTrigger(env, view, w) {
        TriggerUnique(env.table, view, env.emojiTrigger, |view| - 1 - |w|, |view| - 1 - |r.value|);
      }
    }
  }

  lemma QueryMeaning(env: Env, view: string, isEmoji: bool, w: string)
    ensures BufferQuery(env, view, isEmoji) == Some(w) <==> EndsInQuery(env, view, isEmoji, w)
  {
    WordQuery(env.table, view, w);
    TriggerQuery(env, view, w);
  }

  /** The text spells a query in the active mode. */
  lemma ValidMeaning(env: Env, s: State)
    ensures BufferValid(env, s) <==> exists w :: EndsInQuery(env, s.view, s.c.isEmoji, w)
  {
    var q := BufferQuery(env, s.view, s.c.isEmoji);
    if q.Some? {
      QueryMeaning(env, s.view, s.c.isEmoji, q.value);
    }
    if w :| EndsInQuery(env, s.view, s.c.isEmoji, w) {
      QueryMeaning(env, s.view, s.c.isEmoji, w);
    }
  }

  lemma ApplyAsks(env: Env, c: Fields, query: string)
    requires c.active
    ensures Asks(env, c.isEmoji, query, ApplyQuery(env, c, query))
  {
  }

  // ------------------------------------------------------------- characters

  /** While completion is active a character extends what is shown, and that is
      the query. */
  lemma CharContinues(env: Env, s: State, ch: char)
    requires !env.fullscreenSuppressed && !env.instantExpand && s.c.active
    ensures var (s', r) := Process(env, s, Char(ch));
            && r.None? && s'.view == LastN(s.view + [ch], CAPACITY) && s'.clipboard == s.clipboard
            && Asks(env, s.c.isEmoji, s.c.currentText + [ch], s'.c)
  {
    ApplyAsks(env, s.c, s.c.currentText + [ch]);
  }

  /** Otherwise the emoji trigger starts an emoji completion if emoji are enabled
      and whitespace or the start precedes it; nothing else does. */
  lemma CharStarts(env: Env, s: State, ch: char)
    requires !env.fullscreenSuppressed && !env.instantExpand && !s.c.active && |s.view| <= CAPACITY
    ensures var (s', r) := Process(env, s, Char(ch));
            && r.None? && s'.view == LastN(s.view + [ch], CAPACITY) && s'.clipboard == s.clipboard
            && s'.c == (if env.emojiEnabled && ch == env.emojiTrigger && (s.view == [] || env.table.space(Last(s.view)))
                        then Fields(true, true, [], [], [], None, None) else s.c)
  {
  }

  /** Under instant expansion completion does not see the character; an expansion
      clears the text and ends a completion. */
  lemma CharExpands(env: Env, s: State, ch: char)
    requires !env.fullscreenSuppressed && env.instantExpand
    ensures var (s', r) := Process(env, s, Char(ch));
            var view := LastN(s.view + [ch], CAPACITY);
            && r == Evaluation(env, view) && s'.clipboard == s.clipboard
            && (r.None? ==> s'.view == view && s'.c == s.c)
            && (r.Some? ==> s'.view == [] && if s.c.active then Ended(s'.c) else s'.c == s.c)
  {
  }

  // ----------------------------------------------------------------- erasing

  /** All but the last character, or what word deletion leaves. */
  predicate Erased(t: Table, text: string, word: bool, rest: string) {
    if word then rest == PopWord(t, text) else rest == if text == [] then [] else text[..|text| - 1]
  }

  function EraseEvent(word: bool): Event {
    if word then WordBackspace else Backspace
  }

  /** The letters an emoji shortcode is made of. */
  predicate Shortcode(t: Table, w: string) {
    forall ch :: ch in w ==> t.alnum(ch) || ch == '-' || ch == '_'
  }

  /** Completion goes on with w. */
  ghost predicate GoesOn(env: Env, view: string, isEmoji: bool, w: string) {
    EndsInQuery(env, view, isEmoji, w) && (isEmoji ==> Shortcode(env.table, w))
  }

  /** Completion goes on exactly when it was active and the text spells a query,
      and then asks for that query. */
  ghost predicate AsksAgain(env: Env, view: string, before: Fields, after: Fields) {
    && (after.active <==> before.active && exists w :: GoesOn(env, view, before.isEmoji, w))
    && (forall w :: before.active && GoesOn(env, view, before.isEmoji, w) ==> Asks(env, before.isEmoji, w, after))
    && (!after.active ==> if before.active then Ended(after) else after == before)
  }

  lemma SyncedAsks(env: Env, view: string, c: Fields)
    ensures AsksAgain(env, view, c, Synced(env, view, c))
  {
    var q := BufferQuery(env, view, c.isEmoji);
    if c.active {
      if q.Some? {
        QueryMeaning(env, view, c.isEmoji, q.value);
        ApplyAsks(env, c, q.value);
        ShortcodeMeaning(env.table, q.value);
        assert Synced(env, view, c).active ==> GoesOn(env, view, c.isEmoji, q.value);
      }
      forall w | GoesOn(env, view, c.isEmoji, w)
        ensures q == Some(w)
      {
        QueryMeaning(env, view, c.isEmoji, w);
      }
    }
  }

  lemma PlainErase(env: Env, s: State, word: bool)
    requires !env.fullscreenSuppressed && s.c.selectionMode.None?
    ensures var view := PopQuery(env.table, s.view, word);
            Process(env, s, EraseEvent(word)) == (State(view, Synced(env, view, s.c), s.clipboard), None)
  {
  }

  /** Without a selection an erasure takes the text back, and completion is active
      afterwards exactly when it was and what is left spells a query (in emoji
      mode one of shortcode letters); it then asks for that query. */
  lemma EraseAsksAgain(env: Env, s: State, word: bool)
    requires !env.fullscreenSuppressed && s.c.selectionMode.None?
    ensures var (s', r) := Process(env, s, EraseEvent(word));
            && r.None? && s'.clipboard == s.clipboard && Erased(env.table, s.view, word, s'.view)
            && AsksAgain(env, s'.view, s.c, s'.c)
  {
    PlainErase(env, s, word);
    SyncedAsks(env, PopQuery(env.table, s.view, word), s.c);
  }

  lemma ShortcodeMeaning(t: Table, w: string)
    ensures ShortcodeChars(t, w) <==> Shortcode(t, w)
  {
    if ShortcodeChars(t, w) {
      forall ch | ch in w
        ensures t.alnum(ch) || ch == '-' || ch == '_'
      {
        var i :| 0 <= i < |w| && w[i] == ch;
      }
    }
  }

  /** Erasing in a selection: if the text spells a query, the shown text is
      replaced by the query without its last character or word, which is the new
      query; if it spells none, completion ends and nothing is rewritten. */
  lemma SelectionErases(env: Env, s: State, word: bool)
    requires s.c.active && s.c.selectionMode.Some?
    ensures var (s', r) := RewriteSelected(env, s, word);
            && s'.clipboard == s.clipboard
            && (r.Some? <==> exists w :: EndsInQuery(env, s.view, s.c.isEmoji, w))
            && (r.None? ==> s'.view == s.view && Ended(s'.c))
            && (r.Some? ==>
                  && r.value.deleteCount == |s.c.currentText|
                  && Erased(env.table, s.c.originalQuery, word, r.value.replacement)
                  && s'.view == LastN(Chop(s.view, |s.c.currentText|) + r.value.replacement, CAPACITY)
                  && Asks(env, s.c.isEmoji, r.value.replacement, s'.c))
  {
    ValidMeaning(env, s);
    var next := PopQuery(env.table, s.c.originalQuery, word);
    ApplyAsks(env, s.c.(currentText := next), next);
  }

  /** `process_event` does the same to the state, and returns nothing. */
  lemma EventErasesSelection(env: Env, s: State, word: bool)
    requires !env.fullscreenSuppressed && s.c.selectionMode.Some?
    ensures Process(env, s, EraseEvent(word)) == (RewriteSelected(env, s, word).0, None)
  {
  }

  // ----------------------------------------------------------------- cycling

  /** Tab and Shift-Tab go round the suggestions of the query: from nothing to the
      first or last, from one to its neighbour. */
  predicate TurnsTo(selected: Option<nat>, n: nat, forward: bool, next: nat) {
    && next < n
    && (selected.None? ==> next == if forward then 0 else n - 1)
    && (selected.Some? && selected.value < n ==>
          if forward then next == selected.value + 1 || (next == 0 && selected.value == n - 1)
          else selected.value == next + 1 || (next == n - 1 && selected.value == 0))
  }

  ghost predicate CanCycle(env: Env, s: State) {
    && env.tabCompletion && s.c.active && s.c.originalQuery != []
    && exists w :: EndsInQuery(env, s.view, s.c.isEmoji, w)
  }

  lemma IndexTurns(selected: Option<nat>, n: nat, forward: bool)
    requires n > 0
    ensures TurnsTo(selected, n, forward, NextIndex(selected, n, forward))
  {
    if selected.Some? && selected.value < n {
      OneLap(selected.value + 1, n);
      OneLap(selected.value + n - 1, n);
    }
  }

  /** If the query has suggestions the next one replaces what is shown and is
      selected; the query stays. */
  lemma CycleSelects(env: Env, s: State, forward: bool, ss: seq<string>)
    requires CanCycle(env, s) && Lists(env, s.c.isEmoji, s.c.originalQuery, ss) && ss != []
    ensures var (s', r) := Cycle(env, s, forward);
            && s'.c.selectedIndex.Some? && TurnsTo(s.c.selectedIndex, |ss|, forward, s'.c.selectedIndex.value)
            && var text := ss[s'.c.selectedIndex.value];
               && r == Some(CompletionRewrite(|s.c.currentText|, text))
               && s' == State(LastN(Chop(s.view, |s.c.currentText|) + text, CAPACITY),
                              Fields(true, s.c.isEmoji, s.c.originalQuery, text, ss, s'.c.selectedIndex, Some(CompletionMode)),
                              s.clipboard)
  {
    ValidMeaning(env, s);
    assert ss == SuggestionsFor(env, s.c.isEmoji, s.c.originalQuery);
    IndexTurns(s.c.selectedIndex, |ss|, forward);
  }

  /** Otherwise nothing is rewritten. Without Tab completion or suggestions the
      list and the selected index are dropped; on a text that spells no query
      completion ends. */
  lemma CycleDoesNothing(env: Env, s: State, forward: bool)
    requires !CanCycle(env, s) || Lists(env, s.c.isEmoji, s.c.originalQuery, [])
    ensures var (s', r) := Cycle(env, s, forward);
            && r.None? && s'.view == s.view && s'.clipboard == s.clipboard
            && (if !env.tabCompletion
                then s'.c == s.c.(suggestions := [], selectedIndex := None, selectionMode := None)
                else if !(exists w :: EndsInQuery(env, s.view, s.c.isEmoji, w)) then Ended(s'.c)
                else if !s.c.active || s.c.originalQuery == [] then s'.c == s.c
                else s'.c == s.c.(suggestions := [], selectedIndex := None))
  {
    ValidMeaning(env, s);
    if CanCycle(env, s) {
      assert SuggestionsFor(env, s.c.isEmoji, s.c.originalQuery) == [];
    }
  }

  /** Tab outside completion: on a word with suggestions it starts a completion on
      that word and selects the first; on anything else it does nothing. */
  lemma TabStarts(env: Env, s: State, w: string)
    requires EndsInWord(env.table, s.view, w) && env.wordTriggers(w) != [] && env.tabCompletion
    ensures var (s', r) := Activate(env, s);
            var text := env.wordTriggers(w)[0];
            && r == Some(CompletionRewrite(|w|, text))
            && s' == State(LastN(Chop(s.view, |w|) + text, CAPACITY),
                           Fields(true, false, w, text, env.wordTriggers(w), Some(0), Some(CompletionMode)), s.clipboard)
  {
    WordQuery(env.table, s.view, w);
    TabSelectsFirst(env, ActivateNoCycle(env, s).value, env.wordTriggers(w));
  }

  /** With Tab completion off it starts one with nothing to select. */
  lemma TabStartsBare(env: Env, s: State, w: string)
    requires EndsInWord(env.table, s.view, w) && env.wordTriggers(w) != [] && !env.tabCompletion
    ensures Activate(env, s) == (State(s.view, Fields(true, false, w, w, [], None, None), s.clipboard), None)
  {
    WordQuery(env.table, s.view, w);
  }

  lemma TabDoesNothing(env: Env, s: State)
    requires forall w :: EndsInWord(env.table, s.view, w) ==> env.wordTriggers(w) == []
    ensures Activate(env, s) == (s, None)
  {
    var q := TailWord(env.table, s.view);
    if q.Some? {
      WordQuery(env.table, s.view, q.value);
    }
  }

  // -------------------------------------------------------------- action key

  /** The inline-AI span of a text starts at p: on the last line, at the first
      place where the pattern matches. */
  predicate SpanAt(t: Table, view: string, k: nat, p: nat) {
    && k <= p < |view| && '\n' !in view[k..] && (k > 0 ==> view[k - 1] == '\n')
    && TauAt(t, view[k..], p - k) && forall j :: 0 <= j < p - k ==> !TauAt(t, view[k..], j)
  }

  lemma LineStartUnique(view: string, k: nat)
    requires k <= |view| && '\n' !in view[k..] && (k > 0 ==> view[k - 1] == '\n')
    ensures LineStart(view, |view|) == k
  {
    assert forall i :: k <= i < |view| ==> view[i] == view[k..][i - k];
  }

  lemma SpanIsStart(t: Table, view: string, k: nat, p: nat)
    requires SpanAt(t, view, k, p)
    ensures TauStart(t, view) == Some(p)
  {
    LineStartUnique(view, k);
    assert LastLine(view) == view[k..];
  }

  lemma StartIsSpan(t: Table, view: string)
    requires TauStart(t, view).Some?
    ensures exists k :: SpanAt(t, view, k, TauStart(t, view).value)
  {
    var k := LineStart(view, |view|);
    assert SpanAt(t, view, k, TauStart(t, view).value);
  }

  ghost predicate HasSpan(t: Table, view: string) {
    exists k, p :: SpanAt(t, view, k, p)
  }

  lemma SpanExists(t: Table, view: string)
    ensures HasSpan(t, view) <==> TauStart(t, view).Some?
  {
    if TauStart(t, view).Some? {
      StartIsSpan(t, view);
    }
    if k, p :| SpanAt(t, view, k, p) {
      SpanIsStart(t, view, k, p);
    }
  }

  /** What the action key leaves of completion. */
  predicate CompletionOver(before: Fields, after: Fields) {
    if before.active then Ended(after) else after == before
  }

  /** Inline AI comes before any expansion: a span whose prompt resolves to
      something is deleted and handed on, whatever the text could expand to. */
  lemma ActionPrefersAi(env: Env, s: State, k: nat, p: nat)
    requires !env.fullscreenSuppressed && env.aiEnabled && SpanAt(env.table, s.view, k, p)
    requires env.resolvePrompt(Trim(env.table, s.view[p + 4..]), s.clipboard) != []
    ensures var (s', r) := Process(env, s, ActionKey);
            var prompt := env.resolvePrompt(Trim(env.table, s.view[p + 4..]), s.clipboard);
            && r == Some(ExpansionResult(|s.view| - p, [TextStep(env.thinkingText)], "tau,", None, false, InlineAi, false,
                                         Some(InlineAiPrompt(prompt))))
            && s'.view == [] && s'.clipboard.None? && CompletionOver(s.c, s'.c)
  {
    SpanIsStart(env.table, s.view, k, p);
    AiDecides(env, s, p);
  }

  function AiAnswer(env: Env, view: string, p: nat, prompt: string): ExpansionResult
    requires p <= |view|
  {
    ExpansionResult(|view| - p, [TextStep(env.thinkingText)], "tau,", None, false, InlineAi, false,
                    Some(InlineAiPrompt(prompt)))
  }

  lemma AiAnswers(env: Env, s: State, p: nat)
    requires TauStart(env.table, s.view) == Some(p)
    requires env.resolvePrompt(Trim(env.table, s.view[p + 4..]), s.clipboard) != []
    ensures var prompt := env.resolvePrompt(Trim(env.table, s.view[p + 4..]), s.clipboard);
            AiResult(env, s.view, s.clipboard) == Some(AiAnswer(env, s.view, p, prompt))
  {
  }

  lemma AiDecides(env: Env, s: State, p: nat)
    requires env.aiEnabled && TauStart(env.table, s.view) == Some(p)
    requires env.resolvePrompt(Trim(env.table, s.view[p + 4..]), s.clipboard) != []
    ensures var prompt := env.resolvePrompt(Trim(env.table, s.view[p + 4..]), s.clipboard);
            Decide(env, s) == (State([], s.c, None), Some(AiAnswer(env, s.view, p, prompt)))
  {
    AiAnswers(env, s, p);
    assert CheckAi(env, s) == (State([], s.c, None), AiResult(env, s.view, s.clipboard));
  }

  /** A span whose prompt resolves to nothing is forgotten with the captured
      clipboard, and the empty text is evaluated. */
  lemma ActionForgetsEmptyPrompt(env: Env, s: State, k: nat, p: nat)
    requires !env.fullscreenSuppressed && env.aiEnabled && SpanAt(env.table, s.view, k, p)
    requires env.resolvePrompt(Trim(env.table, s.view[p + 4..]), s.clipboard) == []
    ensures var (s', r) := Process(env, s, ActionKey);
            && r == Evaluation(env, []) && s'.clipboard.None? && CompletionOver(s.c, s'.c)
            && s'.view == if r.Some? then [] else ['\n']
  {
    SpanIsStart(env.table, s.view, k, p);
    EmptyPromptDecides(env, s, p);
    assert PushAll([], ['\n']) == ['\n'];
  }

  lemma EmptyPromptDecides(env: Env, s: State, p: nat)
    requires env.aiEnabled && TauStart(env.table, s.view) == Some(p)
    requires env.resolvePrompt(Trim(env.table, s.view[p + 4..]), s.clipboard) == []
    ensures Decide(env, s) == (State([], s.c, None), Evaluation(env, []))
  {
    assert CheckAi(env, s) == (State([], s.c, None), None);
  }

  /** Without a span, or with inline AI off, the text is evaluated; if it expands
      to nothing a line break is tracked. */
  lemma ActionExpands(env: Env, s: State)
    requires !env.fullscreenSuppressed && (!env.aiEnabled || !HasSpan(env.table, s.view))
    ensures var (s', r) := Process(env, s, ActionKey);
            && r == Evaluation(env, s.view) && s'.clipboard == s.clipboard && CompletionOver(s.c, s'.c)
            && s'.view == if r.Some? then [] else LastN(s.view + ['\n'], CAPACITY)
  {
    SpanExists(env.table, s.view);
  }

  // ------------------------------------------------------------------ others

  /** An interrupt forgets everything, a pasted text is ignored, and under a
      suppressing full-screen window any event only clears text and completion. */
  lemma OtherEvents(env: Env, s: State, e: Event)
    ensures env.fullscreenSuppressed ==>
              var (s', r) := Process(env, s, e);
              r.None? && s'.view == [] && Ended(s'.c) && s'.clipboard == s.clipboard
    ensures !env.fullscreenSuppressed && e.Interrupt? ==>
              var (s', r) := Process(env, s, e);
              r.None? && s'.view == [] && Ended(s'.c) && s'.clipboard.None?
    ensures !env.fullscreenSuppressed && e.Paste? ==> Process(env, s, e) == (s, None)
  {
  }
}
