/** What the completion fields mean, over whole runs: they agree with each other
    and with the catalogue, and in word mode the shown text is a whole word of
    the tracked text. */
module Coherence {
  import opened Text
  import opened Types
  import opened RingBuffer
  import opened Expansion
  import opened Completion
  import opened Lockstep

  // ------------------------------------------------- the fields agree

  function Suggested(env: Env, isEmoji: bool, query: string): seq<string> {
    if !env.tabCompletion || query == [] then [] else SuggestionsFor(env, isEmoji, query)
  }

  /** An inactive completion holds nothing. An active one holds the suggestions
      of its query; it shows the selected one or, without a selection, the query
      itself (nothing at all right after the emoji trigger). */
  predicate Coherent(env: Env, c: Fields) {
    if !c.active then c == Deactivated()
    else
      && c.suggestions == Suggested(env, c.isEmoji, c.originalQuery)
      && (c.selectionMode.Some? <==> c.selectedIndex.Some?)
      && match c.selectedIndex
         case Some(i) => i < |c.suggestions| && c.currentText == c.suggestions[i]
         case None => c.currentText == QueryText(env, c.isEmoji, c.originalQuery) || c == Activated(true)
  }

  /** Every key meets the same catalogue, trigger and Tab setting; all other
      settings may change from key to key. */
  ghost predicate SameCatalogue(env: Env, other: Env) {
    && other.tabCompletion == env.tabCompletion && other.emojiTrigger == env.emojiTrigger
    && other.wordTriggers == env.wordTriggers && other.shortcodes == env.shortcodes
  }

  lemma CharKeepsCoherent(env: Env, s: State, ch: char)
    requires Coherent(env, s.c)
    ensures Coherent(env, ProcessChar(env, s, ch).0.c)
  {
  }

  lemma EraseKeepsCoherent(env: Env, s: State, word: bool)
    requires Coherent(env, s.c)
    ensures Coherent(env, ProcessErase(env, s, word).c)
  {
  }

  /** The action key and an interrupt always end a completion. */
  lemma ActionEndsCompletion(env: Env, s: State, e: Event)
    requires Coherent(env, s.c) && (e.ActionKey? || e.Interrupt?)
    ensures Process(env, s, e).0.c == Deactivated()
  {
  }

  lemma CycleKeepsCoherent(env: Env, s: State, forward: bool)
    requires Coherent(env, s.c)
    ensures Coherent(env, Cycle(env, s, forward).0.c)
  {
  }

  lemma TabKeepsCoherent(env: Env, s: State)
    requires Coherent(env, s.c)
    ensures Coherent(env, Activate(env, s).0.c)
  {
    TailWordEnds(env.table, s.view);
    var a := ActivateNoCycle(env, s);
    if a.Some? && env.tabCompletion {
      CycleKeepsCoherent(env, a.value, true);
    }
  }

  lemma StepKeepsCoherent(env: Env, w: World, step: Step)
    requires Coherent(env, w.s.c)
    ensures Coherent(env, Do(env, w, step).s.c)
  {
    match step {
      case Type(c, after) => CharKeepsCoherent(env, w.s, c);
      case Enter(after) => ActionEndsCompletion(env, w.s, ActionKey);
      case Erase(word) => EraseKeepsCoherent(env, w.s, word);
      case Tab => TabKeepsCoherent(env, w.s);
      case CycleKey(forward) => CycleKeepsCoherent(env, w.s, forward);
      case _ =>
    }
  }

  lemma {:induction false} RunIsCoherent(env: Env, w: World, keys: seq<Key>)
    requires Coherent(env, w.s.c)
    requires forall k :: k in keys ==> SameCatalogue(env, k.env)
    ensures Coherent(env, Run(w, keys).s.c)
    decreases keys
  {
    if keys != [] {
      assert keys[0] in keys;
      StepKeepsCoherent(keys[0].env, w, keys[0].step);
      RunIsCoherent(env, Do(keys[0].env, w, keys[0].step), keys[1..]);
    }
  }

  // ------------------------------------------------ whole words are shown

  /** The text ends with w, and whitespace or the start precedes it. */
  predicate WholeWord(t: Table, view: string, w: string) {
    EndsWith(view, w) && (|w| < |view| ==> t.space(view[|view| - |w| - 1]))
  }

  /** While a word completion is active the shown text is a whole word at the end
      of the tracked text (when it fits the ring). */
  predicate Anchored(t: Table, s: State) {
    s.c.active && !s.c.isEmoji && |s.c.currentText| <= CAPACITY ==> WholeWord(t, s.view, s.c.currentText)
  }

  /** Replacing or extending a whole word leaves a whole word. */
  lemma PushWhole(t: Table, kept: string, w: string)
    requires |w| <= CAPACITY && (kept != [] ==> t.space(Last(kept)))
    ensures WholeWord(t, PushAll(kept, w), w)
  {
    PushEnds(kept, w);
  }

  lemma RewriteWhole(t: Table, s: State, replacement: string)
    requires Anchored(t, s) && s.c.active && !s.c.isEmoji && |s.view| <= CAPACITY && |replacement| <= CAPACITY
    ensures WholeWord(t, PushAll(Chop(s.view, |s.c.currentText|), replacement), replacement)
  {
    PushWhole(t, Chop(s.view, |s.c.currentText|), replacement);
  }

  lemma ExtendWhole(t: Table, view: string, w: string, c: char)
    requires WholeWord(t, view, w) && |w| < CAPACITY
    ensures WholeWord(t, PushAll(view, [c]), w + [c])
  {
    SplitAtSuffix(view, w);
    var kept := Chop(view, |w|);
    assert view + [c] == kept + (w + [c]);
    PushWhole(t, kept, w + [c]);
  }

  lemma TailWhole(t: Table, view: string)
    requires TailWord(t, view).Some?
    ensures WholeWord(t, view, TailWord(t, view).value)
  {
    TailFromMeaning(t, view, |view|);
  }

  lemma CharAnchors(env: Env, s: State, ch: char)
    requires Anchored(env.table, s) && (env.instantExpand ==> !s.c.active)
    ensures Anchored(env.table, ProcessChar(env, s, ch).0)
  {
    if s.c.active && !s.c.isEmoji && |s.c.currentText| < CAPACITY {
      ExtendWhole(env.table, s.view, s.c.currentText, ch);
    }
  }

  lemma EraseAnchors(env: Env, s: State, word: bool)
    requires Anchored(env.table, s) && (s.c.selectionMode.None? || s.view == [])
    ensures Anchored(env.table, ProcessErase(env, s, word))
  {
    if s.c.selectionMode.Some? {
      NothingToErase(env, s, word);
    }
    var view := PopQuery(env.table, s.view, word);
    if TailWord(env.table, view).Some? {
      TailWhole(env.table, view);
    }
  }

  lemma CycleAnchors(env: Env, s: State, forward: bool)
    requires Anchored(env.table, s) && |s.view| <= CAPACITY
    ensures Anchored(env.table, Cycle(env, s, forward).0)
  {
    var suggestions := SuggestionsFor(env, s.c.isEmoji, s.c.originalQuery);
    if suggestions != [] && s.c.active && !s.c.isEmoji {
      var r := suggestions[NextIndex(s.c.selectedIndex, |suggestions|, forward)];
      if |r| <= CAPACITY {
        RewriteWhole(env.table, s, r);
      }
    }
  }

  lemma TabAnchors(env: Env, s: State)
    requires Anchored(env.table, s) && |s.view| <= CAPACITY
    ensures Anchored(env.table, Activate(env, s).0)
  {
    var a := ActivateNoCycle(env, s);
    if a.Some? {
      TailWhole(env.table, s.view);
      CycleAnchors(env, a.value, true);
    }
  }

  lemma EraseSelectedAnchors(env: Env, s: State, word: bool)
    requires Anchored(env.table, s) && |s.view| <= CAPACITY
    ensures Anchored(env.table, RewriteSelected(env, s, word).0)
  {
    var next := PopQuery(env.table, s.c.originalQuery, word);
    if s.c.active && !s.c.isEmoji && |next| <= CAPACITY {
      RewriteWhole(env.table, s, next);
    }
  }

  lemma StepAnchors(env: Env, w: World, step: Step)
    requires Anchored(env.table, w.s) && Legal(env, w, step) && TextSeen(env, w.s, step) && |w.s.view| <= CAPACITY
    ensures Anchored(env.table, Do(env, w, step).s)
  {
    match step {
      case Type(c, after) => CharAnchors(env, w.s, c);
      case Erase(word) =>
        if !env.fullscreenSuppressed {
          EraseAnchors(env, w.s, word);
        }
      case Tab => TabAnchors(env, w.s);
      case CycleKey(forward) => CycleAnchors(env, w.s, forward);
      case EraseSelected(word) => EraseSelectedAnchors(env, w.s, word);
      case _ =>
    }
  }

  /** Every key is legal when it is pressed, and typed keys reach completion. */
  ghost predicate TypedRun(t: Table, w: World, keys: seq<Key>)
    decreases keys
  {
    keys != [] ==>
      && Legal(keys[0].env, w, keys[0].step) && TextSeen(keys[0].env, w.s, keys[0].step) && keys[0].env.table == t
      && TypedRun(t, Do(keys[0].env, w, keys[0].step), keys[1..])
  }

  /** After any run the rewrite of a word completion would replace a whole word:
      the document ends with the shown text, and the tracked character before it
      is whitespace; if the text shown holds no whitespace it is the tail word. */
  lemma {:induction false} RunAnchors(t: Table, w: World, keys: seq<Key>)
    requires Tracks(w) && Anchored(t, w.s) && TypedRun(t, w, keys)
    ensures var end := Run(w, keys);
            var shown := end.s.c.currentText;
            end.s.c.active && !end.s.c.isEmoji && |shown| <= CAPACITY ==>
              && EndsWith(end.doc, shown) && WholeWord(t, end.s.view, shown)
              && (shown != [] && (forall i :: 0 <= i < |shown| ==> !t.space(shown[i])) ==>
                    TailWord(t, end.s.view) == Some(shown))
    decreases keys
  {
    if keys != [] {
      StepTracks(keys[0].env, w, keys[0].step);
      StepAnchors(keys[0].env, w, keys[0].step);
      RunAnchors(t, Do(keys[0].env, w, keys[0].step), keys[1..]);
    } else if w.s.c.active && !w.s.c.isEmoji && |w.s.c.currentText| <= CAPACITY {
      EndsWithTransitive(w.doc, w.s.view, w.s.c.currentText);
      if w.s.c.currentText != [] {
        TailWordUnique(t, w.s.view, w.s.c.currentText);
      }
    }
  }
}
