/** The tracked text and the document, over whole runs of keys. The document is
    somebody else's; the engine never sees it. A key the daemon passes through
    edits it directly, a rewrite deletes before the caret and types. */
module Lockstep {
  import opened Text
  import opened Types
  import opened QuoteScan
  import opened SuffixScan
  import opened RingBuffer
  import opened Expansion
  import opened Completion

  datatype World = World(s: State, doc: string)

  /** One key that the engine is told of, or one move of the caret. `after` is the
      document that an expansion, or an edit elsewhere, leaves. `Placeholder` is a
      clipboard placeholder that the daemon types for an inline-AI prompt. */
  datatype Step =
    | Type(c: char, after: string)
    | Enter(after: string)
    | Erase(word: bool)
    | Leave(after: string)
    | Tab
    | CycleKey(forward: bool)
    | EraseSelected(word: bool)
    | Cancel
    | Placeholder(text: string, captured: string)

  ghost function Do(env: Env, w: World, step: Step): World {
    match step
    case Type(c, after) =>
      var (s, r) := Process(env, w.s, Char(c));
      World(s, if r.Some? then after else w.doc + [c])
    case Enter(after) =>
      var (s, r) := Process(env, w.s, ActionKey);
      World(s, if r.Some? then after else w.doc + ['\n'])
    case Erase(word) =>
      World(Process(env, w.s, if word then WordBackspace else Backspace).0, PopQuery(env.table, w.doc, word))
    case Leave(after) => World(Process(env, w.s, Interrupt).0, after)
    case Tab =>
      var (s, r) := Activate(env, w.s);
      World(s, Rewritten(w.doc, r))
    case CycleKey(forward) =>
      var (s, r) := Cycle(env, w.s, forward);
      World(s, Rewritten(w.doc, r))
    case EraseSelected(word) =>
      var (s, r) := RewriteSelected(env, w.s, word);
      World(s, Rewritten(w.doc, r))
    case Cancel => World(w.s.(c := Deactivated()), w.doc)
    case Placeholder(text, captured) =>
      World(w.s.(view := PushAll(w.s.view, text), clipboard := Some(captured)), w.doc + text)
  }

  // ------------------------------------------------- the view is a suffix

  predicate Tracks(w: World) {
    EndsWith(w.doc, w.s.view) && |w.s.view| <= CAPACITY
  }

  /** A passed Backspace is one that the document sees too. The daemon passes all
      but those on a selection in a valid completion, which are EraseSelected. */
  ghost predicate Passed(env: Env, s: State) {
    !(CompletionActive(env, s) && s.c.selectionMode.Some?)
  }

  /** A Backspace that `process_event` takes for one on a selection: it would
      rewrite, but the rewrite is dropped. */
  predicate Stale(env: Env, s: State, step: Step) {
    step.Erase? && !env.fullscreenSuppressed && s.c.selectionMode.Some? && s.view != []
  }

  predicate Legal(env: Env, w: World, step: Step) {
    !Stale(env, w.s, step)
  }

  lemma PushKeepsSuffix(doc: string, view: string, s: string)
    requires EndsWith(doc, view)
    ensures EndsWith(doc + s, PushAll(view, s))
  {
    AppendKeepsSuffix(doc, view, s);
    LastNEnds(view + s, CAPACITY);
    EndsWithTransitive(doc + s, view + s, PushAll(view, s));
  }

  lemma RewriteTracks(w: World, replacement: string)
    requires Tracks(w)
    ensures var (s, r) := Rewrite(w.s, replacement); Tracks(World(s, Rewritten(w.doc, Some(r))))
  {
    ChopKeepsSuffix(w.doc, w.s.view, |w.s.c.currentText|);
    PushKeepsSuffix(Chop(w.doc, |w.s.c.currentText|), Chop(w.s.view, |w.s.c.currentText|), replacement);
  }

  lemma CycleTracks(env: Env, w: World, forward: bool)
    requires Tracks(w)
    ensures var (s, r) := Cycle(env, w.s, forward); Tracks(World(s, Rewritten(w.doc, r)))
  {
    var suggestions := SuggestionsFor(env, w.s.c.isEmoji, w.s.c.originalQuery);
    if suggestions != [] {
      RewriteTracks(w, suggestions[NextIndex(w.s.c.selectedIndex, |suggestions|, forward)]);
    }
  }

  lemma EraseTracks(env: Env, w: World, word: bool)
    requires Tracks(w)
    ensures EndsWith(PopQuery(env.table, w.doc, word), PopQuery(env.table, w.s.view, word))
  {
    if word {
      PopWordKeepsSuffix(env.table, w.doc, w.s.view);
    } else {
      ChopKeepsSuffix(w.doc, w.s.view, 1);
    }
  }

  lemma ActivateTracks(env: Env, w: World)
    requires Tracks(w)
    ensures var (s, r) := Activate(env, w.s); Tracks(World(s, Rewritten(w.doc, r)))
  {
    var s := ActivateNoCycle(env, w.s);
    if s.Some? {
      CycleTracks(env, World(s.value, w.doc), true);
    }
  }

  lemma EnterTracks(env: Env, w: World, after: string)
    requires Tracks(w)
    ensures Tracks(Do(env, w, Enter(after)))
  {
    PushKeepsSuffix(w.doc, w.s.view, ['\n']);
    PushKeepsSuffix(w.doc, [], ['\n']);
  }

  lemma TypeTracks(env: Env, w: World, c: char, after: string)
    requires Tracks(w)
    ensures Tracks(Do(env, w, Type(c, after)))
  {
    PushKeepsSuffix(w.doc, w.s.view, [c]);
  }

  lemma EraseStepTracks(env: Env, w: World, word: bool)
    requires Tracks(w) && Legal(env, w, Erase(word))
    ensures Tracks(Do(env, w, Erase(word)))
  {
    if !env.fullscreenSuppressed {
      if w.s.c.selectionMode.None? {
        EraseTracks(env, w, word);
      } else {
        NothingToErase(env, w.s, word);
      }
    }
  }

  /** There is no valid completion in front of an empty text. */
  lemma NothingToErase(env: Env, s: State, word: bool)
    requires s.view == [] && s.c.selectionMode.Some?
    ensures ProcessErase(env, s, word) == s.(c := Deactivated())
  {
    TailWordEnds(env.table, s.view);
  }

  /** An erasure that only the document sees keeps every document in step exactly
      when nothing is tracked. */
  lemma UntoldErase(t: Table, view: string, word: bool)
    ensures (forall doc :: EndsWith(doc, view) ==> EndsWith(PopQuery(t, doc, word), view)) <==> view == []
  {
    if view != [] {
      PopWordSplits(t, view);
      assert EndsWith(view, view) && !EndsWith(PopQuery(t, view, word), view);
    }
  }

  /** A stale Backspace that is passed ends the completion and tracks nothing. */
  lemma StaleEraseIsDropped(env: Env, s: State, word: bool)
    requires Passed(env, s) && SelectionOk(s.c) && s.c.selectionMode.Some?
    ensures ProcessErase(env, s, word) == s.(c := Deactivated())
  {
  }

  lemma DroppedErase(env: Env, s: State, doc: string, word: bool)
    requires Passed(env, s) && SelectionOk(s.c) && Stale(env, s, Erase(word))
    ensures Do(env, World(s, doc), Erase(word)) == World(s.(c := Deactivated()), PopQuery(env.table, doc, word))
  {
    StaleEraseIsDropped(env, s, word);
  }

  lemma StaleEraseLosesText(env: Env, s: State, word: bool) returns (doc: string)
    requires Passed(env, s) && SelectionOk(s.c) && Stale(env, s, Erase(word))
    ensures EndsWith(doc, s.view) && !Tracks(Do(env, World(s, doc), Erase(word)))
  {
    UntoldErase(env.table, s.view, word);
    doc :| EndsWith(doc, s.view) && !EndsWith(PopQuery(env.table, doc, word), s.view);
    DroppedErase(env, s, doc, word);
  }

  /** A passed Backspace keeps every document in step exactly when it is not
      stale: when nothing is selected or nothing is tracked. */
  lemma PassedEraseTracks(env: Env, s: State, word: bool)
    requires Passed(env, s) && SelectionOk(s.c) && |s.view| <= CAPACITY
    ensures (forall doc :: EndsWith(doc, s.view) ==> Tracks(Do(env, World(s, doc), Erase(word)))) <==>
              env.fullscreenSuppressed || s.c.selectionMode.None? || s.view == []
  {
    if Stale(env, s, Erase(word)) {
      var doc := StaleEraseLosesText(env, s, word);
    } else {
      forall doc | EndsWith(doc, s.view)
        ensures Tracks(Do(env, World(s, doc), Erase(word)))
      {
        EraseStepTracks(env, World(s, doc), word);
      }
    }
  }

  lemma EraseSelectedTracks(env: Env, w: World, word: bool)
    requires Tracks(w)
    ensures Tracks(Do(env, w, EraseSelected(word)))
  {
    RewriteTracks(w, PopQuery(env.table, w.s.c.originalQuery, word));
  }

  lemma StepTracks(env: Env, w: World, step: Step)
    requires Tracks(w) && Legal(env, w, step)
    ensures Tracks(Do(env, w, step))
  {
    match step {
      case Type(c, after) => TypeTracks(env, w, c, after);
      case Enter(after) => EnterTracks(env, w, after);
      case Erase(word) => EraseStepTracks(env, w, word);
      case Leave(after) =>
      case Tab => ActivateTracks(env, w);
      case CycleKey(forward) => CycleTracks(env, w, forward);
      case EraseSelected(word) => EraseSelectedTracks(env, w, word);
      case Cancel =>
      case Placeholder(text, captured) => PushKeepsSuffix(w.doc, w.s.view, text);
    }
  }

  // ------------------------------------------------------- the selection

  /** A selected index selects what is shown, and only while active. */
  predicate SelectionOk(c: Fields) {
    && (c.selectedIndex.Some? ==>
          && c.selectionMode.Some?
          && c.selectedIndex.value < |c.suggestions|
          && c.currentText == c.suggestions[c.selectedIndex.value])
    && (c.selectionMode.Some? ==> c.active)
  }

  lemma EventKeepsSelection(env: Env, s: State, e: Event)
    requires SelectionOk(s.c)
    ensures SelectionOk(Process(env, s, e).0.c)
  {
  }

  lemma CycleKeepsSelection(env: Env, s: State, forward: bool)
    requires SelectionOk(s.c)
    ensures SelectionOk(Cycle(env, s, forward).0.c)
  {
  }

  lemma StepKeepsSelection(env: Env, w: World, step: Step)
    requires SelectionOk(w.s.c)
    ensures SelectionOk(Do(env, w, step).s.c)
  {
    match step {
      case Type(c, after) => EventKeepsSelection(env, w.s, Char(c));
      case Enter(after) => EventKeepsSelection(env, w.s, ActionKey);
      case Erase(word) => EventKeepsSelection(env, w.s, if word then WordBackspace else Backspace);
      case Tab =>
        var s := ActivateNoCycle(env, w.s);
        if s.Some? {
          CycleKeepsSelection(env, s.value, true);
        }
      case CycleKey(forward) => CycleKeepsSelection(env, w.s, forward);
      case _ =>
    }
  }

  // ------------------------------------- the view ends with the shown text

  /** While completion is active the tracked text ends with the shown text (when
      it fits the ring); an emoji completion that shows nothing yet was just
      started by the trigger character. */
  predicate Shows(trigger: char, s: State) {
    s.c.active ==>
      if s.c.currentText == [] then s.c.isEmoji ==> EndsWith(s.view, [trigger])
      else
        && (s.c.isEmoji ==> StartsWith(s.c.currentText, trigger))
        && (|s.c.currentText| <= CAPACITY ==> EndsWith(s.view, s.c.currentText))
  }

  /** An emoji query that keeps its trigger character, or has the character
      before it in the tracked text. */
  predicate TriggerSurvives(env: Env, s: State, word: bool) {
    s.c.isEmoji ==>
      || StartsWith(PopQuery(env.table, s.c.originalQuery, word), env.emojiTrigger)
      || EndsWith(Chop(s.view, |s.c.currentText|), [env.emojiTrigger])
  }

  lemma PushEnds(view: string, s: string)
    requires |s| <= CAPACITY
    ensures EndsWith(PushAll(view, s), s)
  {
    AppendEnds(view, s);
    LastNKeepsSuffix(view + s, s, CAPACITY);
  }

  lemma PushExtends(view: string, t: string, c: char)
    requires EndsWith(view, t) && |t| + 1 <= CAPACITY
    ensures EndsWith(PushAll(view, [c]), t + [c])
  {
    AppendKeepsSuffix(view, t, [c]);
    LastNKeepsSuffix(view + [c], t + [c], CAPACITY);
  }

  lemma CharShows(env: Env, s: State, ch: char)
    requires !env.instantExpand && Shows(env.emojiTrigger, s)
    ensures Shows(env.emojiTrigger, ProcessChar(env, s, ch).0)
  {
    PushEnds(s.view, [ch]);
    var t := s.c.currentText;
    if s.c.active {
      if t == [] {
        assert t + [ch] == [ch];
        if s.c.isEmoji {
          PushExtends(s.view, [env.emojiTrigger], ch);
        }
      } else if |t| < CAPACITY {
        PushExtends(s.view, t, ch);
      }
    }
  }

  lemma QueryShows(env: Env, view: string, c: Fields, query: string)
    requires BufferQuery(env, view, c.isEmoji) == Some(query)
    ensures EndsWith(view, QueryText(env, c.isEmoji, query))
  {
    if c.isEmoji {
      EndsWithTransitive(view, [env.emojiTrigger] + query, query) by {
        AppendEnds([env.emojiTrigger], query);
      }
    } else {
      TailWordEnds(env.table, view);
    }
  }

  lemma SyncShows(env: Env, view: string, s: State)
    ensures Shows(env.emojiTrigger, s.(view := view, c := Synced(env, view, s.c)))
  {
    var query := BufferQuery(env, view, s.c.isEmoji);
    if s.c.active && query.Some? {
      QueryShows(env, view, s.c, query.value);
    }
  }

  lemma CycleShows(env: Env, s: State, forward: bool)
    requires Shows(env.emojiTrigger, s)
    ensures Shows(env.emojiTrigger, Cycle(env, s, forward).0)
  {
    var suggestions := SuggestionsFor(env, s.c.isEmoji, s.c.originalQuery);
    if suggestions != [] {
      var replacement := suggestions[NextIndex(s.c.selectedIndex, |suggestions|, forward)];
      if |replacement| <= CAPACITY {
        PushEnds(Chop(s.view, |s.c.currentText|), replacement);
      }
    }
  }

  /** An emoji query that would not fit the ring with its trigger character. */
  predicate TooLong(t: Table, s: State, word: bool) {
    s.c.isEmoji && |PopQuery(t, s.c.originalQuery, word)| >= CAPACITY
  }

  /** After erasing in a selection, the tracked text ends with the shown text
      exactly when the emoji trigger survives (or the query exceeds the ring). */
  lemma EraseSelectedShows(env: Env, s: State, word: bool)
    requires s.c.active && s.c.selectionMode.Some? && BufferValid(env, s)
    ensures var next := RewriteSelected(env, s, word).0;
            Shows(env.emojiTrigger, next) <==> TriggerSurvives(env, s, word) || TooLong(env.table, s, word)
  {
    var next := PopQuery(env.table, s.c.originalQuery, word);
    var kept := Chop(s.view, |s.c.currentText|);
    var t := [env.emojiTrigger];
    if |next| <= CAPACITY {
      PushEnds(kept, next);
    }
    if s.c.isEmoji && !StartsWith(next, env.emojiTrigger) && |next| < CAPACITY {
      TriggerBefore(kept, t, next);
    }
  }

  lemma TriggerBefore(kept: string, t: string, next: string)
    requires |t| + |next| <= CAPACITY
    ensures EndsWith(PushAll(kept, next), t + next) <==> EndsWith(kept, t)
  {
    SuffixBefore(kept, t, next);
    LastNEnds(kept + next, CAPACITY);
    if EndsWith(kept, t) {
      LastNKeepsSuffix(kept + next, t + next, CAPACITY);
    } else if EndsWith(PushAll(kept, next), t + next) {
      EndsWithTransitive(kept + next, PushAll(kept, next), t + next);
      assert false;
    }
  }

  // --------------------------------------------------------------- whole runs

  datatype Key = Key(env: Env, step: Step)

  /** No key of the run is a stale Backspace when it is pressed. */
  ghost predicate LegalRun(w: World, keys: seq<Key>)
    decreases keys
  {
    keys != [] ==>
      Legal(keys[0].env, w, keys[0].step) && LegalRun(Do(keys[0].env, w, keys[0].step), keys[1..])
  }

  ghost function Run(w: World, keys: seq<Key>): World
    decreases keys
  {
    if keys == [] then w else Run(Do(keys[0].env, w, keys[0].step), keys[1..])
  }

  /** Whatever the settings and the catalogue do, and however keys interleave,
      the tracked text stays a suffix of the document, as long as no Backspace is
      stale. */
  lemma {:induction false} RunTracks(w: World, keys: seq<Key>)
    requires Tracks(w) && SelectionOk(w.s.c) && LegalRun(w, keys)
    ensures Tracks(Run(w, keys)) && SelectionOk(Run(w, keys).s.c)
    decreases keys
  {
    if keys != [] {
      StepTracks(keys[0].env, w, keys[0].step);
      StepKeepsSelection(keys[0].env, w, keys[0].step);
      RunTracks(Do(keys[0].env, w, keys[0].step), keys[1..]);
    }
  }

  /** The text that a step types past completion, which goes on showing what it
      showed: a character under instant expansion, or a placeholder. */
  function Bypassing(env: Env, step: Step): Option<string> {
    match step
    case Type(c, _) => if env.instantExpand then Some([c]) else None
    case Placeholder(text, _) => Some(text)
    case _ => None
  }

  /** What the tracked text ends with while completion is active. */
  function ShownTail(trigger: char, c: Fields): string {
    if c.currentText == [] && c.isEmoji then [trigger] else c.currentText
  }

  /** The typed text repeats the shown text, or there is nothing to keep. */
  predicate Repeats(trigger: char, s: State, text: string) {
    var t := ShownTail(trigger, s.c);
    !s.c.active || |t| > CAPACITY || EndsWith(t + text, t)
  }

  /** Typing past completion keeps the shown text at the end of the tracked text
      exactly when the typed text repeats it. */
  lemma BypassShows(trigger: char, s: State, text: string)
    requires Shows(trigger, s)
    ensures Shows(trigger, s.(view := PushAll(s.view, text))) <==> Repeats(trigger, s, text)
  {
    var t := ShownTail(trigger, s.c);
    if s.c.active && |t| <= CAPACITY {
      AppendKeepsSuffix(s.view, t, text);
      SuffixOfBoth(s.view + text, t + text, t);
      LastNEnds(s.view + text, CAPACITY);
      if |t| <= |PushAll(s.view, text)| {
        SuffixOfBoth(s.view + text, PushAll(s.view, text), t);
      }
    }
  }

  /** One character repeats a text exactly when the text is that character over
      and over. */
  lemma RepeatsOne(t: string, c: char)
    ensures EndsWith(t + [c], t) <==> forall i :: 0 <= i < |t| ==> t[i] == c
  {
    var u := t + [c];
    if EndsWith(u, t) {
      assert forall i :: 0 <= i < |t| ==> t[i] == u[1..][i] == u[i + 1];
      RunOfOne(t, c);
    } else {
      assert exists i :: 0 <= i < |t| && t[i] != u[1..][i];
    }
  }

  lemma {:induction false} RunOfOne(t: string, c: char)
    requires forall i :: 0 <= i < |t| ==> t[i] == (t + [c])[i + 1]
    ensures forall i :: 0 <= i < |t| ==> t[i] == c
    decreases |t|
  {
    if t != [] {
      assert t == Init(t) + [Last(t)];
      assert Last(t) == c;
      forall i | 0 <= i < |Init(t)|
        ensures Init(t)[i] == (Init(t) + [c])[i + 1]
      {
        assert t[i] == (t + [c])[i + 1];
      }
      RunOfOne(Init(t), c);
    }
  }

  /** So under instant expansion a typed character that expands nothing keeps the
      shown text exactly when the text consists of that character. */
  lemma InstantCharShows(env: Env, s: State, ch: char)
    requires env.instantExpand && Shows(env.emojiTrigger, s) && s.c.active && s.c.currentText != []
    requires |s.c.currentText| <= CAPACITY && ProcessChar(env, s, ch).1.None?
    ensures Shows(env.emojiTrigger, ProcessChar(env, s, ch).0) <==>
              forall i :: 0 <= i < |s.c.currentText| ==> s.c.currentText[i] == ch
  {
    BypassShows(env.emojiTrigger, s, [ch]);
    RepeatsOne(s.c.currentText, ch);
  }

  /** The steps that keep the shown text in the tracked text: one emoji trigger
      throughout, no erased selection that loses it, and nothing typed past
      completion but repetitions. */
  ghost predicate Careful(trigger: char, w: World, key: Key) {
    && key.env.emojiTrigger == trigger
    && (key.step.EraseSelected? ==> TriggerSurvives(key.env, w.s, key.step.word))
    && (Bypassing(key.env, key.step).Some? ==> Repeats(trigger, w.s, Bypassing(key.env, key.step).value))
  }

  lemma EraseSelectedKeepsShows(env: Env, s: State, word: bool)
    requires Shows(env.emojiTrigger, s) && TriggerSurvives(env, s, word)
    ensures Shows(env.emojiTrigger, RewriteSelected(env, s, word).0)
  {
    if BufferValid(env, s) && s.c.active && s.c.selectionMode.Some? {
      EraseSelectedShows(env, s, word);
    }
  }

  lemma ActivateShows(env: Env, s: State)
    requires Shows(env.emojiTrigger, s)
    ensures Shows(env.emojiTrigger, Activate(env, s).0)
  {
    TailWordEnds(env.table, s.view);
    var a := ActivateNoCycle(env, s);
    if a.Some? {
      CycleShows(env, a.value, true);
    }
  }

  lemma EraseShows(env: Env, s: State, word: bool)
    requires Shows(env.emojiTrigger, s) && (s.c.selectionMode.None? || s.view == [])
    ensures Shows(env.emojiTrigger, ProcessErase(env, s, word))
  {
    if s.c.selectionMode.None? {
      SyncShows(env, PopQuery(env.table, s.view, word), s);
    } else {
      NothingToErase(env, s, word);
    }
  }

  lemma InstantShows(env: Env, s: State, ch: char)
    requires env.instantExpand && Shows(env.emojiTrigger, s) && Repeats(env.emojiTrigger, s, [ch])
    ensures Shows(env.emojiTrigger, ProcessChar(env, s, ch).0)
  {
    BypassShows(env.emojiTrigger, s, [ch]);
  }

  lemma TypeShows(env: Env, s: State, ch: char)
    requires Shows(env.emojiTrigger, s) && (env.instantExpand ==> Repeats(env.emojiTrigger, s, [ch]))
    ensures Shows(env.emojiTrigger, ProcessChar(env, s, ch).0)
  {
    if env.instantExpand {
      InstantShows(env, s, ch);
    } else {
      CharShows(env, s, ch);
    }
  }

  lemma StepShows(trigger: char, w: World, key: Key)
    requires Shows(trigger, w.s) && Legal(key.env, w, key.step) && Careful(trigger, w, key)
    ensures Shows(trigger, Do(key.env, w, key.step).s)
  {
    match key.step {
      case Type(c, after) => TypeShows(key.env, w.s, c);
      case Erase(word) =>
        if !key.env.fullscreenSuppressed {
          EraseShows(key.env, w.s, word);
        }
      case Tab => ActivateShows(key.env, w.s);
      case CycleKey(forward) => CycleShows(key.env, w.s, forward);
      case EraseSelected(word) => EraseSelectedKeepsShows(key.env, w.s, word);
      case Placeholder(text, captured) => BypassShows(trigger, w.s, text);
      case _ =>
    }
  }

  ghost predicate CarefulRun(trigger: char, w: World, keys: seq<Key>)
    decreases keys
  {
    keys != [] ==>
      && Legal(keys[0].env, w, keys[0].step) && Careful(trigger, w, keys[0])
      && CarefulRun(trigger, Do(keys[0].env, w, keys[0].step), keys[1..])
  }

  /** So through every careful run what the daemon will delete next, the shown
      text, is what stands before the caret. */
  lemma {:induction false} RunShows(trigger: char, w: World, keys: seq<Key>)
    requires Tracks(w) && Shows(trigger, w.s) && CarefulRun(trigger, w, keys)
    ensures var end := Run(w, keys);
            && Tracks(end) && Shows(trigger, end.s)
            && (end.s.c.active && |end.s.c.currentText| <= CAPACITY ==> EndsWith(end.doc, end.s.c.currentText))
    decreases keys
  {
    if keys == [] {
      if w.s.c.active && w.s.c.currentText != [] && |w.s.c.currentText| <= CAPACITY {
        EndsWithTransitive(w.doc, w.s.view, w.s.c.currentText);
      }
    } else {
      StepTracks(keys[0].env, w, keys[0].step);
      StepShows(trigger, w, keys[0]);
      RunShows(trigger, Do(keys[0].env, w, keys[0].step), keys[1..]);
    }
  }

  /** A freshly started engine satisfies everything, in front of any document. */
  lemma Start(doc: string, trigger: char)
    ensures var w := World(State([], Deactivated(), None), doc);
            Tracks(w) && SelectionOk(w.s.c) && Shows(trigger, w.s)
  {
  }

  /** The settings of the example below. */
  predicate EmojiExample(env: Env) {
    && !env.fullscreenSuppressed && !env.instantExpand && env.tabCompletion
    && env.emojiEnabled && env.emojiTrigger == ':' && env.shortcodes("a") == ["ab"]
    && ':' !in env.table.spaces && 'a' !in env.table.spaces && 'b' !in env.table.spaces
  }

  lemma TypeColonA(env: Env, w: World)
    requires EmojiExample(env) && w == World(State("", Deactivated(), None), "")
    ensures var w2 := Do(env, Do(env, w, Type(':', "")), Type('a', ""));
            && w2.s.view == ":a" && w2.doc == ":a" && w2.s.c.active && w2.s.c.isEmoji
            && w2.s.c.originalQuery == "a" && w2.s.c.currentText == ":a" && w2.s.c.selectedIndex.None?
  {
    assert Do(env, w, Type(':', "")) == World(State(":", Activated(true), None), ":");
    assert PushAll(":", ['a']) == ":a";
  }

  lemma CycleRewrites(env: Env, s: State)
    requires EmojiExample(env) && s.view == ":a" && s.c.active && s.c.isEmoji
    requires s.c.originalQuery == "a" && s.c.currentText == ":a" && s.c.selectedIndex.None?
    ensures var (s', r) := Cycle(env, s, true);
            && r == Some(CompletionRewrite(2, ":ab")) && s'.view == ":ab"
            && s'.c == Fields(true, true, "a", ":ab", [":ab"], Some(0), Some(CompletionMode))
  {
    assert BufferValid(env, s) by {
      assert ":a" == [':'] + "a";
      PlainTriggerWord(env.table, ':', "a");
    }
    assert SuggestionsFor(env, true, "a") == [":ab"] by {
      assert WithTrigger(env, ["ab"])[0] == ":ab";
    }
    TabSelectsFirst(env, s, [":ab"]);
    assert PushAll(Chop(":a", 2), ":ab") == ":ab";
  }

  lemma CycleToAb(env: Env, w: World)
    requires EmojiExample(env) && w.s.view == ":a" && w.doc == ":a" && w.s.c.active && w.s.c.isEmoji
    requires w.s.c.originalQuery == "a" && w.s.c.currentText == ":a" && w.s.c.selectedIndex.None?
    ensures var w3 := Do(env, w, CycleKey(true));
            && w3.s.view == ":ab" && w3.doc == ":ab" && w3.s.c.active && w3.s.c.isEmoji
            && w3.s.c.originalQuery == "a" && w3.s.c.currentText == ":ab" && w3.s.c.selectionMode.Some?
  {
    CycleRewrites(env, w.s);
    assert Rewritten(":a", Some(CompletionRewrite(2, ":ab"))) == ":ab";
  }

  lemma AbIsValid(env: Env, s: State)
    requires EmojiExample(env) && s.view == ":ab" && s.c.isEmoji
    ensures BufferValid(env, s)
  {
    assert ":ab" == [':'] + "ab";
    PlainTriggerWord(env.table, ':', "ab");
  }

  lemma EraseAbRewrites(env: Env, s: State)
    requires EmojiExample(env) && s.view == ":ab" && s.c.active && s.c.isEmoji
    requires s.c.originalQuery == "a" && s.c.currentText == ":ab" && s.c.selectionMode.Some?
    ensures var (s', r) := RewriteSelected(env, s, false);
            r == Some(CompletionRewrite(3, "")) && s'.view == "" && s'.c.active && s'.c.currentText == ":"
  {
    AbIsValid(env, s);
    EraseRequeries(env, s, false);
    assert PopQuery(env.table, "a", false) == [];
    assert PushAll(Chop(":ab", 3), []) == [];
    assert QueryText(env, true, []) == ":";
  }

  lemma ErasesSelected(env: Env, w: World, word: bool, s: State, r: Option<CompletionRewrite>)
    requires RewriteSelected(env, w.s, word) == (s, r)
    ensures Do(env, w, EraseSelected(word)) == World(s, Rewritten(w.doc, r))
  {
  }

  lemma EraseAb(env: Env, w: World)
    requires EmojiExample(env) && w.s.view == ":ab" && w.doc == ":ab" && w.s.c.active && w.s.c.isEmoji
    requires w.s.c.originalQuery == "a" && w.s.c.currentText == ":ab" && w.s.c.selectionMode.Some?
    ensures var w4 := Do(env, w, EraseSelected(false));
            w4.doc == "" && w4.s.view == "" && w4.s.c.active && w4.s.c.currentText == ":"
  {
    EraseAbRewrites(env, w.s);
    var (s, r) := RewriteSelected(env, w.s, false);
    ErasesSelected(env, w, false, s, r);
    assert Rewritten(":ab", Some(CompletionRewrite(3, ""))) == "";
  }

  /** A run that is not careful: an emoji query of one character, cycled to
      `:ab` and erased. The document is empty, the engine shows `:`. */
  lemma EmojiEraseLosesTrigger(env: Env, w: World)
    requires EmojiExample(env) && w == World(State("", Deactivated(), None), "")
    ensures var end := Do(env, Do(env, Do(env, Do(env, w, Type(':', "")), Type('a', "")), CycleKey(true)),
                          EraseSelected(false));
            end.doc == "" && end.s.c.currentText == ":" && !Shows(':', end.s)
  {
    TypeColonA(env, w);
    var w2 := Do(env, Do(env, w, Type(':', "")), Type('a', ""));
    CycleToAb(env, w2);
    EraseAb(env, Do(env, w2, CycleKey(true)));
  }

  // ------------------------------------------------------ a stale Backspace

  /** Instant expansion, a completion from "g" to "gco", and nothing to expand. */
  ghost predicate StaleExample(env: Env) {
    && !env.fullscreenSuppressed && env.instantExpand && env.tabCompletion && env.wordTriggers("g") == ["gco"]
    && (forall q :: env.fetchExpansion(q).None? && env.regexExpansion(q).None?)
    && 'g' !in env.table.spaces && 'c' !in env.table.spaces && 'o' !in env.table.spaces
  }

  lemma {:induction false} NothingMatches(env: Env, cs: seq<(string, Option<char>)>, i: nat)
    requires StaleExample(env) && i <= |cs|
    ensures LastMatch(env, cs, i) == 0
  {
    if i > 0 {
      NothingMatches(env, cs, i - 1);
    }
  }

  lemma NothingExpands(env: Env, view: string)
    requires StaleExample(env)
    ensures Evaluation(env, view).None?
  {
    var cs := Candidates(env.table, view);
    NothingMatches(env, cs, |cs|);
  }

  lemma TypePastCompletion(env: Env, w: World, c: char)
    requires StaleExample(env)
    ensures Do(env, w, Type(c, "")) == World(w.s.(view := PushAll(w.s.view, [c])), w.doc + [c])
  {
    NothingExpands(env, PushAll(w.s.view, [c]));
  }

  lemma GHasCompletion(env: Env, s: State) returns (a: State)
    requires StaleExample(env) && s.view == "g"
    ensures ActivateNoCycle(env, s) == Some(a) && BufferValid(env, a)
    ensures a == State("g", Fields(true, false, "g", "g", ["gco"], None, None), s.clipboard)
  {
    TailWordUnique(env.table, "g", "g");
    a := ActivateNoCycle(env, s).value;
  }

  lemma TabRewrites(env: Env, s: State)
    requires StaleExample(env) && s.view == "g"
    ensures var (s', r) := Activate(env, s);
            && s'.view == "gco" && s'.c == Fields(true, false, "g", "gco", ["gco"], Some(0), Some(CompletionMode))
            && r == Some(CompletionRewrite(1, "gco"))
  {
    var a := GHasCompletion(env, s);
    TabSelectsFirst(env, a, ["gco"]);
    assert PushAll(Chop("g", 1), "gco") == "gco";
  }

  lemma TabToGco(env: Env, w: World)
    requires StaleExample(env) && w.s.view == "g" && w.doc == "g"
    ensures var w2 := Do(env, w, Tab);
            w2.s.view == "gco" && w2.doc == "gco" && w2.s.c.selectionMode.Some? && w2.s.c.active && !w2.s.c.isEmoji
  {
    TabRewrites(env, w.s);
    assert Rewritten("g", Some(CompletionRewrite(1, "gco"))) == "gco";
  }

  /** A Backspace on a text that ends in whitespace, with a word selected. */
  lemma EraseStale(env: Env, w: World)
    requires StaleExample(env) && w.s.view == "gco " && w.doc == "gco " && w.s.c.selectionMode.Some? && !w.s.c.isEmoji
    ensures var w2 := Do(env, w, Erase(false));
            Passed(env, w.s) && w2.s.view == "gco " && w2.doc == "gco" && !Tracks(w2)
  {
    TailWordEnds(env.table, w.s.view);
    assert Last("gco ") == ' ' && Chop("gco ", 1) == "gco";
  }

  /** A run with a stale Backspace: Tab completes "g" to "gco", a space is typed
      past the completion, and Backspace deletes it in the document only. */
  lemma StaleSelectionLosesText(env: Env, w: World)
    requires StaleExample(env) && w == World(State("", Deactivated(), None), "")
    ensures var w3 := Do(env, Do(env, Do(env, w, Type('g', "")), Tab), Type(' ', ""));
            Passed(env, w3.s) && !Tracks(Do(env, w3, Erase(false)))
  {
    TypePastCompletion(env, w, 'g');
    assert PushAll("", ['g']) == "g";
    var w1 := Do(env, w, Type('g', ""));
    TabToGco(env, w1);
    var w2 := Do(env, w1, Tab);
    TypePastCompletion(env, w2, ' ');
    assert PushAll("gco", [' ']) == "gco " == "gco" + [' '];
    EraseStale(env, Do(env, w2, Type(' ', "")));
  }

  // ------------------------------------------- erasing always finds the word

  /** Selecting a suggestion that is empty or ends in whitespace can leave the
      text without a tail word; a tidy catalogue has none. */
  ghost predicate Tidy(env: Env) {
    forall q: string, i :: 0 <= i < |env.wordTriggers(q)| ==>
      env.wordTriggers(q)[i] != [] && !env.table.space(Last(env.wordTriggers(q)[i]))
  }

  /** In word mode whatever is selected leaves a tail word. */
  predicate SelectionValid(t: Table, s: State) {
    s.c.selectionMode.Some? && !s.c.isEmoji ==> s.view != [] && !t.space(Last(s.view))
  }

  lemma CycleKeepsValid(env: Env, s: State, forward: bool)
    requires SelectionValid(env.table, s) && Tidy(env)
    ensures SelectionValid(env.table, Cycle(env, s, forward).0)
  {
    var suggestions := SuggestionsFor(env, s.c.isEmoji, s.c.originalQuery);
    if suggestions != [] && !s.c.isEmoji {
      var r := suggestions[NextIndex(s.c.selectedIndex, |suggestions|, forward)];
      assert r == env.wordTriggers(s.c.originalQuery)[NextIndex(s.c.selectedIndex, |suggestions|, forward)];
      var kept := Chop(s.view, |s.c.currentText|);
      assert Last(kept + r) == Last(r);
    }
  }

  /** Completion sees every text that is typed while it is active. */
  predicate TextSeen(env: Env, s: State, step: Step) {
    Bypassing(env, step).Some? ==> !s.c.active
  }

  lemma TypeKeepsValid(env: Env, w: World, c: char, after: string)
    requires SelectionOk(w.s.c) && TextSeen(env, w.s, Type(c, after))
    ensures SelectionValid(env.table, Do(env, w, Type(c, after)).s)
  {
  }

  lemma EnterKeepsValid(env: Env, w: World, after: string)
    requires SelectionOk(w.s.c)
    ensures SelectionValid(env.table, Do(env, w, Enter(after)).s)
  {
  }

  lemma EraseKeepsValid(env: Env, w: World, word: bool)
    requires SelectionOk(w.s.c) && Legal(env, w, Erase(word))
    ensures SelectionValid(env.table, Do(env, w, Erase(word)).s)
  {
  }

  lemma StepKeepsValid(env: Env, w: World, step: Step)
    requires SelectionValid(env.table, w.s) && SelectionOk(w.s.c) && Legal(env, w, step) && Tidy(env)
    requires TextSeen(env, w.s, step)
    ensures SelectionValid(env.table, Do(env, w, step).s)
  {
    match step {
      case Tab =>
        var s := ActivateNoCycle(env, w.s);
        if s.Some? {
          CycleKeepsValid(env, s.value, true);
        }
      case CycleKey(forward) => CycleKeepsValid(env, w.s, forward);
      case Type(c, after) => TypeKeepsValid(env, w, c, after);
      case Enter(after) => EnterKeepsValid(env, w, after);
      case Erase(word) => EraseKeepsValid(env, w, word);
      case _ =>
    }
  }

  ghost predicate TidyRun(t: Table, w: World, keys: seq<Key>)
    decreases keys
  {
    keys != [] ==>
      && Legal(keys[0].env, w, keys[0].step) && Tidy(keys[0].env) && keys[0].env.table == t
      && TextSeen(keys[0].env, w.s, keys[0].step)
      && TidyRun(t, Do(keys[0].env, w, keys[0].step), keys[1..])
  }

  /** With tidy catalogues a word completion that has a selection is valid after
      any run, so erasing in it rewrites the document and never falls through to
      the unselected path. */
  lemma {:induction false} SelectedEraseRewrites(t: Table, w: World, keys: seq<Key>, env: Env, word: bool)
    requires SelectionValid(t, w.s) && SelectionOk(w.s.c) && TidyRun(t, w, keys) && env.table == t
    ensures var s := Run(w, keys).s;
            s.c.selectionMode.Some? && !s.c.isEmoji ==>
              CompletionActive(env, s) && RewriteSelected(env, s, word).1.Some?
    decreases keys
  {
    if keys == [] {
      TailWordEnds(t, w.s.view);
    } else {
      StepKeepsValid(keys[0].env, w, keys[0].step);
      StepKeepsSelection(keys[0].env, w, keys[0].step);
      SelectedEraseRewrites(t, Do(keys[0].env, w, keys[0].step), keys[1..], env, word);
    }
  }
}
