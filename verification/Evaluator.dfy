/** The engine itself: a ring buffer, the completion fields and a captured
    clipboard, updated in place (core/src/engine/evaluator.rs,
    core/src/engine/completion.rs, core/src/engine/expansion.rs,
    core/src/engine/fallback.rs). Every method takes the abstract state to the
    state that `Completion` and `Expansion` define. */
module Engine {
  import opened Text
  import opened Types
  import opened QuoteScan
  import opened SuffixScan
  import opened WordSuffix
  import opened RingBuffer
  import opened Expansion
  import opened Completion
  import Comma
  import Undo

  function PopCharFromQuery(query: string): string {
    Chop(query, 1)
  }

  method PopWordFromQuery(t: CharTable, query: string) returns (r: string)
    ensures r == PopWord(t, query)
  {
    var chars := query;
    while chars != [] && t.space(Last(chars))
      invariant TrimEnd(t, chars) == TrimEnd(t, query)
      decreases |chars|
    {
      chars := Init(chars);
    }
    if chars == [] {
      return [];
    }
    var isAlphanumeric := t.alnum(Last(chars));
    while chars != [] && !t.space(Last(chars)) && t.alnum(Last(chars)) == isAlphanumeric
      invariant DropClass(t, chars, isAlphanumeric) == PopWord(t, query)
      decreases |chars|
    {
      chars := Init(chars);
    }
    r := chars;
  }

  class TriggerCompletionState {
    var active: bool
    var isEmoji: bool
    var originalQuery: string
    var currentText: string
    var suggestions: seq<string>
    var selectedIndex: Option<nat>
    var selectionMode: Option<SelectionMode>

    ghost function Abs(): Fields
      reads this
    {
      Fields(active, isEmoji, originalQuery, currentText, suggestions, selectedIndex, selectionMode)
    }

    constructor ()
      ensures Abs() == Deactivated()
    {
      active := false;
      isEmoji := false;
      originalQuery := [];
      currentText := [];
      suggestions := [];
      selectedIndex := None;
      selectionMode := None;
    }

    method Activate(emoji: bool)
      modifies this
      ensures Abs() == Activated(emoji)
    {
      active := true;
      isEmoji := emoji;
      originalQuery := [];
      currentText := [];
      suggestions := [];
      selectedIndex := None;
      selectionMode := None;
    }

    method Deactivate()
      modifies this
      ensures Abs() == Deactivated()
    {
      active := false;
      isEmoji := false;
      originalQuery := [];
      currentText := [];
      suggestions := [];
      selectedIndex := None;
      selectionMode := None;
    }

    method ClearSelection()
      modifies this
      ensures Abs() == old(Abs()).(selectedIndex := None, selectionMode := None)
    {
      selectedIndex := None;
      selectionMode := None;
    }
  }

  class Evaluator {
    const buffer: FastBuffer
    const completion: TriggerCompletionState
    var capturedAiClipboard: Option<string>

    ghost predicate Valid()
      reads buffer, buffer.data
    {
      buffer.Valid()
    }

    ghost function Abs(): State
      reads this, buffer, completion
    {
      State(buffer.view, completion.Abs(), capturedAiClipboard)
    }

    constructor ()
      ensures Valid() && Abs() == State([], Deactivated(), None)
    {
      buffer := new FastBuffer();
      completion := new TriggerCompletionState();
      capturedAiClipboard := None;
    }

    method Reset()
      requires Valid()
      modifies this, buffer, buffer.data, completion
      ensures Valid() && Abs() == Completion.Reset(old(Abs()))
    {
      buffer.Clear();
      completion.Deactivate();
      capturedAiClipboard := None;
    }

    // ------------------------------------------------------------ completion

    method IsBufferValidForCompletion(env: Env) returns (valid: bool)
      requires Valid()
      ensures valid == BufferValid(env, Abs())
    {
      if completion.isEmoji {
        var word := buffer.ExtractTriggerWord(env.table, env.emojiTrigger);
        valid := word.Some?;
      } else {
        var word := buffer.ExtractTailWord(env.table);
        valid := word.Some?;
      }
    }

    method IsCompletionActive(env: Env) returns (active: bool)
      requires Valid()
      ensures active == CompletionActive(env, Abs())
    {
      var valid := IsBufferValidForCompletion(env);
      active := completion.active && valid;
    }

    method CancelCompletion()
      requires Valid()
      modifies completion
      ensures Valid() && Abs() == old(Abs()).(c := Deactivated())
    {
      completion.Deactivate();
    }

    method RebuildCompletionSuggestions(env: Env, query: string)
      modifies completion
      ensures completion.Abs() == Rebuilt(env, old(completion.Abs()), query)
    {
      if !completion.active || !env.tabCompletion || query == [] {
        completion.suggestions := [];
        return;
      }
      if completion.isEmoji {
        completion.suggestions := WithTrigger(env, env.shortcodes(StripTrigger(env, query)));
      } else {
        completion.suggestions := env.wordTriggers(query);
      }
    }

    method ApplyUserQuery(env: Env, query: string)
      modifies completion
      ensures completion.Abs() == ApplyQuery(env, old(completion.Abs()), query)
    {
      if completion.isEmoji {
        var withTrigger := if StartsWith(query, env.emojiTrigger) then query else [env.emojiTrigger] + query;
        completion.currentText := withTrigger;
      } else {
        completion.currentText := query;
      }
      completion.originalQuery := query;
      completion.ClearSelection();
      RebuildCompletionSuggestions(env, query);
    }

    method UpdateCompletionAfterChar(env: Env, c: char)
      requires Valid()
      modifies completion
      ensures Valid() && completion.Abs() == AfterChar(env, buffer.view, old(completion.Abs()), c)
    {
      if env.instantExpand {
        return;
      }
      var boundary := buffer.IsWordBoundary(env.table);
      if env.emojiEnabled && c == env.emojiTrigger && !completion.active && boundary {
        completion.Activate(true);
        return;
      }
      if !completion.active {
        return;
      }
      ApplyUserQuery(env, completion.currentText + [c]);
    }

    method SyncCompletionFromBuffer(env: Env)
      requires Valid()
      modifies completion
      ensures Valid() && completion.Abs() == Synced(env, buffer.view, old(completion.Abs()))
    {
      if !completion.active {
        return;
      }
      var query;
      if completion.isEmoji {
        query := buffer.ExtractTriggerWord(env.table, env.emojiTrigger);
        if query.None? || !ShortcodeChars(env.table, query.value) {
          completion.Deactivate();
          return;
        }
      } else {
        query := buffer.ExtractTailWord(env.table);
        if query.None? {
          completion.Deactivate();
          return;
        }
      }
      ApplyUserQuery(env, query.value);
    }

    method AppendToBuffer(text: string)
      requires Valid()
      modifies buffer, buffer.data
      ensures Valid() && (buffer.data == old(buffer.data) || fresh(buffer.data))
      ensures buffer.view == PushAll(old(buffer.view), text)
    {
      ghost var view := buffer.view;
      for i := 0 to |text|
        invariant Valid() && (buffer.data == old(buffer.data) || fresh(buffer.data))
        invariant buffer.view == PushAll(view, text[..i])
      {
        buffer.Push(text[i]);
        PushAllNext(view, text, i);
      }
      assert text[..|text|] == text;
    }

    lemma PushAllNext(view: string, text: string, i: nat)
      requires i < |text|
      ensures PushAll(PushAll(view, text[..i]), [text[i]]) == PushAll(view, text[..i + 1])
    {
      assert text[..i + 1] == text[..i] + [text[i]];
      assert view + text[..i + 1] == view + text[..i] + [text[i]];
    }

    method RewriteCurrentText(replacement: string) returns (r: CompletionRewrite)
      requires Valid()
      modifies buffer, buffer.data, completion
      ensures Valid() && (buffer.data == old(buffer.data) || fresh(buffer.data))
      ensures (Abs(), r) == Rewrite(old(Abs()), replacement)
    {
      var deleteCount := |completion.currentText|;
      buffer.PopN(deleteCount);
      AppendToBuffer(replacement);
      completion.currentText := replacement;
      r := CompletionRewrite(deleteCount, replacement);
    }

    method RewriteSelectedQuery(env: Env, word: bool) returns (r: Option<CompletionRewrite>)
      requires Valid()
      modifies buffer, buffer.data, completion
      ensures Valid() && (buffer.data == old(buffer.data) || fresh(buffer.data))
      ensures (Abs(), r) == RewriteSelected(env, old(Abs()), word)
    {
      var isValid := IsBufferValidForCompletion(env);
      if !isValid {
        completion.Deactivate();
        return None;
      }
      if !completion.active || completion.selectionMode.None? {
        return None;
      }
      var nextQuery;
      if word {
        nextQuery := PopWordFromQuery(env.table, completion.originalQuery);
      } else {
        nextQuery := PopCharFromQuery(completion.originalQuery);
      }
      var rewrite := RewriteCurrentText(nextQuery);
      ApplyUserQuery(env, nextQuery);
      r := Some(rewrite);
    }

    method CycleCompletion(env: Env, forward: bool) returns (r: Option<CompletionRewrite>)
      requires Valid()
      modifies buffer, buffer.data, completion
      ensures Valid() && (buffer.data == old(buffer.data) || fresh(buffer.data))
      ensures (Abs(), r) == Cycle(env, old(Abs()), forward)
    {
      if !env.tabCompletion {
        completion.suggestions := [];
        completion.selectedIndex := None;
        match completion.selectionMode {
          case Some(CompletionMode) => completion.selectionMode := None;
          case None =>
        }
        return None;
      }
      var isValid := IsBufferValidForCompletion(env);
      if !isValid {
        completion.Deactivate();
        return None;
      }
      if !completion.active || completion.originalQuery == [] {
        return None;
      }
      var baseQuery := completion.originalQuery;
      var suggestions :=
        if completion.isEmoji then WithTrigger(env, env.shortcodes(StripTrigger(env, baseQuery)))
        else env.wordTriggers(baseQuery);
      if suggestions == [] {
        completion.suggestions := [];
        completion.selectedIndex := None;
        return None;
      }
      var rewrite := SelectNext(suggestions, forward);
      r := Some(rewrite);
    }

    /** The tail of CycleCompletion: show the next suggestion and select it. */
    method SelectNext(suggestions: seq<string>, forward: bool) returns (r: CompletionRewrite)
      requires Valid() && suggestions != []
      modifies buffer, buffer.data, completion
      ensures Valid() && (buffer.data == old(buffer.data) || fresh(buffer.data))
      ensures var next := NextIndex(old(completion.selectedIndex), |suggestions|, forward);
              var (s', w) := Rewrite(old(Abs()), suggestions[next]);
              Abs() == s'.(c := s'.c.(suggestions := suggestions, selectedIndex := Some(next),
                                      selectionMode := Some(CompletionMode))) && r == w
    {
      completion.suggestions := suggestions;
      var nextIndex := NextIndex(completion.selectedIndex, |suggestions|, forward);
      r := RewriteCurrentText(suggestions[nextIndex]);
      completion.selectedIndex := Some(nextIndex);
      completion.selectionMode := Some(CompletionMode);
    }

    method ActivateTriggerlessCompletionNoCycle(env: Env) returns (activated: bool)
      requires Valid()
      modifies completion
      ensures Valid()
      ensures activated == ActivateNoCycle(env, old(Abs())).Some?
      ensures Abs() == if activated then ActivateNoCycle(env, old(Abs())).value else old(Abs())
    {
      var tailWord := buffer.ExtractTailWord(env.table);
      if tailWord.None? {
        return false;
      }
      var suggestions := env.wordTriggers(tailWord.value);
      if suggestions == [] {
        return false;
      }
      completion.Activate(false);
      completion.currentText := tailWord.value;
      completion.suggestions := suggestions;
      completion.originalQuery := tailWord.value;
      activated := true;
    }

    method ActivateTriggerlessCompletion(env: Env) returns (r: Option<CompletionRewrite>)
      requires Valid()
      modifies buffer, buffer.data, completion
      ensures Valid() && (buffer.data == old(buffer.data) || fresh(buffer.data))
      ensures (Abs(), r) == Completion.Activate(env, old(Abs()))
    {
      var activated := ActivateTriggerlessCompletionNoCycle(env);
      if !activated {
        return None;
      }
      r := CycleCompletion(env, true);
    }

    // ------------------------------------------------------------- expansion

    method TryTailWord(env: Env) returns (r: Option<ExpansionResult>)
      requires Valid()
      ensures r == OrElse(ColorBranch(env, buffer.view), UnitBranch(env, buffer.view))
    {
      var word := buffer.ExtractTailWord(env.table);
      if env.instantExpand || word.None? {
        return None;
      }
      var color := env.convertColor(word.value);
      if color.Some? {
        return Some(Replacing(word.value, color.value, true));
      }
      var cleaned, intervals := Comma.Preprocess(word.value);
      if !env.isConversion(cleaned) {
        return None;
      }
      var result := env.convert(cleaned);
      if result.None? {
        return None;
      }
      var formatted := result.value;
      if env.indianGrouping(cleaned, result.value) {
        formatted := Comma.FormatResult(result.value, [3, 2]);
      } else if intervals.Some? {
        formatted := Comma.FormatResult(result.value, intervals.value);
      }
      r := Some(Replacing(word.value, formatted, true));
    }

    method TryEmoji(env: Env) returns (r: Option<ExpansionResult>)
      requires Valid()
      ensures r == EmojiBranch(env, buffer.view)
    {
      if env.instantExpand || !env.emojiEnabled {
        return None;
      }
      var word := buffer.ExtractTriggerWord(env.table, env.emojiTrigger);
      if word.None? {
        return None;
      }
      var emoji := env.lookupEmoji(word.value);
      if emoji.None? {
        return None;
      }
      r := Some(ExpansionResult(1 + |word.value|, [TextStep(emoji.value)], word.value,
                                Some([env.emojiTrigger] + word.value), false, Snippet, true, None));
    }

    method KeywordExpansion(env: Env, word: string, e: FinalExpansion) returns (r: ExpansionResult)
      ensures r == KeywordResult(env, word, e)
    {
      var statKind := StatKindForSteps(e.isCalculation, e.steps);
      match e.aiTemplate {
        case Some(template) =>
          r := ExpansionResult(|word|, [TextStep(env.spinnerText(template))], word, None, false, InlineAi, true,
                               Some(AiTransformer(template)));
        case None =>
          var undoTrigger := Undo.UndoTriggerForSteps(word, e.steps);
          r := ExpansionResult(|word|, e.steps, word, undoTrigger, e.isCalculation, statKind, true, None);
      }
    }

    method SearchSuffixes(env: Env, candidates: seq<(string, Option<char>)>) returns (r: Option<ExpansionResult>)
      ensures r == SuffixResult(env, candidates)
    {
      var i := |candidates|;
      while i > 0
        invariant 0 <= i <= |candidates|
        invariant LastMatch(env, candidates, |candidates|) == LastMatch(env, candidates, i)
      {
        var (word, prevChar) := candidates[i - 1];
        if Boundary(env.table, prevChar) {
          var expansion := env.fetchExpansion(word);
          if expansion.Some? {
            var result := KeywordExpansion(env, word, expansion.value);
            return Some(result);
          }
        }
        i := i - 1;
      }
      r := None;
    }

    method TrySuffix(env: Env) returns (r: Option<ExpansionResult>)
      requires Valid()
      ensures r == SuffixBranch(env, buffer.view)
    {
      var candidates := buffer.ExtractSuffixCandidates(env.table);
      r := SearchSuffixes(env, candidates);
    }

    method SearchCandidates(f: string -> Option<string>, candidates: seq<string>, isCalculation: bool)
      returns (r: Option<ExpansionResult>)
      ensures r == FirstHit(f, candidates, isCalculation)
    {
      for i := 0 to |candidates|
        invariant FirstAccepted(f, candidates, 0) == FirstAccepted(f, candidates, i)
      {
        var result := f(candidates[i]);
        if result.Some? {
          return Some(Replacing(candidates[i], result.value, isCalculation));
        }
      }
      r := None;
    }

    method CheckAllInlineFallbacks(env: Env) returns (r: Option<ExpansionResult>)
      requires Valid()
      ensures r == FallbackSearch(env, buffer.view)
    {
      var text := buffer.BufferString();
      var candidates := BuildWordCandidates(Words(env.table, text));
      r := SearchCandidates(env.convertNatural, candidates, true);
      if r.Some? {
        return;
      }
      if env.datetimeEnabled {
        r := SearchCandidates(env.timezone, candidates, true);
        if r.Some? {
          return;
        }
        r := SearchCandidates(env.date, candidates, true);
        if r.Some? {
          return;
        }
      }
      r := SearchCandidates(env.convertColor, candidates, true);
      if r.Some? {
        return;
      }
      if env.emojiEnabled {
        r := SearchCandidates(env.naturalEmoji, candidates, false);
      }
    }

    /** The branches after the emoji trigger, in order. */
    method TryRest(env: Env) returns (r: Option<ExpansionResult>)
      requires Valid()
      ensures r == OrElse(DictionaryBranch(env, buffer.view), OrElse(SuffixBranch(env, buffer.view),
                   OrElse(RegexBranch(env, buffer.view), FallbackBranch(env, buffer.view))))
    {
      var text := buffer.BufferString();
      var entry := env.dictionary(text);
      if !env.instantExpand && entry.Some? {
        return Some(ExpansionResult(entry.value.length, [TextStep(env.thinkingText)], entry.value.word, None, false,
                                    Snippet, true, Some(DictionaryLookup(entry.value.word, entry.value.kind))));
      }
      r := TrySuffix(env);
      if r.Some? {
        return;
      }
      var m := env.regexExpansion(text);
      if m.Some? {
        var result := KeywordExpansion(env, m.value.0, m.value.1);
        return Some(result);
      }
      if !env.instantExpand {
        r := CheckAllInlineFallbacks(env);
      }
    }

    method FindExpansion(env: Env) returns (r: Option<ExpansionResult>)
      requires Valid()
      ensures r == Evaluation(env, buffer.view)
    {
      r := TryTailWord(env);
      if r.None? {
        r := TryEmoji(env);
      }
      if r.None? {
        r := TryRest(env);
      }
    }

    method EvaluateBufferForExpansion(env: Env) returns (r: Option<ExpansionResult>)
      requires Valid()
      modifies buffer, buffer.data
      ensures Valid() && buffer.data == old(buffer.data)
      ensures (Abs(), r) == Evaluate(env, old(Abs()))
    {
      r := FindExpansion(env);
      ClearAfter(r.Some?);
    }

    method ClearAfter(expanded: bool)
      requires Valid()
      modifies buffer, buffer.data
      ensures Valid() && buffer.data == old(buffer.data)
      ensures Abs() == ClearedAfter(old(Abs()), expanded)
    {
      if expanded {
        buffer.Clear();
      }
    }

    method CheckInlineAiTrigger(env: Env) returns (r: Option<ExpansionResult>)
      requires Valid()
      modifies this, buffer, buffer.data
      ensures Valid() && buffer.data == old(buffer.data)
      ensures (Abs(), r) == CheckAi(env, old(Abs()))
    {
      var text := buffer.BufferString();
      var span := TauStart(env.table, text);
      if span.None? {
        return None;
      }
      buffer.Clear();
      r := ResolveSpan(env, text, span.value, capturedAiClipboard);
      capturedAiClipboard := None;
    }

    method ResolveSpan(env: Env, text: string, span: nat, captured: Option<string>) returns (r: Option<ExpansionResult>)
      requires TauStart(env.table, text) == Some(span)
      ensures r == AiResult(env, text, captured)
    {
      var promptRaw := Trim(env.table, text[span + 4..]);
      var deleteCount := |text| - span;
      var prompt := env.resolvePrompt(promptRaw, captured);
      if prompt == [] {
        return None;
      }
      r := Some(ExpansionResult(deleteCount, [TextStep(env.thinkingText)], "tau,", None, false, InlineAi, false,
                                Some(InlineAiPrompt(prompt))));
    }

    // ------------------------------------------------------------ event loop

    method DecideExpansion(env: Env) returns (r: Option<ExpansionResult>)
      requires Valid()
      modifies this, buffer, buffer.data
      ensures Valid() && buffer.data == old(buffer.data)
      ensures (Abs(), r) == Decide(env, old(Abs()))
    {
      r := None;
      if env.aiEnabled {
        r := CheckInlineAiTrigger(env);
      }
      if r.None? {
        r := EvaluateBufferForExpansion(env);
      }
    }

    method FinishAction(wasActive: bool, expanded: bool)
      requires Valid()
      modifies buffer, buffer.data, completion
      ensures Valid() && (buffer.data == old(buffer.data) || fresh(buffer.data))
      ensures Abs() == AfterAction(old(Abs()), wasActive, expanded)
    {
      if wasActive {
        completion.Deactivate();
      }
      if !expanded && !completion.active {
        buffer.Push('\n');
      }
    }

    method ProcessActionKey(env: Env) returns (r: Option<ExpansionResult>)
      requires Valid()
      modifies this, buffer, buffer.data, completion
      ensures Valid()
      ensures (Abs(), r) == ProcessAction(env, old(Abs()))
    {
      var wasActive := completion.active;
      r := DecideExpansion(env);
      FinishAction(wasActive, r.Some?);
    }

    method ProcessTypedChar(env: Env, c: char) returns (r: Option<ExpansionResult>)
      requires Valid()
      modifies this, buffer, buffer.data, completion
      ensures Valid()
      ensures (Abs(), r) == ProcessChar(env, old(Abs()), c)
    {
      buffer.Push(c);
      UpdateCompletionAfterChar(env, c);
      r := None;
      if env.instantExpand {
        r := EvaluateBufferForExpansion(env);
        if r.Some? && completion.active {
          completion.Deactivate();
        }
      }
    }

    method ProcessBackspace(env: Env, word: bool)
      requires Valid()
      modifies buffer, buffer.data, completion
      ensures Valid()
      ensures Abs() == ProcessErase(env, old(Abs()), word)
    {
      if completion.selectionMode.Some? {
        var _ := RewriteSelectedQuery(env, word);
      } else {
        if word {
          buffer.PopWord(env.table);
        } else {
          buffer.Pop();
        }
        SyncCompletionFromBuffer(env);
      }
    }

    method ProcessEvent(env: Env, event: Event) returns (r: Option<ExpansionResult>)
      requires Valid()
      modifies this, buffer, buffer.data, completion
      ensures Valid()
      ensures (Abs(), r) == Process(env, old(Abs()), event)
    {
      if env.fullscreenSuppressed {
        buffer.Clear();
        completion.Deactivate();
        return None;
      }
      r := None;
      match event {
        case Interrupt => Reset();
        case Backspace => ProcessBackspace(env, false);
        case WordBackspace => ProcessBackspace(env, true);
        case ActionKey => r := ProcessActionKey(env);
        case Paste(_) =>
        case Char(c) => r := ProcessTypedChar(env, c);
      }
    }
  }
}
