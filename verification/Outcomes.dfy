/** What every expansion deletes, types and hands on, kind by kind and field by
    field, and which kind decides. */
module Outcomes {
  import opened Text
  import opened Types
  import opened QuoteScan
  import opened SuffixScan
  import opened WordSuffix
  import opened Expansion
  import opened ExpansionLaws
  import Comma
  import Undo

  // ------------------------------------------------------- which kind decides

  /** The tail word is w and the conversions are not switched off. */
  predicate OnTail(env: Env, view: string, w: string) {
    !env.instantExpand && TailWord(env.table, view) == Some(w)
  }

  ghost predicate HasColor(env: Env, view: string) {
    exists w :: OnTail(env, view, w) && env.convertColor(w).Some?
  }

  predicate UnitOf(env: Env, view: string, w: string) {
    OnTail(env, view, w) && env.isConversion(Comma.Erase(w)) && env.convert(Comma.Erase(w)).Some?
  }

  ghost predicate HasUnit(env: Env, view: string) {
    exists w :: UnitOf(env, view, w)
  }

  ghost predicate EmojiOf(env: Env, view: string, w: string) {
    && !env.instantExpand && env.emojiEnabled && TriggerWord(env.table, view, env.emojiTrigger) == Some(w)
    && env.lookupEmoji(w).Some?
  }

  ghost predicate HasEmoji(env: Env, view: string) {
    exists w :: EmojiOf(env, view, w)
  }

  predicate HasDictionary(env: Env, view: string) {
    !env.instantExpand && env.dictionary(view).Some?
  }

  ghost predicate HasKeyword(env: Env, view: string) {
    exists n :: Expandable(env, view, n)
  }

  ghost predicate HasFallback(env: Env, view: string) {
    !env.instantExpand && exists i: nat, k: nat :: ConversionOf(env, view, i, k)
  }

  /** The i-th conversion is on and accepts the last k words, at most six. */
  predicate ConversionOf(env: Env, view: string, i: nat, k: nat) {
    var ws := Words(env.table, view);
    && i < |Conversions(env)| && Conversions(env)[i].enabled
    && 1 <= k <= 6 && k <= |ws| && Conversions(env)[i].f(JoinWords(ws[|ws| - k..])).Some?
  }

  ghost predicate NoneBeforeDictionary(env: Env, view: string) {
    !HasColor(env, view) && !HasUnit(env, view) && !HasEmoji(env, view)
  }

  lemma ColorMeaning(env: Env, view: string)
    ensures HasColor(env, view) <==> ColorBranch(env, view).Some?
  {
    var q := TailWord(env.table, view);
    if q.Some? && ColorBranch(env, view).Some? {
      assert OnTail(env, view, q.value);
    }
  }

  lemma UnitMeaning(env: Env, view: string)
    ensures HasUnit(env, view) <==> UnitBranch(env, view).Some?
  {
    var q := TailWord(env.table, view);
    if q.Some? && UnitBranch(env, view).Some? {
      assert UnitOf(env, view, q.value);
    }
  }

  lemma EmojiMeaning(env: Env, view: string)
    ensures HasEmoji(env, view) <==> EmojiBranch(env, view).Some?
  {
    var q := TriggerWord(env.table, view, env.emojiTrigger);
    if q.Some? && EmojiBranch(env, view).Some? {
      assert EmojiOf(env, view, q.value);
    }
  }

  lemma KeywordMeaning(env: Env, view: string)
    ensures HasKeyword(env, view) <==> SuffixBranch(env, view).Some?
  {
    var n := SuffixResultIsLongest(env, view);
  }

  lemma FallbackMeaning(env: Env, view: string)
    ensures HasFallback(env, view) <==> FallbackBranch(env, view).Some?
  {
    var i, k := FallbackIsFirstLongest(env, view);
    if FallbackBranch(env, view).Some? {
      ConversionMeaning(env, view, i, k);
    }
    if i: nat, k: nat :| ConversionOf(env, view, i, k) {
      ConversionMeaning(env, view, i, k);
    }
  }

  lemma ConversionMeaning(env: Env, view: string, i: nat, k: nat)
    requires i < |Conversions(env)|
    ensures ConversionOf(env, view, i, k) <==> Accepts(Conversions(env)[i], Words(env.table, view), k)
  {
  }

  // ------------------------------------------------------------ what is typed

  /** The word is replaced by the output, and undo would put the word back. */
  predicate Replaces(r: ExpansionResult, word: string, output: string, isCalculation: bool) {
    && r.deleteCount == |word| && r.steps == [TextStep(output)] && r.trigger == word && r.undoTrigger == Some(word)
    && r.isCalculation == isCalculation && r.statKind == (if isCalculation then Calculation else Snippet)
    && r.trackUsage && r.followUp.None?
  }

  lemma OneStepText(output: string)
    ensures StepsText([TextStep(output)]) == output
  {
    assert [TextStep(output)][1..] == [];
  }

  /** What is typed for a replaced word is the output. */
  lemma ReplacesTypes(r: ExpansionResult, word: string, output: string, isCalculation: bool)
    requires Replaces(r, word, output, isCalculation)
    ensures StepsText(r.steps) == output
  {
    OneStepText(output);
  }

  /** A colour comes first: its conversion replaces the tail word. */
  lemma ColorOutcome(env: Env, view: string, w: string)
    requires OnTail(env, view, w) && env.convertColor(w).Some?
    ensures Evaluation(env, view).Some?
    ensures Replaces(Evaluation(env, view).value, w, env.convertColor(w).value, true)
  {
  }

  /** The converted quantity: in lakh grouping if the currency asks for it, else
      in the groups the input was written in, else as it is. */
  predicate Regrouped(env: Env, w: string, output: string) {
    var result := env.convert(Comma.Erase(w));
    result.Some? &&
    var groups := Comma.Preprocessed(w).1;
    && (env.indianGrouping(Comma.Erase(w), result.value) ==> output == Comma.Formatted(result.value, [3, 2]))
    && (!env.indianGrouping(Comma.Erase(w), result.value) && groups.Some? ==>
          output == Comma.Formatted(result.value, groups.value))
    && (!env.indianGrouping(Comma.Erase(w), result.value) && groups.None? ==> output == result.value)
  }

  /** A unit comes second: the converted quantity replaces the tail word. */
  lemma UnitOutcome(env: Env, view: string, w: string) returns (output: string)
    requires UnitOf(env, view, w) && !HasColor(env, view)
    ensures Evaluation(env, view).Some?
    ensures Regrouped(env, w, output) && Replaces(Evaluation(env, view).value, w, output, true)
  {
    ColorMeaning(env, view);
    output := FormatConversion(env, w, env.convert(Comma.Erase(w)).value);
  }

  /** An emoji comes third: it replaces the trigger character and the word. */
  lemma EmojiOutcome(env: Env, view: string, w: string)
    requires EmojiOf(env, view, w) && !HasColor(env, view) && !HasUnit(env, view)
    ensures Evaluation(env, view) ==
            Some(ExpansionResult(1 + |w|, [TextStep(env.lookupEmoji(w).value)], w, Some([env.emojiTrigger] + w),
                                 false, Snippet, true, None))
  {
    ColorMeaning(env, view);
    UnitMeaning(env, view);
  }

  /** The dictionary comes fourth: a spinner replaces the match, and the word is
      looked up. */
  lemma DictionaryOutcome(env: Env, view: string)
    requires HasDictionary(env, view) && NoneBeforeDictionary(env, view)
    ensures var m := env.dictionary(view).value;
            Evaluation(env, view) ==
            Some(ExpansionResult(m.length, [TextStep(env.thinkingText)], m.word, None, false, Snippet, true,
                                 Some(DictionaryLookup(m.word, m.kind))))
  {
    ColorMeaning(env, view);
    UnitMeaning(env, view);
    EmojiMeaning(env, view);
  }

  /** The keyword is replaced by what the catalogue has for it: its own steps,
      undoable if they only type less than a mebibyte, or a spinner and a template
      for the AI transformer. */
  predicate Expands(env: Env, r: ExpansionResult, w: string, e: FinalExpansion) {
    && r.deleteCount == |w| && r.trigger == w && r.trackUsage
    && (e.aiTemplate.None? ==>
          && r.steps == e.steps && r.isCalculation == e.isCalculation && r.followUp.None?
          && r.undoTrigger == (if AllText(e.steps) && TextBytes(e.steps) < 1048576 then Some(w) else None)
          && r.statKind == (if e.isCalculation then Calculation
                            else if |e.steps| == 1 && e.steps[0].Script? then ScriptRun else Snippet))
    && (e.aiTemplate.Some? ==>
          && r.steps == [TextStep(env.spinnerText(e.aiTemplate.value))] && r.undoTrigger.None? && !r.isCalculation
          && r.statKind == InlineAi && r.followUp == Some(AiTransformer(e.aiTemplate.value)))
  }

  lemma KeywordExpands(env: Env, w: string, e: FinalExpansion)
    ensures Expands(env, KeywordResult(env, w, e), w, e)
  {
  }

  ghost predicate Longest(env: Env, view: string, n: nat) {
    Expandable(env, view, n) && forall k: nat :: Expandable(env, view, k) ==> k <= n
  }

  lemma LongestIsLast(env: Env, view: string, n: nat)
    requires Longest(env, view, n)
    ensures LastMatch(env, Candidates(env.table, view), CandidateCount(view)) == n > 0
  {
    var m := LastMatch(env, Candidates(env.table, view), CandidateCount(view));
    LongestExpandable(env, view, m);
  }

  lemma CandidateAt(t: Table, view: string, n: nat)
    requires 1 <= n <= CandidateCount(view)
    ensures Candidates(t, view)[n - 1].0 == Normal(t, LastN(view, n))
  {
    assert Candidates(t, view)[n - 1] == Candidate(t, view, n);
  }

  lemma LongestIsExpanded(env: Env, view: string, n: nat)
    requires Longest(env, view, n)
    ensures var w := Normal(env.table, LastN(view, n));
            && env.fetchExpansion(w).Some?
            && SuffixBranch(env, view) == Some(KeywordResult(env, w, env.fetchExpansion(w).value))
  {
    LongestIsLast(env, view, n);
    CandidateAt(env.table, view, n);
  }

  lemma LeftToKeyword(env: Env, view: string)
    requires NoneBeforeDictionary(env, view) && !HasDictionary(env, view) && SuffixBranch(env, view).Some?
    ensures Evaluation(env, view) == SuffixBranch(env, view)
  {
    ColorMeaning(env, view);
    UnitMeaning(env, view);
    EmojiMeaning(env, view);
  }

  /** A keyword comes fifth: the longest expandable suffix is expanded. */
  lemma KeywordOutcome(env: Env, view: string, n: nat)
    requires Longest(env, view, n) && NoneBeforeDictionary(env, view) && !HasDictionary(env, view)
    ensures var w := Normal(env.table, LastN(view, n));
            && Evaluation(env, view).Some? && env.fetchExpansion(w).Some?
            && Expands(env, Evaluation(env, view).value, w, env.fetchExpansion(w).value)
  {
    LongestIsExpanded(env, view, n);
    LeftToKeyword(env, view);
    var w := Normal(env.table, LastN(view, n));
    KeywordExpands(env, w, env.fetchExpansion(w).value);
  }

  ghost predicate NoneBeforeRegex(env: Env, view: string) {
    NoneBeforeDictionary(env, view) && !HasDictionary(env, view) && !HasKeyword(env, view)
  }

  /** A regex trigger comes sixth. */
  lemma RegexOutcome(env: Env, view: string)
    requires env.regexExpansion(view).Some? && NoneBeforeRegex(env, view)
    ensures Evaluation(env, view).Some?
    ensures var (w, e) := env.regexExpansion(view).value; Expands(env, Evaluation(env, view).value, w, e)
  {
    ColorMeaning(env, view);
    UnitMeaning(env, view);
    EmojiMeaning(env, view);
    KeywordMeaning(env, view);
    KeywordExpands(env, env.regexExpansion(view).value.0, env.regexExpansion(view).value.1);
  }

  lemma LeftToFallback(env: Env, view: string)
    requires NoneBeforeRegex(env, view) && env.regexExpansion(view).None?
    ensures Evaluation(env, view) == FallbackBranch(env, view)
  {
    ColorMeaning(env, view);
    UnitMeaning(env, view);
    EmojiMeaning(env, view);
    KeywordMeaning(env, view);
  }

  ghost predicate FallbackGives(env: Env, view: string, r: ExpansionResult, i: nat, k: nat) {
    var ws := Words(env.table, view);
    && Decides(Conversions(env), ws, i, k)
    && var w := WordCandidate(ws, k);
       Replaces(r, w, Conversions(env)[i].f(w).value, i < 4)
  }

  lemma ConvertedReplaces(c: Conversion, ws: seq<string>, k: nat)
    requires Accepts(c, ws, k)
    ensures var w := WordCandidate(ws, k); Replaces(Converted(c, ws, k), w, c.f(w).value, c.isCalculation)
  {
  }

  lemma EmojiIsNoCalculation(env: Env, i: nat)
    requires i < |Conversions(env)|
    ensures Conversions(env)[i].isCalculation <==> i < 4
  {
    assert i == 0 || i == 1 || i == 2 || i == 3 || i == 4;
  }

  lemma FallbackReplaces(env: Env, view: string) returns (i: nat, k: nat)
    requires HasFallback(env, view)
    ensures FallbackBranch(env, view).Some? && FallbackGives(env, view, FallbackBranch(env, view).value, i, k)
  {
    FallbackMeaning(env, view);
    var r := FallbackBranch(env, view).value;
    i, k := FallbackDeletesWithin(env, view, r);
    ConvertedReplaces(Conversions(env)[i], Words(env.table, view), k);
    EmojiIsNoCalculation(env, i);
  }

  /** A fallback comes last: the first conversion that accepts any of the last one
      to six words replaces the longest suffix it accepts by what it gives. */
  lemma FallbackOutcome(env: Env, view: string) returns (i: nat, k: nat)
    requires HasFallback(env, view) && NoneBeforeRegex(env, view) && env.regexExpansion(view).None?
    ensures Evaluation(env, view).Some? && FallbackGives(env, view, Evaluation(env, view).value, i, k)
  {
    LeftToFallback(env, view);
    i, k := FallbackReplaces(env, view);
  }

  /** There is no result exactly when there is nothing to expand. */
  lemma NothingOutcome(env: Env, view: string)
    ensures Evaluation(env, view).None? <==>
              NoneBeforeRegex(env, view) && env.regexExpansion(view).None? && !HasFallback(env, view)
  {
    ColorMeaning(env, view);
    UnitMeaning(env, view);
    EmojiMeaning(env, view);
    KeywordMeaning(env, view);
    FallbackMeaning(env, view);
  }
}
