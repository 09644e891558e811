/** From the tracked text to an expansion: core/src/engine/expansion.rs,
    core/src/engine/fallback.rs and the inline-AI trigger of
    core/src/engine/evaluator.rs, as functions of the text. Everything these
    files look up elsewhere is a field of `Env`. */
module Expansion {
  import opened Text
  import opened Types
  import opened QuoteScan
  import opened SuffixScan
  import opened WordSuffix
  import Comma
  import Undo

  datatype FinalExpansion = FinalExpansion(steps: seq<ExpansionStep>, isCalculation: bool, aiTemplate: Option<string>)

  datatype DictionaryMatch = DictionaryMatch(length: nat, word: string, kind: nat)

  datatype Env = Env(
    table: CharTable,
    fullscreenSuppressed: bool,
    instantExpand: bool,
    tabCompletion: bool,
    aiEnabled: bool,
    datetimeEnabled: bool,
    emojiEnabled: bool,
    emojiTrigger: char,
    wordTriggers: string -> seq<string>,
    shortcodes: string -> seq<string>,
    lookupEmoji: string -> Option<string>,
    convertColor: string -> Option<string>,
    isConversion: string -> bool,
    convert: string -> Option<string>,
    indianGrouping: (string, string) -> bool,
    dictionary: string -> Option<DictionaryMatch>,
    fetchExpansion: string -> Option<FinalExpansion>,
    regexExpansion: string -> Option<(string, FinalExpansion)>,
    convertNatural: string -> Option<string>,
    timezone: string -> Option<string>,
    date: string -> Option<string>,
    naturalEmoji: string -> Option<string>,
    resolvePrompt: (string, Option<string>) -> string,
    thinkingText: string,
    spinnerText: string -> string)

  function StatKindForSteps(isCalculation: bool, steps: seq<ExpansionStep>): StatKind {
    if isCalculation then Calculation
    else if |steps| == 1 && steps[0].Script? then ScriptRun
    else Snippet
  }

  /** Replacing a text that is its own trigger and undo trigger. */
  function Replacing(word: string, output: string, isCalculation: bool): ExpansionResult {
    ExpansionResult(|word|, [TextStep(output)], word, Some(word), isCalculation,
                    if isCalculation then Calculation else Snippet, true, None)
  }

  function FormatConversion(env: Env, word: string, result: string): string {
    var (cleaned, intervals) := Comma.Preprocessed(word);
    if env.indianGrouping(cleaned, result) then Comma.Formatted(result, [3, 2])
    else if intervals.Some? then Comma.Formatted(result, intervals.value)
    else result
  }

  function ColorBranch(env: Env, view: string): Option<ExpansionResult> {
    var word := TailWord(env.table, view);
    if env.instantExpand || word.None? || env.convertColor(word.value).None? then None
    else Some(Replacing(word.value, env.convertColor(word.value).value, true))
  }

  function UnitBranch(env: Env, view: string): Option<ExpansionResult> {
    var word := TailWord(env.table, view);
    if env.instantExpand || word.None? then None
    else
      var cleaned := Comma.Preprocessed(word.value).0;
      if !env.isConversion(cleaned) || env.convert(cleaned).None? then None
      else Some(Replacing(word.value, FormatConversion(env, word.value, env.convert(cleaned).value), true))
  }

  ghost function EmojiBranch(env: Env, view: string): Option<ExpansionResult> {
    var word := TriggerWord(env.table, view, env.emojiTrigger);
    if env.instantExpand || !env.emojiEnabled || word.None? || env.lookupEmoji(word.value).None? then None
    else Some(ExpansionResult(1 + |word.value|, [TextStep(env.lookupEmoji(word.value).value)], word.value,
                              Some([env.emojiTrigger] + word.value), false, Snippet, true, None))
  }

  function DictionaryBranch(env: Env, view: string): Option<ExpansionResult> {
    if env.instantExpand || env.dictionary(view).None? then None
    else
      var m := env.dictionary(view).value;
      Some(ExpansionResult(m.length, [TextStep(env.thinkingText)], m.word, None, false, Snippet, true,
                           Some(DictionaryLookup(m.word, m.kind))))
  }

  /** The result for a keyword that has an expansion. */
  function KeywordResult(env: Env, word: string, e: FinalExpansion): ExpansionResult {
    match e.aiTemplate
    case Some(template) =>
      ExpansionResult(|word|, [TextStep(env.spinnerText(template))], word, None, false, InlineAi, true,
                      Some(AiTransformer(template)))
    case None =>
      ExpansionResult(|word|, e.steps, word, Undo.UndoTriggerFor(word, e.steps), e.isCalculation,
                      StatKindForSteps(e.isCalculation, e.steps), true, None)
  }

  predicate Boundary(t: Table, prev: Option<char>) {
    prev.None? || !t.alnum(prev.value)
  }

  /** A candidate that the suffix loop would expand. */
  predicate Matches(env: Env, c: (string, Option<char>)) {
    Boundary(env.table, c.1) && env.fetchExpansion(c.0).Some?
  }

  /** The number of the last matching one of the first i candidates, or 0: the
      loop runs from the longest down. */
  function LastMatch(env: Env, cs: seq<(string, Option<char>)>, i: nat): (n: nat)
    requires i <= |cs|
    ensures n <= i && (n > 0 ==> Matches(env, cs[n - 1]))
  {
    if i == 0 || Matches(env, cs[i - 1]) then i else LastMatch(env, cs, i - 1)
  }

  function SuffixResult(env: Env, cs: seq<(string, Option<char>)>): Option<ExpansionResult> {
    var n := LastMatch(env, cs, |cs|);
    if n == 0 then None
    else Some(KeywordResult(env, cs[n - 1].0, env.fetchExpansion(cs[n - 1].0).value))
  }

  function SuffixBranch(env: Env, view: string): Option<ExpansionResult> {
    SuffixResult(env, Candidates(env.table, view))
  }

  function RegexBranch(env: Env, view: string): Option<ExpansionResult> {
    match env.regexExpansion(view)
    case None => None
    case Some(m) => Some(KeywordResult(env, m.0, m.1))
  }

  /** The first candidate, from the i-th on, that a conversion accepts. */
  function FirstAccepted(f: string -> Option<string>, cs: seq<string>, i: nat): (j: nat)
    requires i <= |cs|
    ensures i <= j <= |cs| && (j < |cs| ==> f(cs[j]).Some?)
    ensures forall k :: i <= k < j ==> f(cs[k]).None?
    decreases |cs| - i
  {
    if i == |cs| || f(cs[i]).Some? then i else FirstAccepted(f, cs, i + 1)
  }

  function FirstHit(f: string -> Option<string>, cs: seq<string>, isCalculation: bool): Option<ExpansionResult> {
    var j := FirstAccepted(f, cs, 0);
    if j == |cs| then None else Some(Replacing(cs[j], f(cs[j]).value, isCalculation))
  }

  function OrElse<T>(a: Option<T>, b: Option<T>): Option<T> {
    if a.Some? then a else b
  }

  /** `check_all_inline_fallbacks`: one conversion after the other, each on all
      candidates. */
  function FallbackSearch(env: Env, view: string): Option<ExpansionResult> {
    var cs := WordCandidates(Words(env.table, view));
    OrElse(FirstHit(env.convertNatural, cs, true),
    OrElse(if env.datetimeEnabled then FirstHit(env.timezone, cs, true) else None,
    OrElse(if env.datetimeEnabled then FirstHit(env.date, cs, true) else None,
    OrElse(FirstHit(env.convertColor, cs, true),
           if env.emojiEnabled then FirstHit(env.naturalEmoji, cs, false) else None))))
  }

  function FallbackBranch(env: Env, view: string): Option<ExpansionResult> {
    if env.instantExpand then None else FallbackSearch(env, view)
  }

  /** The whole decision, in the order of the source. */
  ghost function Evaluation(env: Env, view: string): Option<ExpansionResult> {
    OrElse(ColorBranch(env, view),
    OrElse(UnitBranch(env, view),
    OrElse(EmojiBranch(env, view),
    OrElse(DictionaryBranch(env, view),
    OrElse(SuffixBranch(env, view),
    OrElse(RegexBranch(env, view),
           FallbackBranch(env, view)))))))
  }

  // --------------------------------------------------------------- tau,

  function LineStart(s: string, p: nat): (k: nat)
    requires p <= |s|
    ensures k <= p
    ensures forall i :: k <= i < p ==> s[i] != '\n'
    ensures k > 0 ==> s[k - 1] == '\n'
  {
    if p == 0 || s[p - 1] == '\n' then p else LineStart(s, p - 1)
  }

  /** The text after the last line break. */
  function LastLine(s: string): string {
    s[LineStart(s, |s|)..]
  }

  /** `tau,` in any case, at a word boundary, with a prompt after it. */
  predicate TauAt(t: Table, line: string, i: nat) {
    && i + 4 <= |line|
    && (i == 0 || t.space(line[i - 1]))
    && (line[i] == 't' || line[i] == 'T')
    && (line[i + 1] == 'a' || line[i + 1] == 'A')
    && (line[i + 2] == 'u' || line[i + 2] == 'U')
    && line[i + 3] == ','
    && !Blank(t, line[i + 4..])
  }

  /** The leftmost match of the inline-AI pattern. */
  function FindTau(t: Table, line: string, i: nat): (r: Option<nat>)
    requires i <= |line|
    ensures r.Some? ==> r.value >= i && TauAt(t, line, r.value)
    ensures forall j :: i <= j < (if r.Some? then r.value else |line|) ==> !TauAt(t, line, j)
    decreases |line| - i
  {
    if i == |line| then None
    else if TauAt(t, line, i) then Some(i)
    else FindTau(t, line, i + 1)
  }

  /** Where the inline-AI span begins in the text, if there is one. */
  function TauStart(t: Table, view: string): (r: Option<nat>)
    ensures r.Some? ==> r.value + 4 <= |view|
  {
    var k := LineStart(view, |view|);
    match FindTau(t, LastLine(view), 0)
    case None => None
    case Some(i) => Some(k + i)
  }

  /** The inline-AI result for a text with a span; none if the prompt resolves
      to nothing. */
  function AiResult(env: Env, view: string, captured: Option<string>): Option<ExpansionResult>
    requires TauStart(env.table, view).Some?
  {
    var p := TauStart(env.table, view).value;
    var prompt := env.resolvePrompt(Trim(env.table, view[p + 4..]), captured);
    if prompt == [] then None
    else Some(ExpansionResult(|view| - p, [TextStep(env.thinkingText)], "tau,", None, false, InlineAi, false,
                              Some(InlineAiPrompt(prompt))))
  }
}
