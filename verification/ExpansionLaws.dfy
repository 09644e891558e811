/** What an expansion result says about the text it was made from. */
module ExpansionLaws {
  import opened Text
  import opened Types
  import opened QuoteScan
  import opened SuffixScan
  import opened WordSuffix
  import opened Expansion
  import Undo

  /** The result deletes exactly `deleted`, which the text ends with, and undo
      would type it again. */
  predicate DeletesLiterally(r: ExpansionResult, view: string, deleted: string) {
    r.deleteCount == |deleted| && EndsWith(view, deleted) && r.undoTrigger == Some(deleted)
  }

  /** Colours and units replace the tail word. */
  lemma TailResultsAreExact(env: Env, view: string)
    ensures ColorBranch(env, view).Some? ==>
              DeletesLiterally(ColorBranch(env, view).value, view, TailWord(env.table, view).value)
    ensures UnitBranch(env, view).Some? ==>
              DeletesLiterally(UnitBranch(env, view).value, view, TailWord(env.table, view).value)
  {
    TailWordEnds(env.table, view);
  }

  /** Emoji replace the trigger character and the word after it. */
  lemma EmojiResultsAreExact(env: Env, view: string)
    requires EmojiBranch(env, view).Some?
    ensures DeletesLiterally(EmojiBranch(env, view).value, view,
                             [env.emojiTrigger] + TriggerWord(env.table, view, env.emojiTrigger).value)
  {
  }

  /** The n-character candidate starts at a word boundary (or is the longest
      one) and has an expansion. */
  predicate Expandable(env: Env, view: string, n: nat) {
    1 <= n <= CandidateCount(view) && Matches(env, Candidate(env.table, view, n))
  }

  lemma {:induction false} LastMatchIsLast(env: Env, cs: seq<(string, Option<char>)>, i: nat)
    requires i <= |cs|
    ensures forall j :: LastMatch(env, cs, i) <= j < i ==> !Matches(env, cs[j])
  {
    if i > 0 && !Matches(env, cs[i - 1]) {
      LastMatchIsLast(env, cs, i - 1);
    }
  }

  lemma LongestExpandable(env: Env, view: string, n: nat)
    requires var cs := Candidates(env.table, view); n == LastMatch(env, cs, |cs|)
    ensures n > 0 ==> Expandable(env, view, n)
    ensures forall k: nat :: Expandable(env, view, k) ==> k <= n
  {
    var cs := Candidates(env.table, view);
    LastMatchIsLast(env, cs, |cs|);
    forall k: nat | n < k <= |cs|
      ensures !Expandable(env, view, k)
    {
      assert cs[k - 1] == Candidate(env.table, view, k);
    }
    assert n > 0 ==> cs[n - 1] == Candidate(env.table, view, n);
  }

  lemma KeywordFacts(env: Env, word: string, e: FinalExpansion)
    ensures var r := KeywordResult(env, word, e);
            && r.trigger == word && r.deleteCount == |word|
            && (r.undoTrigger.Some? ==> r.undoTrigger == Some(word) && Undo.BlindUndo(r.steps) && r.followUp.None?)
  {
  }

  /** The suffix branch expands the longest expandable suffix and finds nothing
      exactly when no suffix is expandable. */
  lemma SuffixResultIsLongest(env: Env, view: string) returns (n: nat)
    ensures n <= CandidateCount(view) && (n > 0 ==> Expandable(env, view, n))
    ensures forall k: nat :: Expandable(env, view, k) ==> k <= n
    ensures SuffixBranch(env, view).None? <==> n == 0
    ensures SuffixBranch(env, view).Some? ==> IsSuffixResult(env, view, SuffixBranch(env, view).value, n)
  {
    var cs := Candidates(env.table, view);
    n := LastMatch(env, cs, |cs|);
    LongestExpandable(env, view, n);
    if n > 0 {
      assert cs[n - 1] == Candidate(env.table, view, n);
      KeywordFacts(env, cs[n - 1].0, env.fetchExpansion(cs[n - 1].0).value);
    }
  }

  /** The result deletes the last n characters; what it would retype is them with
      their whitespace turned into spaces. */
  predicate IsSuffixResult(env: Env, view: string, r: ExpansionResult, n: nat) {
    && r.deleteCount == n <= |view|
    && r.trigger == Normal(env.table, LastN(view, n))
    && (r.undoTrigger.Some? ==> r.undoTrigger == Some(r.trigger) && Undo.BlindUndo(r.steps) && r.followUp.None?)
  }

  /** A letter or digit stands just before the last n characters. */
  predicate InsideWord(t: Table, view: string, n: nat) {
    n < |view| && t.alnum(Plain(t, view[|view| - n - 1]))
  }

  /** A keyword result is cut out of the middle of a word exactly when the text
      goes on before its last 30 characters with a letter or digit, and these 30
      characters have an expansion. */
  lemma BoundaryFailsExactly(env: Env, view: string, n: nat)
    requires SuffixBranch(env, view).Some? && n == SuffixBranch(env, view).value.deleteCount
    ensures InsideWord(env.table, view, n) <==>
              && InsideWord(env.table, view, MAX_CANDIDATE)
              && env.fetchExpansion(Normal(env.table, LastN(view, MAX_CANDIDATE))).Some?
  {
    var k := SuffixResultIsLongest(env, view);
    assert n == k;
    if InsideWord(env.table, view, MAX_CANDIDATE)
       && env.fetchExpansion(Normal(env.table, LastN(view, MAX_CANDIDATE))).Some? {
      assert Expandable(env, view, MAX_CANDIDATE);
    }
  }

  /** So a keyword of 30 letters is expanded even inside a longer word. */
  lemma ThirtyLettersInsideWord(env: Env, view: string)
    requires view == seq(31, _ => 'a') && env.table.alnum('a') && !env.table.space('a')
    requires env.fetchExpansion(seq(30, _ => 'a')).Some?
    ensures SuffixBranch(env, view).Some?
    ensures SuffixBranch(env, view).value.deleteCount == 30 && InsideWord(env.table, view, 30)
  {
    assert Normal(env.table, LastN(view, 30)) == seq(30, _ => 'a');
    assert Expandable(env, view, 30);
    var n := SuffixResultIsLongest(env, view);
  }

  /** The suffix is its own normal form exactly when its only whitespace is the
      space: exactly then is undoing a suffix expansion literal. */
  lemma NormalIsLiteral(env: Env, view: string, n: nat)
    requires n <= |view|
    ensures EndsWith(view, Normal(env.table, LastN(view, n)))
       <==> (forall i :: |view| - n <= i < |view| ==> env.table.space(view[i]) ==> view[i] == ' ')
  {
    var w := LastN(view, n);
    var k := |view| - n;
    assert view[k..] == w;
    if w == Normal(env.table, w) {
      forall i | k <= i < |view| && env.table.space(view[i])
        ensures view[i] == ' '
      {
        assert w[i - k] == view[i];
      }
    } else {
      var j :| 0 <= j < n && w[j] != Normal(env.table, w)[j];
      assert w[j] == view[k + j];
    }
  }

  /** The result replaces the last k words, joined by single spaces. */
  predicate IsWordSuffix(env: Env, view: string, r: ExpansionResult, k: nat) {
    && 1 <= k <= |Words(env.table, view)| && k <= MAX_WORDS
    && r.trigger == WordCandidate(Words(env.table, view), k)
    && r.deleteCount == |r.trigger| && r.undoTrigger == Some(r.trigger) && r.followUp.None?
  }

  /** A conversion of the fallback: whether it is switched on, and whether its
      results count as calculations. */
  datatype Conversion = Conversion(f: string -> Option<string>, enabled: bool, isCalculation: bool)

  function Conversions(env: Env): seq<Conversion> {
    [Conversion(env.convertNatural, true, true),
     Conversion(env.timezone, env.datetimeEnabled, true),
     Conversion(env.date, env.datetimeEnabled, true),
     Conversion(env.convertColor, true, true),
     Conversion(env.naturalEmoji, env.emojiEnabled, false)]
  }

  predicate Accepts(c: Conversion, ws: seq<string>, k: nat) {
    1 <= k <= CandidateWords(ws) && c.enabled && c.f(WordCandidate(ws, k)).Some?
  }

  ghost predicate AcceptsNone(c: Conversion, ws: seq<string>) {
    forall k: nat :: !Accepts(c, ws, k)
  }

  /** The conversion accepts the last k words and no more words than these. */
  ghost predicate AcceptsLongest(c: Conversion, ws: seq<string>, k: nat) {
    Accepts(c, ws, k) && forall j: nat :: Accepts(c, ws, j) ==> j <= k
  }

  function Converted(c: Conversion, ws: seq<string>, k: nat): ExpansionResult
    requires Accepts(c, ws, k)
  {
    var word := WordCandidate(ws, k);
    ExpansionResult(|word|, [TextStep(c.f(word).value)], word, Some(word), c.isCalculation,
                    if c.isCalculation then Calculation else Snippet, true, None)
  }

  function Hit(c: Conversion, ws: seq<string>): Option<ExpansionResult> {
    if c.enabled then FirstHit(c.f, WordCandidates(ws), c.isCalculation) else None
  }

  /** A conversion replaces the longest word suffix that it accepts, if any. */
  lemma HitIsLongest(c: Conversion, ws: seq<string>) returns (k: nat)
    ensures Hit(c, ws).None? ==> AcceptsNone(c, ws)
    ensures Hit(c, ws).Some? ==> AcceptsLongest(c, ws, k) && Hit(c, ws) == Some(Converted(c, ws, k))
  {
    k := |WordCandidates(ws)| - FirstAccepted(c.f, WordCandidates(ws), 0);
    forall j: nat | k < j
      ensures !Accepts(c, ws, j)
    {
      NotBeforeFirst(c, ws, j);
    }
    HitValue(c, ws, k);
  }

  lemma HitValue(c: Conversion, ws: seq<string>, k: nat)
    requires k == |WordCandidates(ws)| - FirstAccepted(c.f, WordCandidates(ws), 0)
    ensures Hit(c, ws).Some? <==> k > 0 && c.enabled
    ensures Hit(c, ws).Some? ==> Accepts(c, ws, k) && Hit(c, ws) == Some(Converted(c, ws, k))
  {
    var cs := WordCandidates(ws);
    if k > 0 {
      assert cs[|cs| - k] == WordCandidate(ws, k);
    }
  }

  lemma NotBeforeFirst(c: Conversion, ws: seq<string>, j: nat)
    requires |WordCandidates(ws)| - FirstAccepted(c.f, WordCandidates(ws), 0) < j
    ensures !Accepts(c, ws, j)
  {
    var cs := WordCandidates(ws);
    if j <= |cs| {
      assert cs[|cs| - j] == WordCandidate(ws, j);
    }
  }

  /** The i-th conversion decides with k words: none before it accepts any. */
  ghost predicate Decides(cs: seq<Conversion>, ws: seq<string>, i: nat, k: nat) {
    i < |cs| && AcceptsLongest(cs[i], ws, k) && forall j :: 0 <= j < i ==> AcceptsNone(cs[j], ws)
  }

  /** The result of the first conversion, from the i-th on, that has one. */
  function FirstOf(cs: seq<Conversion>, ws: seq<string>, i: nat): Option<ExpansionResult>
    requires i <= |cs|
    decreases |cs| - i
  {
    if i == |cs| then None else OrElse(Hit(cs[i], ws), FirstOf(cs, ws, i + 1))
  }

  lemma SearchIsFirst(env: Env, view: string)
    ensures FallbackSearch(env, view) == FirstOf(Conversions(env), Words(env.table, view), 0)
  {
    var ws, cs := Words(env.table, view), Conversions(env);
    assert FirstOf(cs, ws, 4) == OrElse(Hit(cs[4], ws), None);
    assert FirstOf(cs, ws, 2) == OrElse(Hit(cs[2], ws), OrElse(Hit(cs[3], ws), FirstOf(cs, ws, 4)));
    assert FirstOf(cs, ws, 0) == OrElse(Hit(cs[0], ws), OrElse(Hit(cs[1], ws), FirstOf(cs, ws, 2)));
  }

  lemma {:induction false} FirstDecides(cs: seq<Conversion>, ws: seq<string>, h: nat) returns (i: nat, k: nat)
    requires h <= |cs| && forall j :: 0 <= j < h ==> AcceptsNone(cs[j], ws)
    ensures match FirstOf(cs, ws, h)
            case None => forall j :: 0 <= j < |cs| ==> AcceptsNone(cs[j], ws)
            case Some(r) => Decides(cs, ws, i, k) && r == Converted(cs[i], ws, k)
    decreases |cs| - h
  {
    i, k := h, 0;
    if h < |cs| {
      k := HitIsLongest(cs[h], ws);
      if Hit(cs[h], ws).None? {
        i, k := FirstDecides(cs, ws, h + 1);
      }
    }
  }

  /** The search returns the first conversion's longest replacement, and nothing
      exactly when no conversion accepts any of the last one to six words. */
  lemma FallbackIsFirstLongest(env: Env, view: string) returns (i: nat, k: nat)
    ensures var cs, ws := Conversions(env), Words(env.table, view);
            match FallbackSearch(env, view)
            case None => forall j :: 0 <= j < |cs| ==> AcceptsNone(cs[j], ws)
            case Some(r) => Decides(cs, ws, i, k) && r == Converted(cs[i], ws, k)
  {
    SearchIsFirst(env, view);
    i, k := FirstDecides(Conversions(env), Words(env.table, view), 0);
  }

  /** A fallback replaces the longest suffix of one to six words that the first
      accepting conversion accepts, and deletes no more than it takes up. */
  lemma FallbackDeletesWithin(env: Env, view: string, r: ExpansionResult) returns (i: nat, k: nat)
    requires FallbackBranch(env, view) == Some(r)
    ensures var ws := Words(env.table, view);
            Decides(Conversions(env), ws, i, k) && r == Converted(Conversions(env)[i], ws, k)
    ensures IsWordSuffix(env, view, r, k) && 0 < r.deleteCount <= |view| - WordStart(env.table, view, k)
  {
    i, k := FallbackIsFirstLongest(env, view);
    FallbackNeverOverDeletes(env.table, view, k);
    CandidateNotEmpty(env.table, view, k);
  }

  function AsciiLower(c: char): char {
    if 'A' <= c <= 'Z' then (c as int + 32) as char else c
  }

  /** The pattern: `tau,` in any case after whitespace or at the start, with
      something other than whitespace somewhere after it. */
  lemma TauMeaning(t: Table, line: string, i: nat)
    ensures TauAt(t, line, i) <==>
              && i + 4 <= |line| && (i == 0 || t.space(line[i - 1]))
              && AsciiLower(line[i]) == 't' && AsciiLower(line[i + 1]) == 'a' && AsciiLower(line[i + 2]) == 'u'
              && line[i + 3] == ',' && exists j :: i + 4 <= j < |line| && !t.space(line[j])
  {
    if i + 4 <= |line| {
      assert forall j :: i + 4 <= j < |line| ==> line[j] == line[i + 4..][j - i - 4];
    }
  }

  /** Inline AI deletes the leftmost `tau,` with a prompt on the last line, and
      everything after it. */
  lemma AiDeletesTheSpan(env: Env, view: string, captured: Option<string>)
    requires TauStart(env.table, view).Some? && AiResult(env, view, captured).Some?
    ensures var r := AiResult(env, view, captured).value;
            var line := LastLine(view);
            && r.deleteCount <= |line| <= |view| && EndsWith(view, line) && '\n' !in line
            && TauAt(env.table, line, |line| - r.deleteCount)
            && (forall j :: 0 <= j < |line| - r.deleteCount ==> !TauAt(env.table, line, j))
            && r.undoTrigger == None
  {
  }

  /** The deciding branch takes its deletion from the text: a colour, unit or
      emoji, or else a keyword or fallback. */
  ghost predicate DeletesFromText(env: Env, view: string) {
    || ColorBranch(env, view).Some? || UnitBranch(env, view).Some? || EmojiBranch(env, view).Some?
    || (DictionaryBranch(env, view).None? && (SuffixBranch(env, view).Some? || RegexBranch(env, view).None?))
  }

  /** A text to retype is as long as what is deleted, and the result stands alone;
      `fromText`: it deletes something, and no more than the text holds. */
  predicate Accounts(r: ExpansionResult, view: string, fromText: bool) {
    && (r.undoTrigger.Some? ==> |r.undoTrigger.value| == r.deleteCount && r.followUp.None?)
    && (fromText ==> 0 < r.deleteCount <= |view|)
  }

  lemma TailAccounts(env: Env, view: string)
    ensures ColorBranch(env, view).Some? ==> Accounts(ColorBranch(env, view).value, view, true)
    ensures UnitBranch(env, view).Some? ==> Accounts(UnitBranch(env, view).value, view, true)
  {
    TailWordEnds(env.table, view);
    TailResultsAreExact(env, view);
  }

  lemma EmojiAccounts(env: Env, view: string)
    ensures EmojiBranch(env, view).Some? ==> Accounts(EmojiBranch(env, view).value, view, true)
  {
    if EmojiBranch(env, view).Some? {
      EmojiResultsAreExact(env, view);
    }
  }

  lemma KeywordAccounts(env: Env, view: string)
    ensures SuffixBranch(env, view).Some? ==> Accounts(SuffixBranch(env, view).value, view, true)
    ensures RegexBranch(env, view).Some? ==> Accounts(RegexBranch(env, view).value, view, false)
  {
    var n := SuffixResultIsLongest(env, view);
  }

  lemma FallbackAccounts(env: Env, view: string)
    ensures FallbackBranch(env, view).Some? ==> Accounts(FallbackBranch(env, view).value, view, true)
  {
    if FallbackBranch(env, view).Some? {
      var i, k := FallbackDeletesWithin(env, view, FallbackBranch(env, view).value);
    }
  }

  /** Whatever branch decides accounts for what it deletes, out of the text unless
      that branch is the dictionary or a regex trigger. */
  lemma DeletionIsExact(env: Env, view: string)
    requires Evaluation(env, view).Some?
    ensures Accounts(Evaluation(env, view).value, view, DeletesFromText(env, view))
  {
    TailAccounts(env, view);
    EmojiAccounts(env, view);
    KeywordAccounts(env, view);
    FallbackAccounts(env, view);
  }
}
