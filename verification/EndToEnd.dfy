/** From the tracked text to the document and back: which expansions does undo
    take back exactly? */
module EndToEnd {
  import opened Text
  import opened Types
  import opened SuffixScan
  import opened WordSuffix
  import opened CaseCycle
  import opened Expansion
  import opened ExpansionLaws
  import opened Undo

  /** The conditions under which an expansion is offered for undo and the undo
      arrives in time. */
  predicate Undoable(e: ExpansionResult, injectedAt: nat, now: nat) {
    e.undoTrigger.Some? && StepsText(e.steps) != [] && Elapsed(injectedAt, now) < UNDO_WINDOW
  }

  /** Colours, units and emoji: the document comes back, whatever case the
      output was cycled to in between. */
  lemma LiteralExpansionsUndo(ct: CaseTable, m: Model, env: Env, doc: string, view: string, e: ExpansionResult,
                              armedAt: nat, injectedAt: nat, ps: seq<Press>, now: nat)
    requires EndsWith(doc, view) && Undoable(e, injectedAt, now)
    requires ColorBranch(env, view) == Some(e) || UnitBranch(env, view) == Some(e) || EmojiBranch(env, view) == Some(e)
    ensures RoundTrip(ct, m, doc, e, armedAt, injectedAt, ps, now) == doc
  {
    TailWordEnds(env.table, view);
    TailResultsAreExact(env, view);
    if EmojiBranch(env, view) == Some(e) {
      EmojiResultsAreExact(env, view);
    }
    EndsWithTransitive(doc, view, e.undoTrigger.value);
    UndoRestores(ct, m, doc, e, armedAt, injectedAt, ps, now);
  }

  /** Keyword expansions: the document comes back exactly when the keyword was
      typed without tabs, line breaks or other whitespace than spaces. */
  lemma SuffixExpansionsUndo(ct: CaseTable, m: Model, env: Env, doc: string, view: string, e: ExpansionResult,
                             armedAt: nat, injectedAt: nat, ps: seq<Press>, now: nat)
    requires EndsWith(doc, view) && SuffixBranch(env, view) == Some(e) && Undoable(e, injectedAt, now)
    ensures RoundTrip(ct, m, doc, e, armedAt, injectedAt, ps, now) == doc <==>
              forall i :: 0 <= i < |view| && |view| - e.deleteCount <= i && env.table.space(view[i]) ==> view[i] == ' '
  {
    var n := SuffixResultIsLongest(env, view);
    NormalIsLiteral(env, view, e.deleteCount);
    SuffixOfBoth(doc, view, e.trigger);
    UndoRestores(ct, m, doc, e, armedAt, injectedAt, ps, now);
  }

  /** Fallbacks: the document comes back exactly when every gap between the k
      words that were replaced is one space and nothing trails them. */
  lemma FallbackExpansionsUndo(ct: CaseTable, m: Model, env: Env, doc: string, view: string, e: ExpansionResult,
                               armedAt: nat, injectedAt: nat, ps: seq<Press>, now: nat) returns (k: nat)
    requires EndsWith(doc, view) && FallbackBranch(env, view) == Some(e) && Undoable(e, injectedAt, now)
    ensures IsWordSuffix(env, view, e, k)
    ensures RoundTrip(ct, m, doc, e, armedAt, injectedAt, ps, now) == doc <==>
              OneSpaced(env.table, view, WordStart(env.table, view, k))
  {
    var i;
    i, k := FallbackDeletesWithin(env, view, e);
    JoinedIsLiteral(env.table, view, k);
    SuffixOfBoth(doc, view, e.trigger);
    UndoRestores(ct, m, doc, e, armedAt, injectedAt, ps, now);
  }

  /** A keyword "a b" typed with a tab: undo retypes it with a space. */
  lemma TabbedKeywordIsNotRestored(ct: CaseTable, m: Model, env: Env, armedAt: nat, injectedAt: nat,
                                   ps: seq<Press>, now: nat)
    requires env.table.space('\t') && !env.table.space('a') && !env.table.space('b')
    requires env.fetchExpansion("a b") == Some(FinalExpansion([TextStep("x")], false, None))
    requires Elapsed(injectedAt, now) < UNDO_WINDOW
    ensures var view := "a\tb";
            && SuffixBranch(env, view).Some? && Undoable(SuffixBranch(env, view).value, injectedAt, now)
            && RoundTrip(ct, m, view, SuffixBranch(env, view).value, armedAt, injectedAt, ps, now) == "a b"
  {
    var view := "a\tb";
    assert Normal(env.table, LastN(view, 3)) == "a b";
    assert Expandable(env, view, 3);
    var n := SuffixResultIsLongest(env, view);
    assert Candidates(env.table, view)[2] == Candidate(env.table, view, 3);
    var e := SuffixBranch(env, view).value;
    OneTextStep("x");
    assert e == KeywordResult(env, "a b", FinalExpansion([TextStep("x")], false, None));
    ExpandCycleUndo(ct, m, view, e, armedAt, injectedAt, ps, now);
    assert Chop(view, 3) + "a b" == "a b";
  }

  lemma OneTextStep(text: string)
    requires |text| == 1
    ensures StepsText([TextStep(text)]) == text && Undo.BlindUndo([TextStep(text)])
  {
    assert [TextStep(text)][1..] == [] && text[1..] == [];
    assert Bytes(text) == CharBytes(text[0]);
    assert TextBytes([TextStep(text)]) == Bytes(text);
  }

  /** Two words with two spaces between them: only three of the four characters
      are deleted, and undo leaves an extra one. */
  lemma DoubleSpaceIsNotRestored(ct: CaseTable, m: Model, env: Env, armedAt: nat, injectedAt: nat,
                                 ps: seq<Press>, now: nat)
    requires !env.table.space('a') && !env.table.space('b')
    requires env.convertNatural("a b") == Some("x")
    requires Elapsed(injectedAt, now) < UNDO_WINDOW
    ensures var view := "a  b";
            && FallbackSearch(env, view).Some? && Undoable(FallbackSearch(env, view).value, injectedAt, now)
            && RoundTrip(ct, m, view, FallbackSearch(env, view).value, armedAt, injectedAt, ps, now) == "aa b"
  {
    var view := "a  b";
    TwoWords(env.table);
    var ws := Words(env.table, view);
    assert LastWords(ws, 2) == ["a", "b"];
    JoinTwo();
    var cs := WordCandidates(ws);
    assert cs[0] == WordCandidate(ws, 2) == "a b";
    var e := Replacing("a b", "x", true);
    assert FirstAccepted(env.convertNatural, cs, 0) == 0;
    assert FallbackSearch(env, view) == Some(e);
    OneTextStep("x");
    ExpandCycleUndo(ct, m, view, e, armedAt, injectedAt, ps, now);
    assert Chop(view, 3) + "a b" == "aa b";
  }

  lemma JoinTwo()
    ensures JoinWords(["a", "b"]) == "a b"
  {
    assert ["a", "b"][..1] == ["a"];
    assert "a" + [' '] + "b" == "a b";
  }

  lemma TwoWords(t: CharTable)
    requires !t.space('a') && !t.space('b')
    ensures Words(t, "a  b") == ["a", "b"]
  {
    var s := "a  b";
    assert TailFrom(t, s, 4) == 3 && s[..3] == "a  " && s[3..] == "b";
    assert Init("a  ") == "a " && Init("a ") == "a";
    assert TrimEnd(t, "a") == TrimEnd(t, "a ") == TrimEnd(t, "a  ") == "a";
    assert TailFrom(t, "a", 1) == 0;
    assert "a"[..0] == [] && "a"[0..] == "a";
    assert Words(t, []) == [];
    assert Words(t, "a  ") == ["a"];
  }

  /** Whatever branch decides: if an undo is offered, and not for an empty regex
      keyword, the document comes back exactly when it ends with what the undo
      retypes. Unless a regex trigger decided, that is when the tracked text does. */
  lemma ExpansionsUndo(ct: CaseTable, m: Model, env: Env, doc: string, view: string, e: ExpansionResult,
                       armedAt: nat, injectedAt: nat, ps: seq<Press>, now: nat)
    requires EndsWith(doc, view) && Evaluation(env, view) == Some(e) && Undoable(e, injectedAt, now)
    requires DeletesFromText(env, view) || e.undoTrigger.value != []
    ensures RoundTrip(ct, m, doc, e, armedAt, injectedAt, ps, now) == doc <==> EndsWith(doc, e.undoTrigger.value)
    ensures DeletesFromText(env, view) ==> (EndsWith(doc, e.undoTrigger.value) <==> EndsWith(view, e.undoTrigger.value))
  {
    DeletionIsExact(env, view);
    UndoRestores(ct, m, doc, e, armedAt, injectedAt, ps, now);
    if DeletesFromText(env, view) {
      SuffixOfBoth(doc, view, e.undoTrigger.value);
    }
  }
}
