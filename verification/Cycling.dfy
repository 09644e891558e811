/** Tab and Shift-Tab on a selected word completion turn the document around a
    ring: they replace one suggestion by the next and nothing else. */
module Cycling {
  import opened Text
  import opened Types
  import opened RingBuffer
  import opened Expansion
  import opened Completion

  /** Suggestions that are not empty and do not end in whitespace. */
  predicate TidyList(t: Table, ss: seq<string>) {
    ss != [] && forall i :: 0 <= i < |ss| ==> ss[i] != [] && !t.space(Last(ss[i]))
  }

  /** The i-th suggestion of the query q is selected and shown in word mode. */
  predicate Selected(env: Env, s: State, q: string, i: nat) {
    var ss := env.wordTriggers(q);
    && env.tabCompletion && TidyList(env.table, ss) && i < |ss|
    && s.c == Fields(true, false, q, ss[i], ss, Some(i), Some(CompletionMode)) && q != []
    && s.view != [] && !env.table.space(Last(s.view))
  }

  lemma TurnMeaning(i: nat, n: nat)
    requires i < n
    ensures NextIndex(Some(i), n, true) == if i + 1 == n then 0 else i + 1
    ensures NextIndex(Some(i), n, false) == if i == 0 then n - 1 else i - 1
  {
    OneLap(i + 1, n);
    OneLap(i + n - 1, n);
  }

  /** One key turns the index by one and rewrites exactly the suggestion. */
  lemma CycleOnce(env: Env, s: State, doc: string, p: string, q: string, i: nat, forward: bool)
    requires Selected(env, s, q, i) && doc == p + env.wordTriggers(q)[i]
    ensures var ss := env.wordTriggers(q);
            var j := NextIndex(Some(i), |ss|, forward);
            var (s', r) := Cycle(env, s, forward);
            && Selected(env, s', q, j) && s'.clipboard == s.clipboard
            && s'.view == PushAll(Chop(s.view, |ss[i]|), ss[j])
            && r == Some(CompletionRewrite(|ss[i]|, ss[j])) && Rewritten(doc, r) == p + ss[j]
  {
    var ss := env.wordTriggers(q);
    var j := NextIndex(Some(i), |ss|, forward);
    TailWordEnds(env.table, s.view);
    AppendEnds(p, ss[i]);
    var kept := Chop(s.view, |ss[i]|);
    assert Last(kept + ss[j]) == Last(ss[j]);
  }

  /** The index after a run of keys. */
  function Turned(i: nat, n: nat, dirs: seq<bool>): (j: nat)
    requires i < n
    ensures j < n
    decreases dirs
  {
    if dirs == [] then i else Turned(NextIndex(Some(i), n, dirs[0]), n, dirs[1..])
  }

  ghost function CycleRun(env: Env, s: State, doc: string, dirs: seq<bool>): (State, string)
    decreases dirs
  {
    if dirs == [] then (s, doc)
    else
      var (s', r) := Cycle(env, s, dirs[0]);
      CycleRun(env, s', Rewritten(doc, r), dirs[1..])
  }

  /** After any keys the document is the untouched prefix and the suggestion the
      index stands at; the query has not changed. */
  lemma {:induction false} CyclingTurnsTheRing(
      env: Env, s: State, doc: string, p: string, q: string, i: nat, dirs: seq<bool>)
    requires Selected(env, s, q, i) && doc == p + env.wordTriggers(q)[i]
    ensures var ss := env.wordTriggers(q);
            var j := Turned(i, |ss|, dirs);
            var (s', doc') := CycleRun(env, s, doc, dirs);
            Selected(env, s', q, j) && doc' == p + ss[j]
    decreases dirs
  {
    if dirs != [] {
      CycleOnce(env, s, doc, p, q, i, dirs[0]);
      var (s', r) := Cycle(env, s, dirs[0]);
      CyclingTurnsTheRing(env, s', Rewritten(doc, r), p, q,
                          NextIndex(Some(i), |env.wordTriggers(q)|, dirs[0]), dirs[1..]);
    }
  }

  /** The state that stands at the i-th suggestion, after the tracked prefix vp. */
  function StateAt(env: Env, vp: string, q: string, i: nat, clipboard: Option<string>): State
    requires i < |env.wordTriggers(q)|
  {
    var ss := env.wordTriggers(q);
    State(vp + ss[i], Fields(true, false, q, ss[i], ss, Some(i), Some(CompletionMode)), clipboard)
  }

  predicate FitsRing(env: Env, vp: string, q: string) {
    forall i :: 0 <= i < |env.wordTriggers(q)| ==> |vp| + |env.wordTriggers(q)[i]| <= CAPACITY
  }

  /** When the suggestions fit the ring the whole engine state is a function of
      the index: cycling acts on (state, document) as turning acts on indices. */
  lemma {:induction false} CyclingActsOnStates(
      env: Env, vp: string, p: string, q: string, clipboard: Option<string>, i: nat, dirs: seq<bool>)
    requires env.tabCompletion && q != [] && TidyList(env.table, env.wordTriggers(q)) && FitsRing(env, vp, q)
    requires i < |env.wordTriggers(q)|
    ensures var ss := env.wordTriggers(q);
            var j := Turned(i, |ss|, dirs);
            var there := (StateAt(env, vp, q, j, clipboard), p + ss[j]);
            CycleRun(env, StateAt(env, vp, q, i, clipboard), p + ss[i], dirs) == there
    decreases dirs
  {
    var ss := env.wordTriggers(q);
    var s := StateAt(env, vp, q, i, clipboard);
    if dirs != [] {
      assert Last(vp + ss[i]) == Last(ss[i]);
      CycleOnce(env, s, p + ss[i], p, q, i, dirs[0]);
      AppendEnds(vp, ss[i]);
      var j := NextIndex(Some(i), |ss|, dirs[0]);
      assert Cycle(env, s, dirs[0]).0 == StateAt(env, vp, q, j, clipboard);
      CyclingActsOnStates(env, vp, p, q, clipboard, j, dirs[1..]);
    }
  }

  function Repeat(b: bool, n: nat): (r: seq<bool>)
    ensures |r| == n
  {
    if n == 0 then [] else [b] + Repeat(b, n - 1)
  }

  lemma {:induction false} TurnedRepeat(i: nat, n: nat, b: bool, k: nat)
    requires i < n && k <= n
    ensures Turned(i, n, Repeat(b, k))
         == if b then (if i + k < n then i + k else i + k - n)
            else (if i >= k then i - k else i + n - k)
    decreases k
  {
    if k > 0 {
      TurnMeaning(i, n);
      assert Repeat(b, k)[1..] == Repeat(b, k - 1);
      TurnedRepeat(NextIndex(Some(i), n, b), n, b, k - 1);
    }
  }

  /** Next then Prev (or Prev then Next), and a whole lap either way, restore
      the engine and the document. */
  lemma CyclingIsCyclic(env: Env, vp: string, p: string, q: string, clipboard: Option<string>, i: nat, b: bool)
    requires env.tabCompletion && q != [] && TidyList(env.table, env.wordTriggers(q)) && FitsRing(env, vp, q)
    requires i < |env.wordTriggers(q)|
    ensures var here := (StateAt(env, vp, q, i, clipboard), p + env.wordTriggers(q)[i]);
            && CycleRun(env, here.0, here.1, [b, !b]) == here
            && CycleRun(env, here.0, here.1, Repeat(b, |env.wordTriggers(q)|)) == here
  {
    var n := |env.wordTriggers(q)|;
    TurnMeaning(i, n);
    var j := NextIndex(Some(i), n, b);
    TurnMeaning(j, n);
    assert [b, !b][1..] == [!b] && [!b][1..] == [];
    assert Turned(i, n, [b, !b]) == Turned(j, n, [!b]) == Turned(NextIndex(Some(j), n, !b), n, []) == i;
    TurnedRepeat(i, n, b, n);
    CyclingActsOnStates(env, vp, p, q, clipboard, i, [b, !b]);
    CyclingActsOnStates(env, vp, p, q, clipboard, i, Repeat(b, n));
  }

  /** Tab on a tail word that has suggestions selects the first of them. */
  lemma TabSelects(env: Env, s: State, doc: string)
    requires env.tabCompletion && EndsWith(doc, s.view) && TailWord(env.table, s.view).Some?
    requires TidyList(env.table, env.wordTriggers(TailWord(env.table, s.view).value))
    ensures var q := TailWord(env.table, s.view).value;
            var p := Chop(doc, |q|);
            var (s', r) := Activate(env, s);
            doc == p + q && Selected(env, s', q, 0) && Rewritten(doc, r) == p + env.wordTriggers(q)[0]
  {
    var q := TailWord(env.table, s.view).value;
    TailWordEnds(env.table, s.view);
    EndsWithTransitive(doc, s.view, q);
    SplitAtSuffix(doc, q);
    var ss := env.wordTriggers(q);
    TabSelectsFirst(env, ActivateNoCycle(env, s).value, ss);
    var kept := Chop(s.view, |q|);
    assert Last(kept + ss[0]) == Last(ss[0]);
  }

  /** Erasing in a selection, after any cycling, leaves the prefix and the query
      with its last character (or word) gone. */
  lemma EraseAfterCycling(env: Env, s: State, doc: string, p: string, q: string, i: nat, dirs: seq<bool>, word: bool)
    requires Selected(env, s, q, i) && doc == p + env.wordTriggers(q)[i]
    ensures var (s', doc') := CycleRun(env, s, doc, dirs);
            var (s'', r) := RewriteSelected(env, s', word);
            && Rewritten(doc', r) == p + PopQuery(env.table, q, word)
            && s''.c.currentText == s''.c.originalQuery == PopQuery(env.table, q, word)
            && s''.c.selectedIndex.None?
  {
    CyclingTurnsTheRing(env, s, doc, p, q, i, dirs);
    var (s', doc') := CycleRun(env, s, doc, dirs);
    TailWordEnds(env.table, s'.view);
    AppendEnds(p, s'.c.currentText);
  }
}
