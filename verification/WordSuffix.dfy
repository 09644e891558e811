/** The word-suffix candidates of core/src/engine/fallback.rs. */
module WordSuffix {
  import opened Text
  import opened SuffixScan

  const MAX_WORDS: nat := 6

  /** `split_whitespace`, read from the right. */
  function Words(t: Table, s: string): (ws: seq<string>)
    decreases |s|
  {
    var u := TrimEnd(t, s);
    var j := TailFrom(t, u, |u|);
    if u == [] || j == |u| then [] else Words(t, u[..j]) + [u[j..]]
  }

  function JoinWords(ws: seq<string>): string {
    if ws == [] then []
    else if |ws| == 1 then ws[0]
    else JoinWords(ws[..|ws| - 1]) + [' '] + ws[|ws| - 1]
  }

  function LastWords(ws: seq<string>, k: nat): seq<string>
    requires k <= |ws|
  {
    ws[|ws| - k..]
  }

  function CandidateWords(ws: seq<string>): nat {
    if |ws| < MAX_WORDS then |ws| else MAX_WORDS
  }

  /** The last k words, joined by single spaces. */
  function WordCandidate(ws: seq<string>, k: nat): string
    requires k <= |ws|
  {
    JoinWords(LastWords(ws, k))
  }

  /** The candidates, most words first. */
  function WordCandidates(ws: seq<string>): (r: seq<string>)
    ensures |r| == CandidateWords(ws)
    ensures forall i :: 0 <= i < |r| ==> r[i] == WordCandidate(ws, |r| - i)
  {
    seq(CandidateWords(ws), i requires 0 <= i < CandidateWords(ws) => WordCandidate(ws, CandidateWords(ws) - i))
  }

  method BuildWordCandidates(ws: seq<string>) returns (candidates: seq<string>)
    ensures candidates == WordCandidates(ws)
  {
    var maxWords := if |ws| < MAX_WORDS then |ws| else MAX_WORDS;
    candidates := [];
    var k := maxWords;
    while k > 0
      invariant 0 <= k <= maxWords
      invariant |candidates| == maxWords - k
      invariant forall i :: 0 <= i < |candidates| ==> candidates[i] == WordCandidate(ws, maxWords - i)
    {
      var suffixWords := ws[|ws| - k..];
      candidates := candidates + [JoinWords(suffixWords)];
      k := k - 1;
    }
  }

  /** Where the k-th last word of s starts. */
  function WordStart(t: Table, s: string, k: nat): (p: nat)
    requires 1 <= k <= |Words(t, s)|
    ensures p < |s|
    decreases k
  {
    var u := TrimEnd(t, s);
    var j := TailFrom(t, u, |u|);
    if k == 1 then j else WordStart(t, u[..j], k - 1)
  }

  /** From p on, every whitespace character is followed by a word: each gap is
      one character and nothing trails. */
  ghost predicate Tight(t: Table, s: string, p: nat) {
    forall i :: p <= i < |s| && t.space(s[i]) ==> i + 1 < |s| && !t.space(s[i + 1])
  }

  lemma {:induction false} TrimTwice(t: Table, s: string)
    ensures TrimEnd(t, TrimEnd(t, s)) == TrimEnd(t, s)
    ensures Words(t, TrimEnd(t, s)) == Words(t, s)
  {
    if s != [] && t.space(Last(s)) {
      TrimTwice(t, Init(s));
    }
  }

  lemma WordStartTrim(t: Table, s: string, k: nat)
    requires 1 <= k <= |Words(t, s)|
    ensures k <= |Words(t, TrimEnd(t, s))| && WordStart(t, TrimEnd(t, s), k) == WordStart(t, s, k)
  {
    TrimTwice(t, s);
  }

  /** A word starts at WordStart, after whitespace or at the beginning. */
  lemma {:induction false} WordStartMeaning(t: Table, s: string, k: nat)
    requires 1 <= k <= |Words(t, s)|
    ensures var p := WordStart(t, s, k); !t.space(s[p]) && (p > 0 ==> t.space(s[p - 1]))
    decreases k
  {
    var u := TrimEnd(t, s);
    var j := TailFrom(t, u, |u|);
    TailFromMeaning(t, u, |u|);
    if k > 1 {
      WordStartMeaning(t, u[..j], k - 1);
    }
  }

  lemma TightTrim(t: Table, s: string, p: nat)
    requires p < |TrimEnd(t, s)|
    ensures Tight(t, s, p) <==> TrimEnd(t, s) == s && Tight(t, TrimEnd(t, s), p)
  {
    var u := TrimEnd(t, s);
    TrimEndSplits(t, s);
    if |u| < |s| {
      assert s[|s| - 1] == s[|u|..][|s| - 1 - |u|];
    }
  }

  /** Cutting the last word off leaves a tight text exactly when the gap before
      the word is one character. */
  lemma TightCut(t: Table, u: string, j: nat, v: string, p: nat)
    requires p < |v| < j < |u| && v <= u && !t.space(Last(v))
    requires forall i :: j <= i < |u| ==> !t.space(u[i])
    requires forall i :: |v| <= i < j ==> t.space(u[i])
    ensures Tight(t, u, p) <==> Tight(t, v, p) && |v| == j - 1
  {
    if Tight(t, u, p) {
      assert t.space(u[|v|]);
      assert !t.space(u[|v| + 1]);
      forall i | p <= i < |v| && t.space(v[i])
        ensures i + 1 < |v| && !t.space(v[i + 1])
      {
        assert u[i] == v[i];
      }
    }
    if Tight(t, v, p) && |v| == j - 1 {
      forall i | p <= i < |u| && t.space(u[i])
        ensures i + 1 < |u| && !t.space(u[i + 1])
      {
        if i < |v| {
          assert u[i] == v[i] && u[i + 1] == v[i + 1];
        }
      }
    }
  }

  /** The same for the whole text and the words before its last. */
  lemma TightStep(t: Table, s: string, p: nat)
    requires var u := TrimEnd(t, s); u != [] && p < |TrimEnd(t, u[..TailFrom(t, u, |u|)])|
    ensures var u := TrimEnd(t, s);
            var j := TailFrom(t, u, |u|);
            var v := TrimEnd(t, u[..j]);
            |v| <= j - 1 && (Tight(t, s, p) <==> Tight(t, v, p) && |v| == j - 1 && u == s)
  {
    var u := TrimEnd(t, s);
    var j := TailFrom(t, u, |u|);
    var v := TrimEnd(t, u[..j]);
    TailFromMeaning(t, u, |u|);
    TrimEndSplits(t, u[..j]);
    forall i | |v| <= i < j
      ensures t.space(u[i])
    {
      assert u[i] == u[..j][|v|..][i - |v|];
    }
    TightCut(t, u, j, v, p);
    TightTrim(t, s, p);
  }

  lemma JoinLast(ws: seq<string>, k: nat)
    requires 1 < k <= |ws|
    ensures |WordCandidate(ws, k)| == |WordCandidate(ws[..|ws| - 1], k - 1)| + 1 + |ws[|ws| - 1]|
  {
    assert LastWords(ws, k)[..k - 1] == LastWords(ws[..|ws| - 1], k - 1);
  }

  lemma LastWordOf(t: Table, s: string)
    requires Words(t, s) != []
    ensures var u := TrimEnd(t, s);
            var j := TailFrom(t, u, |u|);
            j < |u| && WordCandidate(Words(t, s), 1) == u[j..] && WordStart(t, s, 1) == j
  {
    var u := TrimEnd(t, s);
    assert LastWords(Words(t, s), 1) == [u[TailFrom(t, u, |u|)..]];
  }

  lemma OneWord(t: Table, s: string)
    requires Words(t, s) != []
    ensures var p, n := WordStart(t, s, 1), |WordCandidate(Words(t, s), 1)|;
            n <= |s| - p && (n == |s| - p <==> Tight(t, s, p))
  {
    var u := TrimEnd(t, s);
    LastWordOf(t, s);
    TailFromMeaning(t, u, |u|);
    TightTrim(t, s, TailFrom(t, u, |u|));
  }

  /** The joined last k words are no longer than the text from the k-th last
      word to the end, and as long exactly when that text is tight. */
  lemma {:induction false} FallbackNeverOverDeletes(t: Table, s: string, k: nat)
    requires 1 <= k <= |Words(t, s)|
    ensures var p, n := WordStart(t, s, k), |WordCandidate(Words(t, s), k)|;
            n <= |s| - p && (n == |s| - p <==> Tight(t, s, p))
    decreases k
  {
    if k == 1 {
      OneWord(t, s);
    } else {
      var u := TrimEnd(t, s);
      var j := TailFrom(t, u, |u|);
      var front := u[..j];
      JoinLast(Words(t, s), k);
      assert Words(t, s)[..|Words(t, s)| - 1] == Words(t, front);
      TrimTwice(t, front);
      WordStartTrim(t, front, k - 1);
      FallbackNeverOverDeletes(t, TrimEnd(t, front), k - 1);
      TightStep(t, s, WordStart(t, s, k));
    }
  }

  lemma CandidateNotEmpty(t: Table, s: string, k: nat)
    requires 1 <= k <= |Words(t, s)|
    ensures WordCandidate(Words(t, s), k) != []
  {
    var ws := LastWords(Words(t, s), k);
    assert ws[k - 1] == Words(t, s)[|Words(t, s)| - 1];
  }

  /** From p on, every gap is one space and nothing trails. */
  ghost predicate OneSpaced(t: Table, s: string, p: nat) {
    Tight(t, s, p) && forall i :: p <= i < |s| && t.space(s[i]) ==> s[i] == ' '
  }

  lemma {:induction false} LastOfCandidate(t: Table, s: string, k: nat)
    requires 1 <= k <= |Words(t, s)|
    ensures var w := WordCandidate(Words(t, s), k); w != [] && !t.space(Last(w))
  {
    var ws := LastWords(Words(t, s), k);
    assert ws[k - 1] == Words(t, s)[|Words(t, s)| - 1];
    var u := TrimEnd(t, s);
    assert Last(ws[k - 1]) == Last(u);
    assert Last(JoinWords(ws)) == Last(ws[k - 1]);
  }

  lemma SplitWord(ws: seq<string>, k: nat)
    requires 1 < k <= |ws|
    ensures WordCandidate(ws, k) == WordCandidate(ws[..|ws| - 1], k - 1) + [' '] + ws[|ws| - 1]
  {
    assert LastWords(ws, k)[..k - 1] == LastWords(ws[..|ws| - 1], k - 1);
  }

  /** A text whose trimmed form ends with w ends with w exactly when it is
      trimmed already. */
  lemma EndsTrimmed(t: Table, s: string, w: string)
    requires w != [] && EndsWith(TrimEnd(t, s), w)
    ensures EndsWith(s, w) <==> TrimEnd(t, s) == s
  {
    var u := TrimEnd(t, s);
    TrimEndSplits(t, s);
    assert Last(u) == Last(w);
    if |u| < |s| {
      assert Last(s[|u|..]) == Last(s);
    }
  }

  lemma OneWordIsLiteral(t: Table, s: string)
    requires Words(t, s) != []
    ensures EndsWith(s, WordCandidate(Words(t, s), 1)) <==> OneSpaced(t, s, WordStart(t, s, 1))
  {
    var u := TrimEnd(t, s);
    var j := TailFrom(t, u, |u|);
    LastWordOf(t, s);
    EndsTrimmed(t, s, u[j..]);
    TailFromMeaning(t, u, |u|);
    TightTrim(t, s, j);
  }

  /** A text ends with x and a space exactly when a space ends it and x stands
      before. */
  lemma EndsSpaced(f: string, x: string)
    requires f != []
    ensures EndsWith(f, x + [' ']) <==> Last(f) == ' ' && EndsWith(Init(f), x)
  {
    assert f == Init(f) + [Last(f)];
    if EndsWith(f, x + [' ']) {
      assert Last(f) == Last(x + [' ']);
    }
    if Last(f) == ' ' {
      SuffixBefore(Init(f), x, [' ']);
    }
  }

  /** A trimmed text f + w ends with x, a space and w exactly when f is x with
      something before it and a single space after. */
  lemma CutLastWord(t: CharTable, f: string, w: string, x: string)
    requires x != [] && !t.space(Last(x)) && f != []
    ensures EndsWith(f + w, x + [' '] + w) <==>
              |TrimEnd(t, f)| == |f| - 1 && Last(f) == ' ' && EndsWith(TrimEnd(t, f), x)
  {
    SuffixBefore(f, x + [' '], w);
    EndsSpaced(f, x);
    if Last(f) == ' ' {
      if EndsWith(Init(f), x) {
        assert Last(Init(f)) == Last(x);
      }
      if |TrimEnd(t, f)| == |f| - 1 {
        assert TrimEnd(t, f) == Init(f);
      }
    }
  }

  lemma EndsTrimmedAt(t: Table, s: string, y: string, j: nat)
    requires var u := TrimEnd(t, s); j < |u|
    ensures var u := TrimEnd(t, s); EndsWith(s, y + u[j..]) <==> u == s && EndsWith(u[..j] + u[j..], y + u[j..])
  {
    var u := TrimEnd(t, s);
    assert u[..j] + u[j..] == u;
    AppendEnds(y, u[j..]);
    EndsTrimmed(t, s, u[j..]);
    if EndsWith(s, y + u[j..]) {
      EndsWithTransitive(s, y + u[j..], u[j..]);
    }
  }

  /** The text ends literally with the joined last k words exactly when, from the
      k-th last word on, every gap is one space and nothing trails. */
  lemma {:induction false} JoinedIsLiteral(t: CharTable, s: string, k: nat)
    requires 1 <= k <= |Words(t, s)|
    ensures EndsWith(s, WordCandidate(Words(t, s), k)) <==> OneSpaced(t, s, WordStart(t, s, k))
    decreases k
  {
    if k == 1 {
      OneWordIsLiteral(t, s);
    } else {
      var u := TrimEnd(t, s);
      var j := TailFrom(t, u, |u|);
      var v := TrimEnd(t, u[..j]);
      var x := FrontCandidate(t, s, k);
      JoinedIsLiteral(t, v, k - 1);
      EndsTrimmedAt(t, s, x + [' '], j);
      CutLastWord(t, u[..j], u[j..], x);
      SpacedStep(t, s, WordStart(t, s, k));
    }
  }

  /** The last k words are the last k - 1 words of the front, and the last. */
  lemma FrontCandidate(t: CharTable, s: string, k: nat) returns (x: string)
    requires 1 < k <= |Words(t, s)|
    ensures var u := TrimEnd(t, s);
            var j := TailFrom(t, u, |u|);
            var v := TrimEnd(t, u[..j]);
            && u != [] && 0 < j < |u| && k - 1 <= |Words(t, v)|
            && x == WordCandidate(Words(t, v), k - 1) && x != [] && !t.space(Last(x))
            && WordCandidate(Words(t, s), k) == x + [' '] + u[j..]
            && WordStart(t, s, k) == WordStart(t, v, k - 1)
  {
    var u := TrimEnd(t, s);
    var front := u[..TailFrom(t, u, |u|)];
    SplitWord(Words(t, s), k);
    assert Words(t, s)[..|Words(t, s)| - 1] == Words(t, front);
    TrimTwice(t, front);
    WordStartTrim(t, front, k - 1);
    LastOfCandidate(t, front, k - 1);
    x := WordCandidate(Words(t, front), k - 1);
  }

  lemma SpacedStep(t: Table, s: string, p: nat)
    requires var u := TrimEnd(t, s); u != [] && p < |TrimEnd(t, u[..TailFrom(t, u, |u|)])|
    ensures var u := TrimEnd(t, s);
            var j := TailFrom(t, u, |u|);
            var v := TrimEnd(t, u[..j]);
            OneSpaced(t, s, p) <==> OneSpaced(t, v, p) && |v| == j - 1 && u == s && u[j - 1] == ' '
  {
    var u := TrimEnd(t, s);
    var j := TailFrom(t, u, |u|);
    var v := TrimEnd(t, u[..j]);
    TightStep(t, s, p);
    TailFromMeaning(t, u, |u|);
    if u == s && |v| == j - 1 {
      assert forall i :: 0 <= i < |v| ==> v[i] == s[i];
    }
  }
}
