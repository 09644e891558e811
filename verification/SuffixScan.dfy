/** The suffix candidates of core/src/engine/buffer.rs in their simple form. */
module SuffixScan {
  import opened Text

  const MAX_CANDIDATE: nat := 30

  function Plain(t: Table, c: char): char {
    if t.space(c) then ' ' else c
  }

  /** The text with every whitespace character replaced by a space. */
  function Normal(t: Table, s: string): (r: string)
    ensures |r| == |s|
    ensures forall i :: 0 <= i < |s| ==> r[i] == Plain(t, s[i])
  {
    seq(|s|, i requires 0 <= i < |s| => Plain(t, s[i]))
  }

  /** The last n characters in reverse, whitespace replaced. */
  function PlainTail(t: Table, v: string, n: nat): (r: string)
    requires n <= |v|
    ensures |r| == n
  {
    if n == 0 then [] else PlainTail(t, v, n - 1) + [Plain(t, v[|v| - n])]
  }

  lemma {:induction false} PlainTailAt(t: Table, v: string, n: nat, i: nat)
    requires i < n <= |v|
    ensures PlainTail(t, v, n)[i] == Plain(t, v[|v| - 1 - i])
  {
    if i < n - 1 {
      PlainTailAt(t, v, n - 1, i);
    }
  }

  function CandidateCount(v: string): nat {
    if |v| < MAX_CANDIDATE then |v| else MAX_CANDIDATE
  }

  /** The last n characters of v and the one before them. The longest candidate
      has no preceding character, even when the text goes on. */
  function Candidate(t: Table, v: string, n: nat): (string, Option<char>)
    requires 1 <= n <= CandidateCount(v)
  {
    (Normal(t, LastN(v, n)),
     if n < CandidateCount(v) then Some(Plain(t, v[|v| - n - 1])) else None)
  }

  function Candidates(t: Table, v: string): (r: seq<(string, Option<char>)>)
    ensures |r| == CandidateCount(v)
    ensures forall i :: 0 <= i < |r| ==> r[i] == Candidate(t, v, i + 1)
  {
    seq(CandidateCount(v), i requires 0 <= i < CandidateCount(v) => Candidate(t, v, i + 1))
  }

  predicate AsciiUpper(c: char) {
    'A' <= c <= 'Z'
  }

  lemma {:induction false} TailPrefix(t: Table, v: string, n: nat, m: nat)
    requires n <= m <= |v|
    ensures PlainTail(t, v, m)[..n] == PlainTail(t, v, n)
  {
    if n < m {
      TailPrefix(t, v, n, m - 1);
      assert PlainTail(t, v, m)[..m - 1] == PlainTail(t, v, m - 1);
      assert PlainTail(t, v, m)[..n] == PlainTail(t, v, m)[..m - 1][..n];
    }
  }

  lemma ReverseIsNormal(t: Table, v: string, n: nat)
    requires n <= |v|
    ensures Reverse(PlainTail(t, v, n)) == Normal(t, LastN(v, n))
  {
    var w, r := LastN(v, n), Reverse(PlainTail(t, v, n));
    forall i | 0 <= i < n
      ensures r[i] == Plain(t, w[i])
    {
      PlainTailAt(t, v, n, n - 1 - i);
      assert w[i] == v[|v| - n + i];
    }
  }

  /** A prefix of the collected characters, turned round, is a candidate. */
  lemma CandidateFromTail(t: Table, v: string, n: nat)
    requires 1 <= n <= CandidateCount(v)
    ensures var m := CandidateCount(v);
            var tail := PlainTail(t, v, m);
            Candidate(t, v, n) == (Reverse(tail[..n]), if n < m then Some(tail[n]) else None)
  {
    var m := CandidateCount(v);
    TailPrefix(t, v, n, m);
    ReverseIsNormal(t, v, n);
    if n < m {
      PlainTailAt(t, v, m, n);
    }
  }

  /** The candidates in one pass over the collected characters. */
  method BuildCandidates(collected: string) returns (candidates: seq<(string, Option<char>)>)
    ensures |candidates| == |collected|
    ensures forall i :: 0 <= i < |collected| ==>
              candidates[i] == (Reverse(collected[..i + 1]),
                                if i + 1 < |collected| then Some(collected[i + 1]) else None)
  {
    candidates := [];
    for n := 1 to |collected| + 1
      invariant |candidates| == n - 1
      invariant forall i :: 0 <= i < n - 1 ==>
                  candidates[i] == (Reverse(collected[..i + 1]),
                                    if i + 1 < |collected| then Some(collected[i + 1]) else None)
    {
      var word := Reverse(collected[..n]);
      var prevChar := if n < |collected| then Some(collected[n]) else None;
      candidates := candidates + [(word, prevChar)];
    }
  }

  lemma CandidatesFromTail(t: Table, v: string, tail: string, r: seq<(string, Option<char>)>)
    requires tail == PlainTail(t, v, CandidateCount(v)) && |r| == |tail|
    requires forall i :: 0 <= i < |tail| ==>
               r[i] == (Reverse(tail[..i + 1]), if i + 1 < |tail| then Some(tail[i + 1]) else None)
    ensures r == Candidates(t, v)
  {
    forall i | 0 <= i < |r|
      ensures r[i] == Candidate(t, v, i + 1)
    {
      CandidateFromTail(t, v, i + 1);
    }
  }
}
