/** What `Preprocess` and `FormatResult` are to each other. */
module CommaLaws {
  import opened Text
  import opened Comma

  lemma {:induction false} EraseAppend(a: string, b: string)
    ensures Erase(a + b) == Erase(a) + Erase(b)
  {
    if a == [] {
      assert a + b == b;
    } else {
      EraseAppend(a[1..], b);
      assert (a + b)[1..] == a[1..] + b && (a + b)[0] == a[0];
      Associative([a[0]], Erase(a[1..]), Erase(b));
    }
  }

  lemma {:induction false} EraseNothing(s: string)
    requires ',' !in s
    ensures Erase(s) == s
  {
    if s != [] {
      EraseNothing(s[1..]);
    }
  }

  lemma EraseJoined(a: string, b: string)
    ensures Erase(Joined(a, b)) == Erase(a) + Erase(b)
  {
    EraseAppend(a, b);
    EraseComma(a, b);
  }

  lemma EraseComma(a: string, b: string)
    ensures Erase(a + [','] + b) == Erase(a) + Erase(b)
  {
    EraseAppend(a + [','], b);
    EraseAppend(a, [',']);
    assert Erase([',']) == [];
  }

  lemma {:induction false} EraseGroup(d: string, ivs: seq<nat>, i: nat)
    requires ivs != [] && Enough(|d|, ivs, i)
    ensures Erase(Group(d, ivs, i)) == Erase(d)
    decreases |d|, |ivs| - i
  {
    var n := Interval(ivs, i);
    if |d| > n {
      EraseGroup(Chop(d, n), ivs, i + 1);
      ChopAndLast(d, n);
      EraseStep(Group(Chop(d, n), ivs, i + 1), Chop(d, n), LastN(d, n));
    }
  }

  lemma EraseStep(r: string, p: string, q: string)
    requires Erase(r) == Erase(p)
    ensures Erase(Joined(r, q)) == Erase(p + q)
  {
    EraseJoined(r, q);
    EraseAppend(p, q);
  }

  lemma EraseThree(a: string, b: string, c: string)
    ensures Erase(a + b + c) == Erase(a) + Erase(b) + Erase(c)
  {
    var ab := a + b;
    EraseAppend(a, b);
    EraseAppend(ab, c);
    assert Erase(ab + c) == Erase(ab) + Erase(c);
  }

  lemma SplitNumberParts(s: string)
    requires SplitNumber(s).Some?
    ensures var m := SplitNumber(s).value; s == m.sign + m.integer + (m.decimal + m.suffix)
  {
  }

  /** Formatting only inserts commas: erasing them gives back what erasing them
      from the result gives, so a comma-free result itself. */
  lemma FormattingOnlyInsertsCommas(result: string, ivs: seq<nat>)
    requires Terminates(result, ivs)
    ensures Erase(Formatted(result, ivs)) == Erase(result)
    ensures ',' !in result ==> Erase(Formatted(result, ivs)) == result
  {
    var m := SplitNumber(result);
    if ivs != [] && m.Some? {
      var n := m.value;
      SplitNumberParts(result);
      var g := Group(n.integer, ivs, 0);
      assert Formatted(result, ivs) == n.sign + g + (n.decimal + n.suffix);
      EraseThree(n.sign, g, n.decimal + n.suffix);
      EraseThree(n.sign, n.integer, n.decimal + n.suffix);
      EraseGroup(n.integer, ivs, 0);
    }
    if ',' !in result {
      EraseNothing(result);
    }
  }

  /** A result is left alone exactly when no digit follows its optional sign or it
      has a line break. */
  lemma NoNumber(s: string)
    ensures SplitNumber(s).None? <==> '\n' in s || SignLength(s) == |s| || !Digit(s[SignLength(s)])
  {
    var a := SignLength(s);
    var b := DigitsEnd(s, a);
    var c := DecimalEnd(s, b);
    DigitsUpTo(s, a);
    if b < c {
      DigitsUpTo(s, b + 1);
    }
    assert s == s[..c] + s[c..];
  }

  lemma {:induction false} DigitsUpTo(s: string, i: nat)
    requires i <= |s|
    ensures forall k :: i <= k < DigitsEnd(s, i) ==> Digit(s[k])
    decreases |s| - i
  {
    if i < |s| && Digit(s[i]) {
      DigitsUpTo(s, i + 1);
    }
  }

  // ----------------------------------------------------------- round trips

  /** Nonempty groups of digits, the leading one first. */
  ghost predicate Groups(gs: seq<string>) {
    gs != [] && forall i :: 0 <= i < |gs| ==> gs[i] != [] && Digits(gs[i])
  }

  function Grouped(gs: seq<string>): (r: string)
    requires gs != []
  {
    if |gs| == 1 then gs[0] else Grouped(gs[..|gs| - 1]) + [','] + gs[|gs| - 1]
  }

  function Plain(gs: seq<string>): string {
    if gs == [] then [] else Plain(gs[..|gs| - 1]) + gs[|gs| - 1]
  }

  /** The group lengths, rightmost first, without the leading group's. */
  function Lengths(gs: seq<string>): (r: seq<nat>)
    requires gs != []
    ensures |r| == |gs| - 1 && (|gs| > 1 ==> r[|r| - 1] == |gs[1]|)
  {
    if |gs| == 1 then [] else [|gs[|gs| - 1]|] + Lengths(gs[..|gs| - 1])
  }

  lemma {:induction false} LengthsAt(gs: seq<string>, k: nat)
    requires 1 <= k < |gs|
    ensures Lengths(gs)[|gs| - 1 - k] == |gs[k]|
    decreases |gs|
  {
    if k < |gs| - 1 {
      LengthsAt(gs[..|gs| - 1], k);
    }
  }

  lemma {:induction false} CountDigits(m: string, d: string, cur: nat)
    requires Digits(d)
    ensures Intervals(m + d, cur) == Intervals(m, cur + |d|)
  {
    if d == [] {
      assert m + d == m;
    } else {
      assert Init(m + d) == m + Init(d);
      CountDigits(m, Init(d), cur + 1);
    }
  }

  lemma IntervalsStep(p: string, g: string)
    requires g != [] && Digits(g)
    ensures Intervals(p + [','] + g, 0) == [|g|] + Intervals(p, 0)
  {
    CountDigits(p + [','], g, 0);
    CountComma(p, |g|);
  }

  lemma CountComma(p: string, n: nat)
    requires n > 0
    ensures Intervals(p + [','], n) == [n] + Intervals(p, 0)
  {
    var m := p + [','];
    assert m != [] && Last(m) == ',' && Init(m) == p;
  }

  lemma {:induction false} IntervalsAreLengths(gs: seq<string>)
    requires Groups(gs)
    ensures Intervals(Grouped(gs), 0) == Lengths(gs)
    decreases |gs|
  {
    if |gs| == 1 {
      OneGroup(gs);
      CountDigits([], gs[0], 0);
      assert [] + gs[0] == gs[0];
    } else {
      var front, g := gs[..|gs| - 1], gs[|gs| - 1];
      LastGroup(gs);
      IntervalsStep(Grouped(front), g);
      IntervalsAreLengths(front);
    }
  }

  /** The groups before the last, and how they are spelled. */
  lemma LastGroup(gs: seq<string>)
    requires Groups(gs) && |gs| >= 2
    ensures var front, g := gs[..|gs| - 1], gs[|gs| - 1];
            && Groups(front) && g != [] && Digits(g)
            && Grouped(gs) == Grouped(front) + [','] + g && Plain(gs) == Plain(front) + g
  {
  }

  lemma ErasesStep(p: string, q: string, g: string)
    requires Erase(p) == q && Digits(q) && Digits(g)
    ensures Erase(p + [','] + g) == q + g && Digits(q + g)
  {
    EraseComma(p, g);
    EraseNothing(g);
  }

  lemma {:induction false} ErasesToPlain(gs: seq<string>)
    requires Groups(gs)
    ensures Erase(Grouped(gs)) == Plain(gs) && Digits(Plain(gs)) && Plain(gs) != []
    decreases |gs|
  {
    if |gs| == 1 {
      OneGroup(gs);
      EraseNothing(gs[0]);
    } else {
      var front, g := gs[..|gs| - 1], gs[|gs| - 1];
      LastGroup(gs);
      ErasesToPlain(front);
      ErasesStep(Grouped(front), Plain(front), g);
    }
  }

  lemma OneGroup(gs: seq<string>)
    requires Groups(gs) && |gs| == 1
    ensures Plain(gs) == Grouped(gs) == gs[0] && Digits(gs[0]) && gs[0] != [] && ',' !in gs[0]
  {
    assert Plain(gs[..0]) == [];
  }

  lemma Cancel(a: string, p: string, q: string, b: string)
    ensures a + p + b == a + q + b <==> p == q
  {
    if a + p + b == a + q + b {
      assert |p| == |q|;
      assert p == (a + p + b)[|a|..|a| + |p|] == (a + q + b)[|a|..|a| + |q|] == q;
    }
  }

  /** A leading group that is too long is split, and so changed. */
  lemma LeadingGroup(g: string, ivs: seq<nat>, i: nat)
    requires ivs != [] && ivs[|ivs| - 1] > 0 && i >= |ivs| && g != [] && Digits(g)
    ensures Group(g, ivs, i) == g <==> |g| <= ivs[|ivs| - 1]
  {
    var n := Interval(ivs, i);
    if |g| > n {
      var r := Group(Chop(g, n), ivs, i + 1);
      assert Group(g, ivs, i)[|r|] == ',';
      assert ',' !in g;
    }
  }

  /** Regrouping the front groups restores them exactly when the leading group
      fits the last interval. */
  lemma {:induction false} RegroupFront(gs: seq<string>, ivs: seq<nat>, i: nat)
    requires Groups(gs) && ivs != [] && ivs[|ivs| - 1] > 0
    requires i + |gs| == |ivs| + 1
    requires forall k :: 1 <= k < |gs| ==> ivs[|ivs| - k] == |gs[k]|
    ensures Group(Plain(gs), ivs, i) == Grouped(gs) <==> |gs[0]| <= ivs[|ivs| - 1]
    decreases |gs|
  {
    if |gs| == 1 {
      OneGroup(gs);
      LeadingGroup(gs[0], ivs, i);
    } else {
      var front, g := gs[..|gs| - 1], gs[|gs| - 1];
      LastGroup(gs);
      RegroupFront(front, ivs, i + 1);
      assert Interval(ivs, i) == |gs[|gs| - 1]|;
      RegroupStep(front, g, ivs, i);
    }
  }

  lemma RegroupStep(front: seq<string>, g: string, ivs: seq<nat>, i: nat)
    requires Groups(front) && ivs != [] && ivs[|ivs| - 1] > 0 && g != [] && Interval(ivs, i) == |g|
    ensures Group(Plain(front) + g, ivs, i) == Grouped(front) + [','] + g <==>
              Group(Plain(front), ivs, i + 1) == Grouped(front)
  {
    ErasesToPlain(front);
    var d := Plain(front) + g;
    assert Chop(d, |g|) == Plain(front) && LastN(d, |g|) == g;
    var p, q := Group(Plain(front), ivs, i + 1), Grouped(front);
    CancelEnd(p + [','], q + [','], g);
    CancelEnd(p, q, [',']);
  }

  lemma CancelEnd(p: string, q: string, b: string)
    ensures p + b == q + b <==> p == q
  {
    if p + b == q + b {
      assert |p| == |q|;
      assert p == (p + b)[..|p|] == (q + b)[..|q|] == q;
    }
  }

  lemma RegroupAll(gs: seq<string>)
    requires Groups(gs) && |gs| >= 2
    ensures Group(Plain(gs), Lengths(gs), 0) == Grouped(gs) <==> |gs[0]| <= |gs[1]|
  {
    var ivs := LengthsOf(gs);
    RegroupFront(gs, ivs, 0);
  }

  lemma LengthsOf(gs: seq<string>) returns (ivs: seq<nat>)
    requires Groups(gs) && |gs| >= 2
    ensures ivs == Lengths(gs) && |ivs| == |gs| - 1
    ensures forall k :: 1 <= k < |gs| ==> ivs[|ivs| - k] == |gs[k]|
    ensures ivs[|ivs| - 1] == |gs[1]| > 0
  {
    ivs := Lengths(gs);
    forall k | 1 <= k < |gs|
      ensures ivs[|ivs| - k] == |gs[k]|
    {
      LengthsAt(gs, k);
    }
    LengthsAt(gs, 1);
  }

  /** Text around a grouped number that neither joins its digits nor stops
      `FormatResult` from reading it. */
  predicate Sign(s: string) {
    s == [] || s == ['+'] || s == ['-']
  }

  predicate Trailer(s: string) {
    ',' !in s && '\n' !in s && (s != [] ==> !Digit(s[0]))
  }

  lemma {:induction false} DigitsEndAt(s: string, i: nat, e: nat)
    requires i <= e <= |s| && (forall k :: i <= k < e ==> Digit(s[k])) && (e < |s| ==> !Digit(s[e]))
    ensures DigitsEnd(s, i) == e
    decreases e - i
  {
    if i < e {
      DigitsEndAt(s, i + 1, e);
    }
  }

  /** s has the text t at p, and neither a digit nor a comma after it. */
  predicate NumberAt(s: string, p: nat, t: string) {
    && p + |t| <= |s| && s[p..p + |t|] == t
    && (p + |t| < |s| ==> !Digit(s[p + |t|]) && s[p + |t|] != ',')
  }

  lemma DigitsEndOf(s: string, p: nat, d: string)
    requires NumberAt(s, p, d) && Digits(d)
    ensures DigitsEnd(s, p) == p + |d|
  {
    if d != [] {
      RunOf(s, p, d);
    }
    DigitsEndAt(s, p, p + |d|);
  }

  lemma {:induction false} GroupedFromLeft(gs: seq<string>)
    requires |gs| >= 2
    ensures Grouped(gs) == gs[0] + [','] + Grouped(gs[1..])
    decreases |gs|
  {
    var front := gs[..|gs| - 1];
    if |gs| > 2 {
      GroupedFromLeft(front);
      assert front[1..] == gs[1..][..|gs| - 2];
    }
  }

  predicate DigitRun(s: string, p: nat, q: nat) {
    p < q <= |s| && forall k :: p <= k < q ==> Digit(s[k])
  }

  /** The groups stand in s from p to e, with commas between them. */
  predicate GroupsAt(s: string, p: nat, gs: seq<string>, e: nat)
    requires gs != []
    decreases |gs|
  {
    var q := p + |gs[0]|;
    && DigitRun(s, p, q)
    && if |gs| == 1 then q == e && (q < |s| ==> !Digit(s[q]) && s[q] != ',')
       else CommaAt(s, q) && GroupsAt(s, q + 1, gs[1..], e)
  }

  predicate CommaAt(s: string, q: nat) {
    q + 1 < |s| && s[q] == ',' && Digit(s[q + 1])
  }

  lemma LeadingDigits(s: string, p: nat, gs: seq<string>, e: nat)
    requires gs != [] && GroupsAt(s, p, gs, e)
    ensures DigitsEnd(s, p) == p + |gs[0]| <= |s|
  {
    DigitsEndAt(s, p, p + |gs[0]|);
  }

  /** From the end of the leading group the scan runs to the end of the number. */
  lemma {:induction false} GroupsEndAfter(s: string, p: nat, gs: seq<string>, e: nat)
    requires gs != [] && GroupsAt(s, p, gs, e)
    ensures p + |gs[0]| <= |s| && GroupsEnd(s, p + |gs[0]|) == e
    ensures p + |gs[0]| <= e && (|gs| > 1 ==> p + |gs[0]| < e)
    decreases |gs|
  {
    if |gs| > 1 {
      LeadingDigits(s, p + |gs[0]| + 1, gs[1..], e);
      GroupsEndAfter(s, p + |gs[0]| + 1, gs[1..], e);
    }
  }

  /** The leading group, and how the others are spelled. */
  lemma FirstGroup(gs: seq<string>)
    requires Groups(gs) && |gs| >= 2
    ensures var rest := Grouped(gs[1..]);
            && Groups(gs[1..]) && gs[0] != [] && Digits(gs[0])
            && Grouped(gs) == gs[0] + [','] + rest && rest != [] && Digit(rest[0])
  {
    GroupedFromLeft(gs);
    StartsWithDigit(gs[1..]);
    assert gs[1..][0] == gs[1];
  }

  lemma OneGroupStands(s: string, p: nat, gs: seq<string>)
    requires Groups(gs) && |gs| == 1 && NumberAt(s, p, Grouped(gs))
    ensures GroupsAt(s, p, gs, p + |Grouped(gs)|)
  {
    OneGroup(gs);
    RunOf(s, p, gs[0]);
  }

  lemma RunOf(s: string, p: nat, d: string)
    requires d != [] && Digits(d) && p + |d| <= |s| && s[p..p + |d|] == d
    ensures DigitRun(s, p, p + |d|)
  {
    assert forall k :: 0 <= k < |d| ==> s[p + k] == d[k];
  }

  lemma FirstStands(s: string, p: nat, gs: seq<string>)
    requires Groups(gs) && |gs| >= 2 && NumberAt(s, p, Grouped(gs))
    ensures var q := p + |gs[0]|;
            && DigitRun(s, p, q) && CommaAt(s, q) && Groups(gs[1..]) && NumberAt(s, q + 1, Grouped(gs[1..]))
            && p + |Grouped(gs)| == q + 1 + |Grouped(gs[1..])|
  {
    FirstGroup(gs);
    NumberStep(s, p, gs[0], Grouped(gs[1..]));
  }

  /** Where a number is spelled its groups stand. */
  lemma {:induction false} GroupsStand(s: string, p: nat, gs: seq<string>)
    requires Groups(gs) && NumberAt(s, p, Grouped(gs))
    ensures GroupsAt(s, p, gs, p + |Grouped(gs)|)
    decreases |gs|
  {
    if |gs| == 1 {
      OneGroupStands(s, p, gs);
    } else {
      FirstStands(s, p, gs);
      GroupsStand(s, p + |gs[0]| + 1, gs[1..]);
      StandStep(s, p, gs, p + |Grouped(gs)|);
    }
  }

  lemma StandStep(s: string, p: nat, gs: seq<string>, e: nat)
    requires |gs| >= 2 && DigitRun(s, p, p + |gs[0]|) && CommaAt(s, p + |gs[0]|)
    requires GroupsAt(s, p + |gs[0]| + 1, gs[1..], e)
    ensures GroupsAt(s, p, gs, e)
  {
  }

  lemma NumberStep(s: string, p: nat, g: string, rest: string)
    requires g != [] && Digits(g) && rest != [] && Digit(rest[0]) && NumberAt(s, p, g + [','] + rest)
    ensures var q := p + |g|; DigitRun(s, p, q) && CommaAt(s, q) && NumberAt(s, q + 1, rest)
  {
    var t := g + [','] + rest;
    var q := p + |g|;
    assert t[..|g|] == g && t[|g| + 1..] == rest;
    assert s[p..q] == t[..|g|] && s[q + 1..p + |t|] == t[|g| + 1..];
    RunOf(s, p, g);
    assert s[q] == s[p..p + |t|][|g|] == t[|g|] == ',';
    assert s[q + 1] == s[q + 1..p + |t|][0] == rest[0];
  }

  lemma {:induction false} StartsWithDigit(gs: seq<string>)
    requires Groups(gs)
    ensures Grouped(gs) != [] && Grouped(gs)[0] == gs[0][0]
    decreases |gs|
  {
    if |gs| > 1 {
      StartsWithDigit(gs[..|gs| - 1]);
    }
  }

  lemma FoundThere(s: string, p: nat, gs: seq<string>)
    requires Groups(gs) && |gs| >= 2 && NumberAt(s, p, Grouped(gs))
    ensures FindGrouped(s, p) == Some((p, p + |Grouped(gs)|))
  {
    var e := p + |Grouped(gs)|;
    GroupsStand(s, p, gs);
    GroupsEndAfter(s, p, gs, e);
    LeadingDigits(s, p, gs, e);
  }

  /** The first grouped number in sign + digits + trailer is the number. */
  lemma FindsTheNumber(sign: string, gs: seq<string>, tail: string)
    requires Sign(sign) && Groups(gs) && |gs| >= 2 && Trailer(tail)
    ensures var s := sign + Grouped(gs) + tail;
            FindGrouped(s, 0) == Some((|sign|, |sign| + |Grouped(gs)|))
  {
    var s := sign + Grouped(gs) + tail;
    NumberBetween(sign, Grouped(gs), tail);
    FoundThere(s, |sign|, gs);
    if sign != [] {
      assert s[0] == sign[0] && DigitsEnd(s, 0) == 0;
    }
  }

  lemma NumberBetween(a: string, t: string, tail: string)
    requires Trailer(tail)
    ensures NumberAt(a + t + tail, |a|, t)
  {
    var s := a + t + tail;
    assert s[|a|..|a| + |t|] == t;
    assert tail != [] ==> s[|a| + |t|] == tail[0];
  }

  lemma SplitsThere(s: string, sign: string, d: string, tail: string)
    requires s == sign + d + tail && Sign(sign) && d != [] && Digits(d) && Trailer(tail)
    ensures var m := SplitNumber(s);
            && m.Some? && m.value.sign == sign && m.value.integer == d
            && m.value.decimal + m.value.suffix == tail
  {
    var a, b := |sign|, |sign| + |d|;
    SignOf(sign, d, tail);
    NumberBetween(sign, d, tail);
    DigitsEndOf(s, a, d);
    assert s[b..] == tail;
    SplitAtEnds(s, a, b);
    assert s[..a] == sign && s[a..b] == d;
  }

  lemma SignOf(sign: string, d: string, tail: string)
    requires Sign(sign) && d != [] && Digits(d)
    ensures SignLength(sign + d + tail) == |sign|
  {
    assert (sign + d + tail)[0] == if sign == [] then d[0] else sign[0];
  }

  lemma SplitAtEnds(s: string, a: nat, b: nat)
    requires a < b <= |s| && SignLength(s) == a && DigitsEnd(s, a) == b && '\n' !in s[b..]
    ensures var m := SplitNumber(s);
            m.Some? && m.value.sign == s[..a] && m.value.integer == s[a..b] && m.value.decimal + m.value.suffix == s[b..]
  {
    SplitTail(s, b, DecimalEnd(s, b));
  }

  lemma SplitTail(s: string, b: nat, c: nat)
    requires b <= c <= |s| && '\n' !in s[b..]
    ensures s[b..c] + s[c..] == s[b..] && '\n' !in s[c..]
  {
    assert s[c..] == s[b..][c - b..];
  }

  lemma PreprocessedThere(sign: string, gs: seq<string>, tail: string)
    requires Sign(sign) && Groups(gs) && |gs| >= 2 && Trailer(tail)
    ensures Preprocessed(sign + Grouped(gs) + tail) == (sign + Plain(gs) + tail, Some(Lengths(gs)))
  {
    var s := sign + Grouped(gs) + tail;
    FindsTheNumber(sign, gs, tail);
    assert s[|sign|..|sign| + |Grouped(gs)|] == Grouped(gs);
    IntervalsAreLengths(gs);
    ErasesToPlain(gs);
    EraseThree(sign, Grouped(gs), tail);
    EraseNothing(sign);
    EraseNothing(tail);
  }

  lemma FormattedThere(sign: string, d: string, tail: string, ivs: seq<nat>)
    requires Sign(sign) && d != [] && Digits(d) && Trailer(tail) && ivs != [] && ivs[|ivs| - 1] > 0
    ensures Formatted(sign + d + tail, ivs) == sign + Group(d, ivs, 0) + tail
  {
    SplitsThere(sign + d + tail, sign, d, tail);
  }

  lemma RegroupWhole(sign: string, gs: seq<string>, tail: string)
    requires Sign(sign) && Groups(gs) && |gs| >= 2 && Trailer(tail)
    ensures Formatted(sign + Plain(gs) + tail, Lengths(gs)) == sign + Grouped(gs) + tail <==>
              |gs[0]| <= |gs[1]|
  {
    ErasesToPlain(gs);
    RegroupAll(gs);
    FormattedThere(sign, Plain(gs), tail, Lengths(gs));
    Cancel(sign, Group(Plain(gs), Lengths(gs), 0), Grouped(gs), tail);
  }

  /** Reading the group lengths off a grouped number, erasing its commas and
      formatting again restores it exactly when its leading group is no longer
      than the group after it. */
  lemma GroupingRoundTrip(sign: string, gs: seq<string>, tail: string)
    requires Sign(sign) && Groups(gs) && |gs| >= 2 && Trailer(tail)
    ensures var s := sign + Grouped(gs) + tail;
            var r := Preprocessed(s);
            r.1.Some? && (Formatted(r.0, r.1.value) == s <==> |gs[0]| <= |gs[1]|)
  {
    PreprocessedThere(sign, gs, tail);
    RegroupWhole(sign, gs, tail);
  }

  // -------------------------------------------------------------- stability

  predicate PositiveNonIncreasing(ivs: seq<nat>) {
    && ivs != []
    && (forall i :: 0 <= i < |ivs| ==> ivs[i] > 0)
    && (forall i :: 0 < i < |ivs| ==> ivs[i] <= ivs[i - 1])
  }

  /** The groups `Group` makes. */
  function Blocks(d: string, ivs: seq<nat>, i: nat): (gs: seq<string>)
    requires ivs != [] && ivs[|ivs| - 1] > 0
    ensures gs != []
    decreases |d|, |ivs| - i
  {
    var n := Interval(ivs, i);
    if |d| <= n || n == 0 then [d] else Blocks(Chop(d, n), ivs, i + 1) + [LastN(d, n)]
  }

  lemma AddGroup(front: seq<string>, g: string)
    requires Groups(front) && g != [] && Digits(g)
    ensures var gs := front + [g];
            Groups(gs) && Plain(gs) == Plain(front) + g && Grouped(gs) == Grouped(front) + [','] + g
  {
    assert (front + [g])[..|front|] == front;
  }

  /** Grouping is spelling the blocks with commas between them. */
  lemma {:induction false} BlocksAreGroups(d: string, ivs: seq<nat>, i: nat)
    requires PositiveNonIncreasing(ivs) && d != [] && Digits(d)
    ensures var gs := Blocks(d, ivs, i); Groups(gs) && Plain(gs) == d && Group(d, ivs, i) == Grouped(gs)
    decreases |d|
  {
    var n := Interval(ivs, i);
    if |d| <= n {
      OneGroup([d]);
    } else {
      BlocksAreGroups(Chop(d, n), ivs, i + 1);
      ChopAndLast(d, n);
      AddGroup(Blocks(Chop(d, n), ivs, i + 1), LastN(d, n));
    }
  }

  lemma {:induction false} LeadingBlockFits(d: string, ivs: seq<nat>, i: nat)
    requires PositiveNonIncreasing(ivs) && d != []
    ensures var gs := Blocks(d, ivs, i);
            && |gs[0]| <= Interval(ivs, i)
            && (|gs| >= 2 ==> |gs[0]| <= |gs[1]|)
    decreases |d|
  {
    var n := Interval(ivs, i);
    if |d| > n {
      LeadingBlockFits(Chop(d, n), ivs, i + 1);
    }
  }

  /** Formatting a number, re-reading the intervals from the output and
      formatting again changes nothing, for positive non-increasing intervals. */
  lemma ReformattingIsStable(sign: string, d: string, tail: string, ivs: seq<nat>)
    requires Sign(sign) && d != [] && Digits(d) && Trailer(tail) && PositiveNonIncreasing(ivs)
    ensures var out := Formatted(sign + d + tail, ivs);
            var r := Preprocessed(out);
            && r.0 == sign + d + tail
            && (if r.1.Some? then Formatted(r.0, r.1.value) == out else r.0 == out)
  {
    var gs := Blocks(d, ivs, 0);
    BlocksAreGroups(d, ivs, 0);
    LeadingBlockFits(d, ivs, 0);
    FormattedThere(sign, d, tail, ivs);
    if |gs| >= 2 {
      PreprocessedThere(sign, gs, tail);
      RegroupWhole(sign, gs, tail);
    } else {
      var out := sign + d + tail;
      assert gs == [gs[0]] && Plain(gs[..0]) == [];
      EraseNothing(out);
      NoGroups(out, 0);
    }
  }

  lemma {:induction false} NoGroups(s: string, i: nat)
    requires ',' !in s && i <= |s|
    ensures FindGrouped(s, i) == None
    decreases |s| - i
  {
    if i < |s| {
      NoGroups(s, i + 1);
    }
  }
}
