/** How the engine reads quotes and triggers out of the typed text
    (core/src/engine/buffer.rs, the scans): a quote mark preceded by an odd run
    of backslashes is literal, any other opens or closes a quotation, and a
    mark of the other kind inside a quotation is text. The engine reads once
    forwards and twice backwards; this module relates the readings. */
module QuoteScan {
  import opened Text

  predicate IsQuote(c: char) {
    c == '"' || c == '\''
  }

  /** The number of consecutive backslashes that end just before i. */
  function BackslashRun(v: string, i: nat): (n: nat)
    requires i <= |v|
    ensures n <= i
  {
    if i > 0 && v[i - 1] == '\\' then 1 + BackslashRun(v, i - 1) else 0
  }

  predicate Escaped(v: string, i: nat)
    requires i <= |v|
  {
    BackslashRun(v, i) % 2 != 0
  }

  /** The left-to-right escape automaton: true when a backslash that is not
      itself escaped precedes i. */
  predicate EscapeState(v: string, i: nat)
    requires i <= |v|
  {
    i > 0 && v[i - 1] == '\\' && !EscapeState(v, i - 1)
  }

  lemma {:induction false} RunParityIsAutomaton(v: string, i: nat)
    requires i <= |v|
    ensures Escaped(v, i) == EscapeState(v, i)
  {
    if i > 0 {
      RunParityIsAutomaton(v, i - 1);
    }
  }

  /** A quote mark that opens or closes a quotation. */
  predicate Live(v: string, i: nat)
    requires i < |v|
  {
    IsQuote(v[i]) && !Escaped(v, i)
  }

  function Toggle(q: Option<char>, c: char): Option<char> {
    match q
    case None => Some(c)
    case Some(d) => if d == c then None else q
  }

  /** The open quotation before position i, reading left to right. */
  function Forward(v: string, i: nat): Option<char>
    requires i <= |v|
  {
    if i == 0 then None
    else if Live(v, i - 1) then Toggle(Forward(v, i - 1), v[i - 1])
    else Forward(v, i - 1)
  }

  /** The open quotation after reading v[i..] right to left. */
  function Backward(v: string, i: nat): Option<char>
    requires i <= |v|
    decreases |v| - i
  {
    if i == |v| then None
    else if Live(v, i) then Toggle(Backward(v, i + 1), v[i])
    else Backward(v, i + 1)
  }

  /** The live marks are the double and the single quotes that the escape automaton
      does not have escaped. */
  lemma LiveMeans(v: string, i: nat)
    requires i < |v|
    ensures Live(v, i) <==> (v[i] == '"' || v[i] == '\'') && !EscapeState(v, i)
  {
    RunParityIsAutomaton(v, i);
  }

  /** Inside a quotation everything but its own mark is text: the mark of the
      other kind too. */
  lemma {:induction false} QuotationGoesOn(v: string, i: nat, j: nat, q: char)
    requires i <= j <= |v| && Forward(v, i) == Some(q)
    requires forall k :: i <= k < j ==> !(Live(v, k) && v[k] == q)
    ensures Forward(v, j) == Some(q)
    decreases j - i
  {
    if i < j {
      QuotationGoesOn(v, i, j - 1, q);
    }
  }

  /** A live mark outside quotations stands at i, and none of its kind between i
      and j. */
  predicate OpenedAt(v: string, i: nat, j: nat, q: char)
    requires j <= |v|
  {
    i < j && Live(v, i) && v[i] == q && Forward(v, i) == None && forall k :: i < k < j ==> !(Live(v, k) && v[k] == q)
  }

  lemma OpenedIsInside(v: string, i: nat, j: nat, q: char)
    requires j <= |v| && OpenedAt(v, i, j, q)
    ensures Forward(v, j) == Some(q)
  {
    assert Forward(v, i + 1) == Some(q);
    QuotationGoesOn(v, i + 1, j, q);
  }

  lemma {:induction false} InsideWasOpened(v: string, j: nat, q: char) returns (i: nat)
    requires j <= |v| && Forward(v, j) == Some(q)
    ensures OpenedAt(v, i, j, q)
  {
    if Forward(v, j - 1) == None {
      i := j - 1;
    } else {
      i := InsideWasOpened(v, j - 1, q);
    }
  }

  /** A position is inside a quotation exactly when a live mark outside quotations
      opened it and no live mark of that kind has come since. */
  lemma InsideMeans(v: string, j: nat, q: char)
    requires j <= |v|
    ensures Forward(v, j) == Some(q) <==> exists i :: OpenedAt(v, i, j, q)
  {
    if Forward(v, j) == Some(q) {
      var i := InsideWasOpened(v, j, q);
    }
    if i :| OpenedAt(v, i, j, q) {
      OpenedIsInside(v, i, j, q);
    }
  }

  lemma {:induction false} ClosedReadingsAgreeAt(v: string, i: nat)
    requires i <= |v| && Forward(v, |v|) == None
    ensures Forward(v, i) == Backward(v, i)
    decreases |v| - i
  {
    if i < |v| {
      ClosedReadingsAgreeAt(v, i + 1);
    }
  }

  /** The two directions agree at every position exactly when the forward
      reading ends outside any quotation. */
  lemma ReadingsAgree(v: string)
    ensures (forall i :: 0 <= i <= |v| ==> Forward(v, i) == Backward(v, i)) <==> Forward(v, |v|) == None
  {
    if Forward(v, |v|) == None {
      forall i | 0 <= i <= |v|
        ensures Forward(v, i) == Backward(v, i)
      {
        ClosedReadingsAgreeAt(v, i);
      }
    } else {
      assert Forward(v, |v|) != Backward(v, |v|);
    }
  }

  // ---------------------------------------------------------- trigger words

  /** Position i is outside quotations in the backward reading. */
  predicate Bare(v: string, i: nat)
    requires i < |v|
  {
    !Live(v, i) && Backward(v, i + 1) == None
  }

  predicate Gap(t: Table, v: string, i: nat)
    requires i < |v|
  {
    Bare(v, i) && t.space(v[i])
  }

  /** Whitespace that no trigger word may contain. */
  predicate Break(t: Table, v: string, i: nat)
    requires i < |v|
  {
    Gap(t, v, i) && v[i] != ' '
  }

  predicate Mark(t: Table, v: string, c: char, i: nat)
    requires i < |v|
  {
    Bare(v, i) && !t.space(v[i]) && v[i] == c
  }

  ghost predicate NoMark(t: Table, v: string, c: char, lo: nat, hi: nat)
    requires hi <= |v|
  {
    forall j :: lo <= j < hi ==> !Mark(t, v, c, j)
  }

  ghost predicate NoBreak(t: Table, v: string, lo: nat, hi: nat)
    requires hi <= |v|
  {
    forall j :: lo <= j < hi ==> !Break(t, v, j)
  }

  ghost predicate NoGap(t: Table, v: string, lo: nat, hi: nat)
    requires hi <= |v|
  {
    forall j :: lo <= j < hi ==> !Gap(t, v, j)
  }

  /** The trigger character at i starts the trigger word v[i + 1..]: it is the
      last bare one, the word has no bare whitespace but spaces, and another
      bare trigger further left is separated by bare whitespace. */
  ghost predicate TriggerAt(t: Table, v: string, c: char, i: nat) {
    && i < |v|
    && Mark(t, v, c, i)
    && NoMark(t, v, c, i + 1, |v|)
    && NoBreak(t, v, i + 1, |v|)
    && (forall j :: 0 <= j < i && Mark(t, v, c, j) ==> !NoGap(t, v, j + 1, i))
  }

  ghost function TriggerWord(t: Table, v: string, c: char): (r: Option<string>)
    ensures r.Some? ==> |r.value| < |v| && EndsWith(v, [c] + r.value)
                        && TriggerAt(t, v, c, |v| - 1 - |r.value|)
    ensures r.None? ==> forall i :: !TriggerAt(t, v, c, i)
  {
    if i: nat :| TriggerAt(t, v, c, i) then
      assert v[i..] == [c] + v[i + 1..];
      Some(v[i + 1..])
    else None
  }

  lemma TriggerUnique(t: Table, v: string, c: char, i: nat, j: nat)
    requires TriggerAt(t, v, c, i) && TriggerAt(t, v, c, j)
    ensures i == j
  {
  }

  /** The counting scan: the triggers it finds in v[..p], added to `count`. */
  function CountFrom(t: Table, v: string, c: char, p: nat, count: nat): nat
    requires p <= |v|
  {
    if p == 0 then count
    else if Gap(t, v, p - 1) && (v[p - 1] != ' ' || count > 0) then count
    else CountFrom(t, v, c, p - 1, if Mark(t, v, c, p - 1) then count + 1 else count)
  }

  /** The collecting scan: where the word it collects from v[..p] starts. */
  function WordFrom(t: Table, v: string, c: char, p: nat): (r: Option<nat>)
    requires p <= |v|
    ensures r.Some? ==> r.value <= p
  {
    if p == 0 || Break(t, v, p - 1) then None
    else if Mark(t, v, c, p - 1) then Some(p)
    else WordFrom(t, v, c, p - 1)
  }

  function ScannedWord(t: Table, v: string, c: char): Option<string> {
    if CountFrom(t, v, c, |v|, 0) > 1 then None else Collected(v, WordFrom(t, v, c, |v|))
  }

  function Collected(v: string, p: Option<nat>): Option<string>
    requires p.Some? ==> p.value <= |v|
  {
    if p.None? then None else Some(v[p.value..])
  }

  /** Having met one mark, the scan counts another exactly when there is one
      further left before any gap. */
  lemma {:induction false} CountAfterMark(t: Table, v: string, c: char, p: nat, i: nat)
    requires p <= i < |v| && NoMark(t, v, c, p, i) && NoGap(t, v, p, i)
    ensures CountFrom(t, v, c, p, 1) > 1 <==> exists j :: 0 <= j < i && Mark(t, v, c, j) && NoGap(t, v, j + 1, i)
  {
    if p > 0 {
      if Mark(t, v, c, p - 1) {
        CountGrows(t, v, c, p - 1, 2);
      } else if !Gap(t, v, p - 1) {
        CountAfterMark(t, v, c, p - 1, i);
      }
    }
  }

  lemma {:induction false} CountGrows(t: Table, v: string, c: char, p: nat, count: nat)
    requires p <= |v|
    ensures CountFrom(t, v, c, p, count) >= count
  {
    if p > 0 {
      CountGrows(t, v, c, p - 1, count);
      CountGrows(t, v, c, p - 1, count + 1);
    }
  }

  lemma {:induction false} ScansDecide(t: Table, v: string, c: char, p: nat)
    requires p <= |v| && NoMark(t, v, c, p, |v|) && NoBreak(t, v, p, |v|)
    ensures match WordFrom(t, v, c, p)
            case None => forall i :: !TriggerAt(t, v, c, i)
            case Some(q) => q > 0 && (TriggerAt(t, v, c, q - 1) <==> CountFrom(t, v, c, p, 0) <= 1)
                                  && (forall i :: TriggerAt(t, v, c, i) ==> i == q - 1)
  {
    if p > 0 && !Break(t, v, p - 1) {
      if Mark(t, v, c, p - 1) {
        CountAfterMark(t, v, c, p - 1, p - 1);
      } else {
        ScansDecide(t, v, c, p - 1);
      }
    }
  }

  /** The two scans together find exactly the trigger words. */
  lemma ScannedIsTriggerWord(t: Table, v: string, c: char)
    ensures ScannedWord(t, v, c) == TriggerWord(t, v, c)
  {
    ScansDecide(t, v, c, |v|);
  }

  /** In a text whose quotations are all closed, the trigger character that is
      found is outside quotations in the forward reading too. */
  lemma TriggerIsOutsideQuotes(t: Table, v: string, c: char)
    requires Forward(v, |v|) == None && TriggerWord(t, v, c).Some?
    ensures var i := |v| - 1 - |TriggerWord(t, v, c).value|;
            v[i] == c && !Live(v, i) && Forward(v, i) == None
  {
    var i := |v| - 1 - |TriggerWord(t, v, c).value|;
    ClosedReadingsAgreeAt(v, i + 1);
  }

  lemma {:induction false} NoQuotesNoState(v: string, i: nat)
    requires i <= |v| && forall j :: i <= j < |v| ==> !IsQuote(v[j])
    ensures Backward(v, i) == None
    decreases |v| - i
  {
    if i < |v| {
      NoQuotesNoState(v, i + 1);
    }
  }

  predicate SpaceBetween(t: Table, v: string, j: nat, i: nat)
    requires i < |v|
  {
    exists k :: j < k < i && t.space(v[k])
  }

  /** In a text without quotes: the character at i is the last trigger, no
      whitespace but spaces follows it, and whitespace separates it from every
      other. */
  predicate PlainTrigger(t: Table, v: string, c: char, i: nat) {
    && i < |v| && v[i] == c
    && (forall j :: i < j < |v| ==> v[j] != c && (t.space(v[j]) ==> v[j] == ' '))
    && (forall j :: 0 <= j < i && v[j] == c ==> SpaceBetween(t, v, j, i))
  }

  lemma QuoteFreeGap(t: Table, v: string, i: nat)
    requires i < |v| && forall j :: 0 <= j < |v| ==> !IsQuote(v[j])
    ensures Bare(v, i) && (Gap(t, v, i) <==> t.space(v[i]))
  {
    NoQuotesNoState(v, i + 1);
  }

  /** Without quotes that is exactly where the trigger word starts. */
  lemma QuoteFreeTrigger(t: Table, v: string, c: char, i: nat)
    requires !t.space(c) && forall j :: 0 <= j < |v| ==> !IsQuote(v[j])
    ensures TriggerAt(t, v, c, i) <==> PlainTrigger(t, v, c, i)
  {
    if i < |v| {
      forall j | 0 <= j < |v|
        ensures Bare(v, j) && (Gap(t, v, j) <==> t.space(v[j]))
      {
        QuoteFreeGap(t, v, j);
      }
      assert forall j :: 0 <= j < |v| ==> (Mark(t, v, c, j) <==> v[j] == c);
      assert forall j :: 0 <= j < |v| ==> (Break(t, v, j) <==> t.space(v[j]) && v[j] != ' ');
      forall j | 0 <= j < i
        ensures NoGap(t, v, j + 1, i) <==> !SpaceBetween(t, v, j, i)
      {
        GapsBetween(t, v, j, i);
      }
    }
  }

  lemma GapsBetween(t: Table, v: string, j: nat, i: nat)
    requires j < i < |v| && forall k :: 0 <= k < |v| ==> (Gap(t, v, k) <==> t.space(v[k]))
    ensures NoGap(t, v, j + 1, i) <==> !SpaceBetween(t, v, j, i)
  {
    if k :| j < k < i && t.space(v[k]) {
      assert Gap(t, v, k);
    }
  }

  lemma PlainTriggerAt(t: Table, v: string, c: char)
    requires v != [] && v[0] == c && !IsQuote(c) && !t.space(c)
    requires forall j :: 1 <= j < |v| ==> !IsQuote(v[j]) && !t.space(v[j]) && v[j] != c
    ensures TriggerAt(t, v, c, 0)
  {
    NoQuotesNoState(v, 1);
    assert Mark(t, v, c, 0);
    assert NoMark(t, v, c, 1, |v|);
    assert NoBreak(t, v, 1, |v|);
  }

  /** The plain case: a word without quotes, whitespace or another trigger. */
  lemma PlainTriggerWord(t: Table, c: char, w: string)
    requires !IsQuote(c) && !t.space(c)
    requires forall j :: 0 <= j < |w| ==> !IsQuote(w[j]) && !t.space(w[j]) && w[j] != c
    ensures TriggerWord(t, [c] + w, c) == Some(w)
  {
    var v := [c] + w;
    PlainTriggerAt(t, v, c);
    var r := TriggerWord(t, v, c).value;
    TriggerUnique(t, v, c, 0, |v| - 1 - |r|);
    assert v == [c] + r && v[1..] == w && ([c] + r)[1..] == r;
  }
}
