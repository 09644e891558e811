/** Cycling the letter case of the last expansion (core/src/engine/case_cycle.rs). */
module CaseCycle {
  import opened Text

  const CASE_CYCLE_WINDOW: nat := 5000

  datatype CaseVariant = Original | Sentence | Title | Upper | Lower

  datatype CycleDirection = Next | Prev

  const CASE_CYCLE_ORDER: seq<CaseVariant> := [Original, Sentence, Title, Upper, Lower]

  /** Unicode case mapping, kept abstract. */
  datatype CaseTable = CaseTable(
    spaces: set<char>,
    letters: set<char>,
    upperChar: char -> string,
    upper: string -> string,
    lower: string -> string)

  /** Where the first letter stands, or the length of the text without one. */
  function FirstLetter(ct: CaseTable, text: string): (i: nat)
    ensures i <= |text|
  {
    if text == [] || text[0] in ct.letters then 0 else 1 + FirstLetter(ct, text[1..])
  }

  /** The first letter of the text in upper case, and nothing else changed. */
  function SentenceCase(ct: CaseTable, text: string): string {
    var i := FirstLetter(ct, text);
    if i == |text| then text else text[..i] + ct.upperChar(text[i]) + text[i + 1..]
  }

  function TitlePiece(ct: CaseTable, c: char, newWord: bool): string {
    if c !in ct.spaces && newWord && c in ct.letters then ct.upperChar(c) else [c]
  }

  /** A letter that whitespace or the start precedes in upper case. */
  function TitleCase(ct: CaseTable, text: string, newWord: bool): string {
    if text == [] then []
    else TitlePiece(ct, text[0], newWord) + TitleCase(ct, text[1..], text[0] in ct.spaces)
  }

  function RenderCase(ct: CaseTable, text: string, v: CaseVariant): string {
    match v
    case Original => text
    case Upper => ct.upper(text)
    case Lower => ct.lower(text)
    case Sentence => SentenceCase(ct, text)
    case Title => TitleCase(ct, text, true)
  }

  lemma {:induction false} FirstLetterMeaning(ct: CaseTable, text: string)
    ensures var i := FirstLetter(ct, text);
            (i < |text| ==> text[i] in ct.letters) && forall k :: 0 <= k < i ==> text[k] !in ct.letters
  {
    if text != [] && text[0] !in ct.letters {
      FirstLetterMeaning(ct, text[1..]);
      assert forall k :: 0 < k < |text| ==> text[k] == text[1..][k - 1];
    }
  }

  /** Sentence case changes the first letter and nothing else. */
  lemma SentenceChangesFirstLetter(ct: CaseTable, text: string, i: nat)
    requires i <= |text| && (forall k :: 0 <= k < i ==> text[k] !in ct.letters)
    ensures i == |text| ==> SentenceCase(ct, text) == text
    ensures i < |text| && text[i] in ct.letters ==>
              SentenceCase(ct, text) == text[..i] + ct.upperChar(text[i]) + text[i + 1..]
  {
    FirstLetterMeaning(ct, text);
  }

  method RenderSentence(ct: CaseTable, text: string) returns (out: string)
    ensures out == SentenceCase(ct, text)
  {
    out := [];
    var didFirst := false;
    ghost var first := FirstLetter(ct, text);
    FirstLetterMeaning(ct, text);
    for i := 0 to |text|
      invariant didFirst <==> first < i
      invariant out == if didFirst then text[..first] + ct.upperChar(text[first]) + text[first + 1..i] else text[..i]
    {
      var ch := text[i];
      if !didFirst && ch in ct.letters {
        out := out + ct.upperChar(ch);
        didFirst := true;
        assert text[first + 1..i + 1] == [];
      } else {
        if didFirst {
          assert text[first + 1..i + 1] == text[first + 1..i] + [ch];
        }
        out := out + [ch];
      }
    }
    assert text[..|text|] == text;
    assert first < |text| ==> text[first + 1..|text|] == text[first + 1..];
  }

  /** What title case makes of the i-th character: a letter that whitespace or the
      start precedes in upper case, anything else itself. */
  function TitleAt(ct: CaseTable, text: string, i: nat): string
    requires i < |text|
  {
    if text[i] in ct.letters && text[i] !in ct.spaces && (i == 0 || text[i - 1] in ct.spaces) then ct.upperChar(text[i])
    else [text[i]]
  }

  function TitleUpTo(ct: CaseTable, text: string, n: nat): string
    requires n <= |text|
  {
    if n == 0 then [] else TitleUpTo(ct, text, n - 1) + TitleAt(ct, text, n - 1)
  }

  lemma {:induction false} TitleFrom(ct: CaseTable, text: string, i: nat)
    requires i <= |text|
    ensures TitleUpTo(ct, text, |text|)
         == TitleUpTo(ct, text, i) + TitleCase(ct, text[i..], i == 0 || text[i - 1] in ct.spaces)
    decreases |text| - i
  {
    if i < |text| {
      TitleFrom(ct, text, i + 1);
      TitleStep(ct, text, i);
      Associative(TitleUpTo(ct, text, i), TitleAt(ct, text, i), TitleCase(ct, text[i + 1..], text[i] in ct.spaces));
    }
  }

  lemma TitleStep(ct: CaseTable, text: string, i: nat)
    requires i < |text|
    ensures TitleCase(ct, text[i..], i == 0 || text[i - 1] in ct.spaces)
         == TitleAt(ct, text, i) + TitleCase(ct, text[i + 1..], text[i] in ct.spaces)
  {
    var rest := text[i..];
    assert rest[0] == text[i] && rest[1..] == text[i + 1..];
  }

  /** Title case changes the letters that begin words and nothing else. */
  lemma TitleChangesFirstLetters(ct: CaseTable, text: string)
    ensures TitleCase(ct, text, true) == TitleUpTo(ct, text, |text|)
  {
    TitleFrom(ct, text, 0);
    assert text[0..] == text;
  }

  method RenderTitle(ct: CaseTable, text: string) returns (out: string)
    ensures out == TitleCase(ct, text, true)
  {
    out := [];
    var newWord := true;
    for i := 0 to |text|
      invariant TitleCase(ct, text, true) == out + TitleCase(ct, text[i..], newWord)
    {
      assert text[i..][1..] == text[i + 1..];
      var ch := text[i];
      Associative(out, TitlePiece(ct, ch, newWord), TitleCase(ct, text[i + 1..], ch in ct.spaces));
      if ch in ct.spaces {
        newWord := true;
        out := out + [ch];
      } else if newWord && ch in ct.letters {
        out := out + ct.upperChar(ch);
        newWord := false;
      } else {
        out := out + [ch];
        newWord := false;
      }
    }
  }

  method Render(ct: CaseTable, text: string, v: CaseVariant) returns (r: string)
    ensures r == RenderCase(ct, text, v)
  {
    match v
    case Original => r := text;
    case Upper => r := ct.upper(text);
    case Lower => r := ct.lower(text);
    case Sentence => r := RenderSentence(ct, text);
    case Title => r := RenderTitle(ct, text);
  }

  // ---------------------------------------------------------------- cycling

  function Index(v: CaseVariant): (i: nat)
    ensures i < 5 && CASE_CYCLE_ORDER[i] == v
  {
    match v
    case Original => 0
    case Sentence => 1
    case Title => 2
    case Upper => 3
    case Lower => 4
  }

  function Opposite(dir: CycleDirection): CycleDirection {
    if dir.Next? then Prev else Next
  }

  /** One step round the ring of variants. */
  function Step(v: CaseVariant, dir: CycleDirection): (w: CaseVariant)
    ensures w != v
  {
    match v
    case Original => if dir.Next? then Sentence else Lower
    case Sentence => if dir.Next? then Title else Original
    case Title => if dir.Next? then Upper else Sentence
    case Upper => if dir.Next? then Lower else Title
    case Lower => if dir.Next? then Original else Upper
  }

  /** The variant k steps away from v. */
  function Away(v: CaseVariant, dir: CycleDirection, k: nat): CaseVariant {
    if k == 0 then v else Step(Away(v, dir, k - 1), dir)
  }

  /** The modular index of the array is the ring. */
  lemma StepIsModular(i: nat, dir: CycleDirection)
    requires i < 5
    ensures CASE_CYCLE_ORDER[(i + if dir.Next? then 1 else -1) % 5] == Step(CASE_CYCLE_ORDER[i], dir)
  {
    assert i == 0 || i == 1 || i == 2 || i == 3 || i == 4;
  }

  lemma IndexOfOrder(i: nat, v: CaseVariant)
    requires i < 5
    ensures CASE_CYCLE_ORDER[i] == v <==> i == Index(v)
  {
    assert i == 0 || i == 1 || i == 2 || i == 3 || i == 4;
  }

  /** One step of the search: the next index, which is back at the start exactly
      after five steps. */
  method NextIndex(i: nat, dir: CycleDirection, v: CaseVariant, ghost k: nat) returns (j: nat)
    requires i < 5 && k < 5 && CASE_CYCLE_ORDER[i] == Away(v, dir, k)
    ensures j < 5 && CASE_CYCLE_ORDER[j] == Away(v, dir, k + 1)
    ensures j == Index(v) <==> k + 1 == 5
  {
    var step := if dir.Next? then 1 else -1;
    StepIsModular(i, dir);
    j := (i + step) % 5;
    Closes(v, dir, k + 1);
    IndexOfOrder(j, v);
  }

  lemma StepInverse(v: CaseVariant, dir: CycleDirection)
    ensures Step(Step(v, dir), Opposite(dir)) == v
  {
  }

  lemma {:induction false} AwayAway(v: CaseVariant, dir: CycleDirection, a: nat, b: nat)
    ensures Away(Away(v, dir, a), dir, b) == Away(v, dir, a + b)
  {
    if b > 0 {
      AwayAway(v, dir, a, b - 1);
    }
  }

  /** The lap, spelled out: five steps close it, and no fewer do. */
  lemma Laps(v: CaseVariant, dir: CycleDirection)
    ensures Away(v, dir, 0) == v
    ensures Away(v, dir, 1) == Step(v, dir)
    ensures Away(v, dir, 2) == Step(Step(v, dir), dir)
    ensures Away(v, dir, 3) == Step(Step(Step(v, dir), dir), dir)
    ensures Away(v, dir, 4) == Step(v, Opposite(dir))
    ensures Away(v, dir, 5) == v
  {
    assert Away(v, dir, 0) == v;
    assert Away(v, dir, 1) == Step(v, dir);
    assert Away(v, dir, 2) == Step(Step(v, dir), dir);
    assert Away(v, dir, 3) == Step(Step(Step(v, dir), dir), dir);
    assert Away(v, dir, 4) == Step(v, Opposite(dir));
  }

  lemma Closes(v: CaseVariant, dir: CycleDirection, k: nat)
    requires 1 <= k <= 5
    ensures Away(v, dir, k) == v <==> k == 5
  {
    Laps(v, dir);
  }

  lemma Distance(v: CaseVariant, w: CaseVariant, dir: CycleDirection) returns (k: nat)
    ensures k < 5 && Away(v, dir, k) == w
  {
    Laps(v, dir);
    k := if w == v then 0
         else if w == Step(v, dir) then 1
         else if w == Step(Step(v, dir), dir) then 2
         else if w == Step(v, Opposite(dir)) then 4
         else 3;
  }

  /** How a text looks in each variant. */
  type Look = CaseVariant -> string

  function LookOf(ct: CaseTable, text: string): Look {
    v => RenderCase(ct, text, v)
  }

  /** The first variant at least k steps away that looks different from v, or
      Original once the lap is complete. */
  function FirstDifferent(look: Look, v: CaseVariant, dir: CycleDirection, k: nat): CaseVariant
    decreases 5 - k
  {
    if k >= 5 then Original
    else if look(Away(v, dir, k)) != look(v) then Away(v, dir, k)
    else FirstDifferent(look, v, dir, k + 1)
  }

  function Advanced(look: Look, v: CaseVariant, dir: CycleDirection): CaseVariant {
    FirstDifferent(look, v, dir, 1)
  }

  class CaseCycleSession {
    var originalText: string
    var currentText: string
    var variant: CaseVariant
    var enteredAt: nat
    var engaged: bool

    ghost predicate Valid(ct: CaseTable)
      reads this
    {
      currentText == RenderCase(ct, originalText, variant)
    }

    constructor (ct: CaseTable, original: string, now: nat)
      ensures Valid(ct) && originalText == original && variant == Original
      ensures enteredAt == now && !engaged
    {
      originalText := original;
      currentText := original;
      variant := Original;
      enteredAt := now;
      engaged := false;
    }

    predicate IsReady(now: nat)
      reads this
    {
      engaged || (if now < enteredAt then 0 else now - enteredAt) < CASE_CYCLE_WINDOW
    }

    method Advance(ct: CaseTable, dir: CycleDirection) returns (text: string)
      requires Valid(ct)
      modifies this
      ensures Valid(ct) && engaged && text == currentText
      ensures originalText == old(originalText) && enteredAt == old(enteredAt)
      ensures variant == Advanced(LookOf(ct, originalText), old(variant), dir)
    {
      var start := Index(variant);
      var i := start;
      ghost var k := 0;
      ghost var look := LookOf(ct, originalText);
      while true
        invariant unchanged(this)
        invariant 0 <= k < 5 && 0 <= i < 5 && CASE_CYCLE_ORDER[i] == Away(variant, dir, k)
        invariant Advanced(look, variant, dir) == FirstDifferent(look, variant, dir, k + 1)
        decreases 5 - k
      {
        i := NextIndex(i, dir, variant, k);
        k := k + 1;
        var rendered := Render(ct, originalText, CASE_CYCLE_ORDER[i]);
        if i == start {
          variant := Original;
          currentText := originalText;
          engaged := true;
          return currentText;
        }
        if rendered != currentText {
          variant := CASE_CYCLE_ORDER[i];
          currentText := rendered;
          engaged := true;
          return currentText;
        }
      }
    }
  }

  // ------------------------------------------------------------------- laws

  ghost predicate Constant(look: Look, v: CaseVariant) {
    forall w :: look(w) == look(v)
  }

  lemma {:induction false} SearchMeaning(look: Look, v: CaseVariant, dir: CycleDirection, k: nat)
    returns (j: nat)
    requires 1 <= k <= 5
    requires forall i :: 0 <= i < k ==> look(Away(v, dir, i)) == look(v)
    ensures k <= j <= 5
    ensures forall i :: 0 <= i < j ==> look(Away(v, dir, i)) == look(v)
    ensures var w := FirstDifferent(look, v, dir, k);
            if j < 5 then w == Away(v, dir, j) && look(w) != look(v) else w == Original && Constant(look, v)
    decreases 5 - k
  {
    if k == 5 {
      forall w: CaseVariant
        ensures look(w) == look(v)
      {
        var d := Distance(v, w, dir);
      }
      j := 5;
    } else if look(Away(v, dir, k)) != look(v) {
      j := k;
    } else {
      j := SearchMeaning(look, v, dir, k + 1);
    }
  }

  /** A press changes the text exactly when some variant looks different. */
  lemma AdvanceChangesText(look: Look, v: CaseVariant, dir: CycleDirection)
    ensures look(Advanced(look, v, dir)) != look(v) <==> !Constant(look, v)
  {
    var j := SearchMeaning(look, v, dir, 1);
  }

  /** A press in the other direction restores the displayed text. */
  lemma OppositeRestores(look: Look, v: CaseVariant, dir: CycleDirection)
    ensures var w := Advanced(look, v, dir); look(Advanced(look, w, Opposite(dir))) == look(v)
  {
    var j := SearchMeaning(look, v, dir, 1);
    var w := Advanced(look, v, dir);
    if j < 5 {
      StepInverse(Away(v, dir, j - 1), dir);
      assert Away(w, Opposite(dir), 1) == Away(v, dir, j - 1);
    } else {
      AdvanceChangesText(look, w, Opposite(dir));
    }
  }

  function Presses(look: Look, v: CaseVariant, dir: CycleDirection, n: nat): CaseVariant
    decreases n
  {
    if n == 0 then v else Presses(look, Advanced(look, v, dir), dir, n - 1)
  }

  /** The rendering m steps away is reached within m presses. */
  lemma {:induction false} ReachAway(look: Look, v: CaseVariant, dir: CycleDirection, m: nat) returns (n: nat)
    requires m < 5
    ensures n <= m
    ensures look(Presses(look, v, dir, n)) == look(Away(v, dir, m))
    decreases m
  {
    var j := SearchMeaning(look, v, dir, 1);
    if m < j {
      n := 0;
    } else {
      AwayAway(v, dir, j, m - j);
      n := ReachAway(look, Away(v, dir, j), dir, m - j);
      n := n + 1;
    }
  }

  /** At most four presses show any given rendering. */
  lemma FourPressesReachAll(look: Look, v: CaseVariant, dir: CycleDirection, w: CaseVariant)
    ensures exists n: nat :: n <= 4 && look(Presses(look, v, dir, n)) == look(w)
  {
    var k := Distance(v, w, dir);
    var n := ReachAway(look, v, dir, k);
  }

  /** When all five renderings look different, Next shows them in this order. */
  lemma NextShowsAllInOrder(look: Look)
    requires forall v, w :: v != w ==> look(v) != look(w)
    ensures Presses(look, Original, Next, 1) == Sentence && Presses(look, Original, Next, 2) == Title
    ensures Presses(look, Original, Next, 3) == Upper && Presses(look, Original, Next, 4) == Lower
    ensures Presses(look, Original, Next, 5) == Original
  {
    forall v: CaseVariant
      ensures Advanced(look, v, Next) == Step(v, Next)
    {
      assert Away(v, Next, 0) == v && Away(v, Next, 1) == Step(v, Next);
    }
    assert Presses(look, Lower, Next, 1) == Original;
    assert Presses(look, Upper, Next, 2) == Original && Presses(look, Upper, Next, 1) == Lower;
    assert Presses(look, Title, Next, 2) == Lower && Presses(look, Title, Next, 1) == Upper;
    assert Presses(look, Title, Next, 3) == Original;
  }

  /** What each variant shows. */
  lemma LooksOf(ct: CaseTable, text: string)
    ensures LookOf(ct, text)(Original) == text
    ensures LookOf(ct, text)(Upper) == ct.upper(text) && LookOf(ct, text)(Lower) == ct.lower(text)
    ensures LookOf(ct, text)(Title) == TitleUpTo(ct, text, |text|)
    ensures forall i :: 0 <= i < |text| && text[i] in ct.letters && (forall k :: 0 <= k < i ==> text[k] !in ct.letters) ==>
              LookOf(ct, text)(Sentence) == text[..i] + ct.upperChar(text[i]) + text[i + 1..]
  {
    TitleChangesFirstLetters(ct, text);
    forall i | 0 <= i < |text| && text[i] in ct.letters && (forall k :: 0 <= k < i ==> text[k] !in ct.letters)
      ensures LookOf(ct, text)(Sentence) == text[..i] + ct.upperChar(text[i]) + text[i + 1..]
    {
      SentenceChangesFirstLetter(ct, text, i);
    }
  }
}
