/** Digit grouping (core/src/engine/comma.rs): `Preprocess` reads the group
    lengths of the first grouped number and erases every comma,
    `FormatResult` groups the number a result starts with. */
module Comma {
  import opened Text

  predicate Digits(s: string) {
    forall i :: 0 <= i < |s| ==> Digit(s[i])
  }

  function Erase(s: string): string {
    if s == [] then []
    else if s[0] == ',' then Erase(s[1..])
    else [s[0]] + Erase(s[1..])
  }

  // ------------------------------------------------------------ preprocess

  function DigitsEnd(s: string, i: nat): (e: nat)
    requires i <= |s|
    ensures i <= e <= |s|
    decreases |s| - i
  {
    if i < |s| && Digit(s[i]) then DigitsEnd(s, i + 1) else i
  }

  /** The end of the groups that follow the digit run that ends at e. */
  function GroupsEnd(s: string, e: nat): (g: nat)
    requires e <= |s|
    ensures e <= g <= |s|
    decreases |s| - e
  {
    if e + 1 < |s| && s[e] == ',' && Digit(s[e + 1]) then GroupsEnd(s, DigitsEnd(s, e + 1)) else e
  }

  /** The first match of `[0-9]+(?:,[0-9]+)+` that starts at i or later. */
  function FindGrouped(s: string, i: nat): (r: Option<(nat, nat)>)
    requires i <= |s|
    ensures r.Some? ==> i <= r.value.0 < r.value.1 <= |s|
    decreases |s| - i
  {
    if i == |s| then None
    else
      var e := DigitsEnd(s, i);
      var g := GroupsEnd(s, e);
      if e > i && g > e then Some((i, g)) else FindGrouped(s, i + 1)
  }

  /** The lengths of the groups of m after its last `cur` digits, rightmost
      first, without the leading group. */
  function Intervals(m: string, cur: nat): (r: seq<nat>)
    ensures forall i :: 0 <= i < |r| ==> r[i] > 0
  {
    if m == [] then []
    else if Last(m) == ',' && cur > 0 then [cur] + Intervals(Init(m), 0)
    else if Last(m) == ',' then Intervals(Init(m), 0)
    else Intervals(Init(m), if Digit(Last(m)) then cur + 1 else cur)
  }

  function Preprocessed(input: string): (r: (string, Option<seq<nat>>))
    ensures r.1.Some? ==> r.1.value != [] && forall i :: 0 <= i < |r.1.value| ==> r.1.value[i] > 0
  {
    var found := FindGrouped(input, 0);
    var ivs := if found.None? then [] else Intervals(input[found.value.0..found.value.1], 0);
    (Erase(input), if ivs == [] then None else Some(ivs))
  }

  method EraseCommas(input: string) returns (cleaned: string)
    ensures cleaned == Erase(input)
  {
    cleaned := [];
    for i := 0 to |input|
      invariant Erase(input) == cleaned + Erase(input[i..])
    {
      var c := input[i];
      assert input[i..][0] == c && input[i..][1..] == input[i + 1..];
      if c != ',' {
        Associative(cleaned, [c], Erase(input[i + 1..]));
        cleaned := cleaned + [c];
      }
    }
  }

  method CountGroups(integerPart: string) returns (ivs: seq<nat>)
    ensures ivs == Intervals(integerPart, 0)
  {
    ivs := [];
    var currentLen: nat := 0;
    var i: nat := |integerPart|;
    assert integerPart[..i] == integerPart;
    while i > 0
      invariant i <= |integerPart|
      invariant Intervals(integerPart, 0) == ivs + Intervals(integerPart[..i], currentLen)
    {
      var c := integerPart[i - 1];
      assert Init(integerPart[..i]) == integerPart[..i - 1];
      if c == ',' {
        if currentLen > 0 {
          Associative(ivs, [currentLen], Intervals(integerPart[..i - 1], 0));
          ivs := ivs + [currentLen];
          currentLen := 0;
        }
      } else if Digit(c) {
        currentLen := currentLen + 1;
      }
      i := i - 1;
    }
  }

  method Preprocess(input: string) returns (cleaned: string, intervals: Option<seq<nat>>)
    ensures (cleaned, intervals) == Preprocessed(input)
  {
    var found := FindGrouped(input, 0);
    if found.Some? {
      var ivs := CountGroups(input[found.value.0..found.value.1]);
      intervals := if ivs == [] then None else Some(ivs);
    } else {
      intervals := None;
    }
    cleaned := EraseCommas(input);
  }

  // --------------------------------------------------------- format_result

  datatype Number = Number(sign: string, integer: string, decimal: string, suffix: string)

  function SignLength(s: string): nat {
    if s != [] && (s[0] == '+' || s[0] == '-') then 1 else 0
  }

  function DecimalEnd(s: string, b: nat): (c: nat)
    requires b <= |s|
    ensures b <= c <= |s|
  {
    if b + 1 < |s| && s[b] == '.' && Digit(s[b + 1]) then DigitsEnd(s, b + 1) else b
  }

  /** The match of `^([+-]?[0-9]+(?:\.[0-9]+)?)(.*)$`. */
  function SplitNumber(s: string): Option<Number> {
    var a := SignLength(s);
    var b := DigitsEnd(s, a);
    var c := DecimalEnd(s, b);
    if a == b || '\n' in s[c..] then None
    else Some(Number(s[..a], s[a..b], s[b..c], s[c..]))
  }

  function Interval(ivs: seq<nat>, i: nat): nat
    requires ivs != []
  {
    if i < |ivs| then ivs[i] else ivs[|ivs| - 1]
  }

  /** The digits that the i-th and later intervals take before the last one
      repeats. */
  function SumFrom(ivs: seq<nat>, i: nat): nat
    decreases |ivs| - i
  {
    if i >= |ivs| then 0 else ivs[i] + SumFrom(ivs, i + 1)
  }

  /** The intervals from the i-th on use up n digits: the last one, which repeats,
      is not zero, or those before it are enough. */
  predicate Enough(n: nat, ivs: seq<nat>, i: nat)
    requires ivs != []
  {
    ivs[|ivs| - 1] > 0 || n <= SumFrom(ivs, i)
  }

  /** The digits left of n after k rounds of the grouping loop. */
  function Left(n: nat, ivs: seq<nat>, i: nat, k: nat): nat
    requires ivs != []
    decreases k
  {
    if k == 0 then n
    else Left(if n <= Interval(ivs, i) then 0 else n - Interval(ivs, i), ivs, i + 1, k - 1)
  }

  lemma {:induction false} LeftImpliesEnough(n: nat, ivs: seq<nat>, i: nat, k: nat)
    requires ivs != [] && Left(n, ivs, i, k) == 0
    ensures Enough(n, ivs, i)
    decreases k
  {
    if k > 0 {
      LeftImpliesEnough(if n <= Interval(ivs, i) then 0 else n - Interval(ivs, i), ivs, i + 1, k - 1);
    }
  }

  lemma {:induction false} EnoughEnds(n: nat, ivs: seq<nat>, i: nat) returns (k: nat)
    requires ivs != [] && Enough(n, ivs, i)
    ensures Left(n, ivs, i, k) == 0
    decreases n, |ivs| - i
  {
    if n == 0 {
      k := 0;
    } else {
      k := EnoughEnds(if n <= Interval(ivs, i) then 0 else n - Interval(ivs, i), ivs, i + 1);
      k := k + 1;
    }
  }

  /** The grouping loop comes to its end exactly when the intervals are enough;
      an interval of zero that repeats with digits left goes round for ever. */
  lemma LoopEndsExactly(n: nat, ivs: seq<nat>)
    requires ivs != []
    ensures (exists k :: Left(n, ivs, 0, k) == 0) <==> Enough(n, ivs, 0)
  {
    if k :| Left(n, ivs, 0, k) == 0 {
      LeftImpliesEnough(n, ivs, 0, k);
    }
    if Enough(n, ivs, 0) {
      var k := EnoughEnds(n, ivs, 0);
    }
  }

  /** What `format_result` comes to an end on. */
  predicate Terminates(result: string, ivs: seq<nat>) {
    ivs == [] || SplitNumber(result).None? || Enough(|SplitNumber(result).value.integer|, ivs, 0)
  }

  /** Two pieces with a comma between them, unless one is missing. */
  function Joined(a: string, b: string): string {
    if a == [] || b == [] then a + b else a + [','] + b
  }

  lemma JoinedAssociative(a: string, b: string, c: string)
    ensures Joined(Joined(a, b), c) == Joined(a, Joined(b, c))
  {
    if a == [] {
      assert a + b == b && a + Joined(b, c) == Joined(b, c);
    } else if b == [] {
      assert a + b == a && b + c == c;
    } else if c == [] {
      assert b + c == b && Joined(a, b) + c == Joined(a, b);
    } else {
      assert a + [','] + b + [','] + c == a + [','] + (b + [','] + c);
    }
  }

  /** Groups d from the right, the i-th interval first. */
  function Group(d: string, ivs: seq<nat>, i: nat): (r: string)
    requires ivs != [] && Enough(|d|, ivs, i)
    ensures r == [] <==> d == []
    decreases |d|, |ivs| - i
  {
    var n := Interval(ivs, i);
    if |d| <= n then d else Joined(Group(Chop(d, n), ivs, i + 1), LastN(d, n))
  }

  function Formatted(result: string, ivs: seq<nat>): string
    requires Terminates(result, ivs)
  {
    var m := SplitNumber(result);
    if ivs == [] || m.None? then result
    else m.value.sign + Group(m.value.integer, ivs, 0) + (m.value.decimal + m.value.suffix)
  }

  lemma ReverseJoined(a: string, b: string)
    ensures Reverse(Joined(b, a)) == Joined(Reverse(a), Reverse(b))
  {
    if a == [] || b == [] {
      ReverseAppend(b, a);
    } else {
      ReverseAppend(b + [','], a);
      ReverseAppend(b, [',']);
    }
  }

  /** The next block, taken digit by digit from the end, so reversed. */
  method TakeBlock(digits: string, size: nat) returns (block: string, rest: string)
    ensures Reverse(block) == LastN(digits, size) && rest == Chop(digits, size)
    ensures |block| == |digits| - |rest|
  {
    block, rest := [], digits;
    while |block| < size && rest != []
      invariant |block| <= size && |block| == |digits| - |rest|
      invariant rest == digits[..|rest|] && Reverse(block) == digits[|rest|..]
      decreases |rest|
    {
      ReverseAppend(block, [Last(rest)]);
      block := block + [Last(rest)];
      rest := Init(rest);
    }
  }

  lemma GroupStep(d: string, ivs: seq<nat>, i: nat, done: string)
    requires ivs != [] && Enough(|d|, ivs, i)
    ensures var n := Interval(ivs, i);
      && Enough(|Chop(d, n)|, ivs, i + 1)
      && Joined(Group(d, ivs, i), done) == Joined(Group(Chop(d, n), ivs, i + 1), Joined(LastN(d, n), done))
  {
    var n := Interval(ivs, i);
    if |d| <= n {
      assert Group(Chop(d, n), ivs, i + 1) == [];
    } else {
      JoinedAssociative(Group(Chop(d, n), ivs, i + 1), LastN(d, n), done);
    }
  }

  method FormatInteger(integer: string, ivs: seq<nat>) returns (formatted: string)
    requires ivs != [] && Enough(|integer|, ivs, 0)
    ensures formatted == Group(integer, ivs, 0)
  {
    var reversed := [];
    var remaining := integer;
    var idx: nat := 0;
    while remaining != []
      invariant Enough(|remaining|, ivs, idx)
      invariant Group(integer, ivs, 0) == Joined(Group(remaining, ivs, idx), Reverse(reversed))
      decreases |remaining|, |ivs| - idx
    {
      var size := Interval(ivs, idx);
      var block, rest := TakeBlock(remaining, size);
      GroupStep(remaining, ivs, idx, Reverse(reversed));
      ReverseJoined(block, reversed);
      if reversed != [] && block != [] {
        reversed := reversed + [','];
      }
      reversed := reversed + block;
      remaining := rest;
      idx := idx + 1;
    }
    formatted := Reverse(reversed);
  }

  method FormatResult(result: string, intervals: seq<nat>) returns (r: string)
    requires Terminates(result, intervals)
    ensures r == Formatted(result, intervals)
  {
    if intervals == [] {
      return result;
    }
    var caps := SplitNumber(result);
    if caps.None? {
      return result;
    }
    var formatted := FormatInteger(caps.value.integer, intervals);
    r := caps.value.sign + formatted + (caps.value.decimal + caps.value.suffix);
  }
}
