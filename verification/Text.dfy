/** Strings as the engine sees them: sequences of characters, classified by a
    table of predicates, with the suffix operations every other module uses. */
module Text {

  datatype Option<+T> = None | Some(value: T)

  const USIZE_MAX: nat := 0xffff_ffff_ffff_ffff

  /** The Unicode tables, kept abstract: only the laws below are used. */
  datatype Table = Table(spaces: set<char>, alnums: set<char>) {
    predicate space(c: char) {
      c in spaces
    }

    predicate alnum(c: char) {
      c in alnums
    }
  }

  ghost predicate Lawful(t: Table) {
    && t.space(' ')
    && t.space('\n')
    && !t.space('-')
    && !t.space(',')
    && (forall c :: 'A' <= c <= 'Z' ==> !t.space(c))
  }

  type CharTable = t: Table | Lawful(t)
    witness Table({' ', '\n'}, {})

  predicate Digit(c: char) {
    '0' <= c <= '9'
  }

  predicate EndsWith(s: string, t: string) {
    |t| <= |s| && s[|s| - |t|..] == t
  }

  predicate StartsWith(s: string, c: char) {
    s != [] && s[0] == c
  }

  function Last(s: string): char
    requires s != []
  {
    s[|s| - 1]
  }

  function Init(s: string): string
    requires s != []
  {
    s[..|s| - 1]
  }

  /** The last n characters, or all of them when there are fewer. */
  function LastN(s: string, n: nat): string {
    if |s| <= n then s else s[|s| - n..]
  }

  /** What n presses of Backspace leave. */
  function Chop(s: string, n: nat): string {
    if n <= |s| then s[..|s| - n] else []
  }

  lemma Associative<T>(a: seq<T>, b: seq<T>, c: seq<T>)
    ensures (a + b) + c == a + (b + c)
  {
  }

  lemma SplitAtSuffix(s: string, t: string)
    requires EndsWith(s, t)
    ensures s == Chop(s, |t|) + t
  {
  }

  lemma ChopAndLast(s: string, n: nat)
    ensures Chop(s, n) + LastN(s, n) == s
  {
  }

  lemma AppendEnds(p: string, t: string)
    ensures EndsWith(p + t, t)
    ensures Chop(p + t, |t|) == p
  {
    assert (p + t)[|p|..] == t;
    assert (p + t)[..|p|] == p;
  }

  lemma EndsWithTransitive(s: string, t: string, u: string)
    requires EndsWith(s, t) && EndsWith(t, u)
    ensures EndsWith(s, u)
  {
    assert s[|s| - |u|..] == s[|s| - |t|..][|t| - |u|..];
  }

  /** Of two texts one of which ends with the other, both end with the same
      short texts. */
  lemma SuffixOfBoth(s: string, t: string, w: string)
    requires EndsWith(s, t) && |w| <= |t|
    ensures EndsWith(s, w) <==> EndsWith(t, w)
  {
    assert s[|s| - |w|..] == t[|t| - |w|..] by {
      assert t == s[|s| - |t|..];
    }
  }

  lemma ChopKeepsSuffix(s: string, t: string, n: nat)
    requires EndsWith(s, t)
    ensures EndsWith(Chop(s, n), Chop(t, n))
  {
    if n <= |t| {
      var p := Chop(s, |t|);
      SplitAtSuffix(s, t);
      assert Chop(s, n) == p + Chop(t, n);
      AppendEnds(p, Chop(t, n));
    }
  }

  lemma AppendKeepsSuffix(s: string, t: string, u: string)
    requires EndsWith(s, t)
    ensures EndsWith(s + u, t + u)
  {
    SplitAtSuffix(s, t);
    var p := Chop(s, |t|);
    assert s + u == p + (t + u);
    AppendEnds(p, t + u);
  }

  lemma SuffixBefore(s: string, t: string, u: string)
    ensures EndsWith(s + u, t + u) <==> EndsWith(s, t)
  {
    if EndsWith(s, t) {
      AppendKeepsSuffix(s, t, u);
    }
    if EndsWith(s + u, t + u) {
      var k := |s| - |t|;
      assert (s + u)[k..][..|t|] == s[k..];
      assert (t + u)[..|t|] == t;
    }
  }

  lemma LastNEnds(s: string, n: nat)
    ensures EndsWith(s, LastN(s, n))
  {
  }

  /** Cutting to the last n keeps every suffix that is no longer than n. */
  lemma LastNKeepsSuffix(s: string, t: string, n: nat)
    requires EndsWith(s, t) && |t| <= n
    ensures EndsWith(LastN(s, n), t)
  {
  }

  // ---------------------------------------------------------------- words

  function TrimEnd(t: Table, s: string): (r: string)
    ensures r <= s
    ensures r != [] ==> !t.space(Last(r))
  {
    if s != [] && t.space(Last(s)) then TrimEnd(t, Init(s)) else s
  }

  function DropClass(t: Table, s: string, alnum: bool): (r: string)
    ensures r <= s
  {
    if s != [] && !t.space(Last(s)) && t.alnum(Last(s)) == alnum
    then DropClass(t, Init(s), alnum)
    else s
  }

  /** What one word-delete leaves: the trailing whitespace goes, then the run
      of characters of the class of the last one that remains. */
  function PopWord(t: Table, s: string): (r: string)
    ensures r <= s
  {
    var u := TrimEnd(t, s);
    if u == [] then [] else DropClass(t, u, t.alnum(Last(u)))
  }

  /** Nothing but whitespace. */
  predicate Blank(t: Table, s: string) {
    forall i :: 0 <= i < |s| ==> t.space(s[i])
  }

  ghost predicate OneClass(t: Table, s: string, alnum: bool) {
    forall i :: 0 <= i < |s| ==> !t.space(s[i]) && t.alnum(s[i]) == alnum
  }

  /** `keep` followed by a maximal one-class word and maximal whitespace. */
  ghost predicate WordSplit(t: Table, keep: string, word: string, gap: string) {
    && Blank(t, gap)
    && (word == [] ==> keep == [])
    && (word != [] ==>
          && OneClass(t, word, t.alnum(word[0]))
          && (keep != [] ==> t.space(Last(keep)) || t.alnum(Last(keep)) != t.alnum(word[0])))
  }

  lemma {:induction false} TrimEndAppend(t: Table, p: string, s: string)
    ensures TrimEnd(t, p + s) == if TrimEnd(t, s) == [] then TrimEnd(t, p) else p + TrimEnd(t, s)
  {
    if s == [] {
      assert p + s == p;
    } else if t.space(Last(s)) {
      assert Init(p + s) == p + Init(s);
      TrimEndAppend(t, p, Init(s));
    }
  }

  lemma {:induction false} DropClassAppend(t: Table, p: string, s: string, alnum: bool)
    ensures DropClass(t, p + s, alnum)
         == if DropClass(t, s, alnum) == [] then DropClass(t, p, alnum) else p + DropClass(t, s, alnum)
  {
    if s == [] {
      assert p + s == p;
    } else if !t.space(Last(s)) && t.alnum(Last(s)) == alnum {
      assert Init(p + s) == p + Init(s);
      DropClassAppend(t, p, Init(s), alnum);
    }
  }

  lemma {:induction false} TrimSpace(t: Table, s: string)
    requires Blank(t, s)
    ensures TrimEnd(t, s) == []
  {
    if s != [] {
      TrimSpace(t, Init(s));
    }
  }

  lemma {:induction false} DropOneClass(t: Table, s: string, alnum: bool)
    requires OneClass(t, s, alnum)
    ensures DropClass(t, s, alnum) == []
  {
    if s != [] {
      DropOneClass(t, Init(s), alnum);
    }
  }

  /** The split is unique, and `PopWord` is its first part. */
  lemma PopWordIsTheSplit(t: Table, keep: string, word: string, gap: string)
    requires WordSplit(t, keep, word, gap)
    ensures PopWord(t, keep + word + gap) == keep
  {
    TrimSpace(t, gap);
    TrimEndAppend(t, keep + word, gap);
    if word == [] {
      assert keep + word == [];
    } else {
      assert Last(keep + word) == Last(word) == word[|word| - 1];
      DropOneClass(t, word, t.alnum(word[0]));
      DropClassAppend(t, keep, word, t.alnum(word[0]));
    }
  }

  lemma {:induction false} TrimEndSplits(t: Table, s: string)
    ensures Blank(t, s[|TrimEnd(t, s)|..])
  {
    if s != [] && t.space(Last(s)) {
      TrimEndSplits(t, Init(s));
      var k := |TrimEnd(t, s)|;
      assert s[k..] == Init(s)[k..] + [Last(s)];
    }
  }

  lemma {:induction false} DropClassSplits(t: Table, s: string, alnum: bool)
    ensures var r := DropClass(t, s, alnum);
            && OneClass(t, s[|r|..], alnum)
            && (r != [] ==> t.space(Last(r)) || t.alnum(Last(r)) != alnum)
  {
    if s != [] && !t.space(Last(s)) && t.alnum(Last(s)) == alnum {
      DropClassSplits(t, Init(s), alnum);
      var k := |DropClass(t, s, alnum)|;
      assert s[k..] == Init(s)[k..] + [Last(s)];
    }
  }

  /** Every text splits that way around what `PopWord` keeps. */
  lemma PopWordSplits(t: Table, s: string)
    ensures var keep, u := PopWord(t, s), TrimEnd(t, s);
            && keep <= u <= s
            && WordSplit(t, keep, u[|keep|..], s[|u|..])
            && (keep == s ==> s == [])
  {
    var u := TrimEnd(t, s);
    TrimEndSplits(t, s);
    if u != [] {
      DropClassSplits(t, u, t.alnum(Last(u)));
      var keep := PopWord(t, s);
      assert keep != u;
      var word := u[|keep|..];
      assert Last(word) == Last(u);
    }
  }

  /** Deleting a word from a document that ends with a text leaves one that
      ends with the text after the same deletion. */
  lemma PopWordKeepsSuffix(t: Table, doc: string, s: string)
    requires EndsWith(doc, s)
    ensures EndsWith(PopWord(t, doc), PopWord(t, s))
  {
    SplitAtSuffix(doc, s);
    var p := Chop(doc, |s|);
    TrimEndAppend(t, p, s);
    var u := TrimEnd(t, s);
    if u != [] {
      assert Last(p + u) == Last(u);
      DropClassAppend(t, p, u, t.alnum(Last(u)));
      AppendEnds(p, PopWord(t, s));
    }
  }

  /** Where the maximal run of non-whitespace that ends at p begins. */
  function TailFrom(t: Table, s: string, p: nat): (k: nat)
    requires p <= |s|
    ensures k <= p
  {
    if p == 0 || t.space(s[p - 1]) then p else TailFrom(t, s, p - 1)
  }

  lemma {:induction false} TailFromMeaning(t: Table, s: string, p: nat)
    requires p <= |s|
    ensures var k := TailFrom(t, s, p);
            && (forall i :: k <= i < p ==> !t.space(s[i]))
            && (k > 0 ==> t.space(s[k - 1]))
  {
    if p > 0 && !t.space(s[p - 1]) {
      TailFromMeaning(t, s, p - 1);
    }
  }

  function TailWord(t: Table, s: string): Option<string> {
    var k := TailFrom(t, s, |s|);
    if k == |s| then None else Some(s[k..])
  }

  lemma TailWordEnds(t: Table, s: string)
    ensures var r := TailWord(t, s);
            && (r.None? <==> s == [] || t.space(Last(s)))
            && (r.Some? ==> r.value != [] && EndsWith(s, r.value))
  {
    TailFromMeaning(t, s, |s|);
  }

  /** The tail word is the only nonempty suffix without whitespace that
      whitespace or the start of the text precedes. */
  lemma TailWordUnique(t: Table, s: string, w: string)
    requires EndsWith(s, w) && w != []
    ensures TailWord(t, s) == Some(w) <==>
              && (forall i :: 0 <= i < |w| ==> !t.space(w[i]))
              && (|w| < |s| ==> t.space(s[|s| - |w| - 1]))
  {
    TailFromMeaning(t, s, |s|);
    var k, j := TailFrom(t, s, |s|), |s| - |w|;
    assert forall i :: 0 <= i < |w| ==> w[i] == s[j + i];
    if j < k < |s| {
      assert t.space(w[k - 1 - j]);
    }
    if k == |s| {
      assert w[|w| - 1] == Last(s);
    }
  }

  function Reverse<T>(s: seq<T>): (r: seq<T>)
    ensures |r| == |s|
    ensures forall i :: 0 <= i < |s| ==> r[i] == s[|s| - 1 - i]
  {
    if s == [] then [] else Reverse(s[1..]) + [s[0]]
  }

  lemma ReverseAppend(a: string, b: string)
    ensures Reverse(a + b) == Reverse(b) + Reverse(a)
  {
  }

  /** What a scan from the end of v has collected after n characters. */
  function ReverseTail(v: string, n: nat): (r: string)
    requires n <= |v|
    ensures |r| == n
  {
    if n == 0 then [] else ReverseTail(v, n - 1) + [v[|v| - n]]
  }

  lemma {:induction false} ReverseTailBack(v: string, n: nat)
    requires n <= |v|
    ensures Reverse(ReverseTail(v, n)) == v[|v| - n..]
  {
    if n > 0 {
      ReverseTailBack(v, n - 1);
      assert Reverse(ReverseTail(v, n)) == [v[|v| - n]] + Reverse(ReverseTail(v, n - 1));
    }
  }

  /** Bytes of the UTF-8 encoding. */
  function CharBytes(c: char): nat {
    if c as int < 0x80 then 1 else if c as int < 0x800 then 2 else if c as int < 0x10000 then 3 else 4
  }

  /** The encoding itself, whose length that is. */
  function Utf8(c: char): (b: seq<int>)
    ensures |b| == CharBytes(c)
  {
    var n := c as int;
    if n < 0x80 then [n]
    else if n < 0x800 then [0xC0 + n / 0x40, 0x80 + n % 0x40]
    else if n < 0x10000 then [0xE0 + n / 0x40 / 0x40, 0x80 + n / 0x40 % 0x40, 0x80 + n % 0x40]
    else [0xF0 + n / 0x40 / 0x40 / 0x40, 0x80 + n / 0x40 / 0x40 % 0x40, 0x80 + n / 0x40 % 0x40, 0x80 + n % 0x40]
  }

  /** The character number that the bytes encode, by the first byte. */
  function FromUtf8(b: seq<int>): int
    requires 1 <= |b| <= 4
  {
    if |b| == 1 then b[0]
    else if |b| == 2 then (b[0] - 0xC0) * 0x40 + (b[1] - 0x80)
    else if |b| == 3 then (b[0] - 0xE0) * 0x1000 + (b[1] - 0x80) * 0x40 + (b[2] - 0x80)
    else (b[0] - 0xF0) * 0x40000 + (b[1] - 0x80) * 0x1000 + (b[2] - 0x80) * 0x40 + (b[3] - 0x80)
  }

  lemma Sixty4(n: nat)
    ensures n == n / 0x40 * 0x40 + n % 0x40 && n % 0x40 < 0x40
  {
  }

  /** The bytes decode to the character; all but the first continue it. */
  lemma Utf8RoundTrip(c: char)
    ensures FromUtf8(Utf8(c)) == c as int
    ensures 0 <= Utf8(c)[0] < 0x80 || 0xC0 <= Utf8(c)[0] < 0x100
    ensures forall i :: 1 <= i < |Utf8(c)| ==> 0x80 <= Utf8(c)[i] < 0xC0
  {
    var n := c as int;
    Sixty4(n);
    Sixty4(n / 0x40);
    Sixty4(n / 0x40 / 0x40);
    assert n < 0x110000;
  }

  function Bytes(s: string): nat {
    if s == [] then 0 else CharBytes(s[0]) + Bytes(s[1..])
  }

  function TrimStart(t: Table, s: string): string {
    if s != [] && t.space(s[0]) then TrimStart(t, s[1..]) else s
  }

  function Trim(t: Table, s: string): string {
    TrimStart(t, TrimEnd(t, s))
  }

  lemma {:induction false} TrimStartMeaning(t: Table, s: string) returns (a: string)
    ensures s == a + TrimStart(t, s) && Blank(t, a)
    ensures TrimStart(t, s) != [] ==> !t.space(TrimStart(t, s)[0])
  {
    a := [];
    if s != [] && t.space(s[0]) {
      a := TrimStartMeaning(t, s[1..]);
      assert s == [s[0]] + s[1..];
      a := [s[0]] + a;
    }
  }

  /** Trimming takes the whitespace from both ends, and only that. */
  lemma TrimMeaning(t: Table, s: string) returns (a: string, b: string)
    ensures s == a + Trim(t, s) + b && Blank(t, a) && Blank(t, b)
    ensures Trim(t, s) != [] ==> !t.space(Trim(t, s)[0]) && !t.space(Last(Trim(t, s)))
  {
    var u := TrimEnd(t, s);
    TrimEndSplits(t, s);
    a := TrimStartMeaning(t, u);
    b := s[|u|..];
    assert Trim(t, s) != [] ==> Last(Trim(t, s)) == Last(u);
  }

  // -------------------------------------------------------------- ordering

  /** The standard order on strings: by code point, shorter first. */
  predicate TextLess(a: string, b: string) {
    if b == [] then false
    else if a == [] then true
    else if a[0] != b[0] then a[0] < b[0]
    else TextLess(a[1..], b[1..])
  }

  /** The texts agree before k, and there a ends or has the smaller character. */
  predicate LessAt(a: string, b: string, k: nat) {
    k <= |a| && k < |b| && a[..k] == b[..k] && (k == |a| || a[k] < b[k])
  }

  lemma {:induction false} LessAtTail(a: string, b: string, k: nat)
    requires a != [] && b != [] && a[0] == b[0]
    ensures LessAt(a, b, k + 1) <==> LessAt(a[1..], b[1..], k)
  {
    if k + 1 <= |a| && k + 1 <= |b| {
      assert a[..k + 1] == [a[0]] + a[1..][..k] && b[..k + 1] == [b[0]] + b[1..][..k];
      assert a[1..][..k] == a[..k + 1][1..] && b[1..][..k] == b[..k + 1][1..];
    }
  }

  /** The order is the lexicographic one. */
  lemma {:induction false} TextLessMeaning(a: string, b: string)
    ensures TextLess(a, b) <==> exists k: nat :: LessAt(a, b, k)
  {
    if b == [] {
    } else if a == [] || a[0] < b[0] {
      assert LessAt(a, b, 0);
    } else if a[0] == b[0] {
      TextLessMeaning(a[1..], b[1..]);
      if k: nat :| LessAt(a[1..], b[1..], k) {
        LessAtTail(a, b, k);
      }
      if k: nat :| LessAt(a, b, k) {
        assert k > 0;
        LessAtTail(a, b, k - 1);
      }
    } else {
      forall k: nat
        ensures !LessAt(a, b, k)
      {
        if 0 < k <= |a| && k < |b| {
          assert a[..k][0] == a[0] && b[..k][0] == b[0];
        }
      }
    }
  }

  lemma {:induction false} TextLessAsymmetric(a: string, b: string)
    ensures TextLess(a, b) ==> !TextLess(b, a)
  {
    if a != [] && b != [] && a[0] == b[0] {
      TextLessAsymmetric(a[1..], b[1..]);
    }
  }

  lemma {:induction false} TextLessTransitive(a: string, b: string, c: string)
    requires TextLess(a, b) && TextLess(b, c)
    ensures TextLess(a, c)
  {
    if a != [] && a[0] == b[0] == c[0] {
      TextLessTransitive(a[1..], b[1..], c[1..]);
    }
  }

  lemma {:induction false} TextLessTotal(a: string, b: string)
    ensures TextLess(a, b) || a == b || TextLess(b, a)
    ensures !TextLess(a, a)
  {
    if a != [] {
      if b != [] && a[0] == b[0] {
        TextLessTotal(a[1..], b[1..]);
      } else {
        TextLessTotal(a[1..], []);
      }
    }
  }
}
