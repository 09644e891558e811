/** Emoji search (core/src/engine/emoji.rs): the ranking does not depend on the
    order in which a hash map yields its entries, and the cache is invisible. */
module Emoji {
  import opened Text

  const I32_MIN: int := -0x8000_0000

  datatype Tables = Tables(
    table: Table,
    lower: string -> string,
    aliases: seq<(string, seq<string>)>,
    names: seq<(string, string)>,
    shortcodes: seq<seq<string>>)

  datatype Entry = Entry(emoji: string, score: int, len: nat)

  // --------------------------------------------------------------- ranking

  /** Higher score first, then shorter, then alphabetically. */
  predicate Before(a: Entry, b: Entry) {
    if a.score != b.score then a.score > b.score
    else if a.len != b.len then a.len < b.len
    else TextLess(a.emoji, b.emoji)
  }

  lemma BeforeIsOrder(a: Entry, b: Entry, c: Entry)
    ensures !Before(a, a)
    ensures Before(a, b) || a == b || Before(b, a)
    ensures Before(a, b) ==> !Before(b, a)
    ensures Before(a, b) && Before(b, c) ==> Before(a, c)
  {
    TextLessTotal(a.emoji, b.emoji);
    TextLessAsymmetric(a.emoji, b.emoji);
    if TextLess(a.emoji, b.emoji) && TextLess(b.emoji, c.emoji) {
      TextLessTransitive(a.emoji, b.emoji, c.emoji);
    }
    TextLessAsymmetric(a.emoji, a.emoji);
  }

  ghost predicate Sorted(r: seq<Entry>) {
    forall i, j :: 0 <= i < j < |r| ==> Before(r[i], r[j])
  }

  function Elements<T>(s: seq<T>): set<T> {
    set x | x in s
  }

  lemma ElementsOfCons<T>(x: T, s: seq<T>)
    ensures Elements([x] + s) == {x} + Elements(s)
    ensures Elements(s) == {} <==> s == []
  {
    if s != [] {
      assert s[0] in Elements(s);
    }
    assert ([x] + s)[0] == x;
    assert forall i :: 0 <= i < |s| ==> ([x] + s)[i + 1] == s[i];
  }

  /** A strictly sorted sequence is determined by its elements. */
  lemma {:induction false} SortedIsUnique(a: seq<Entry>, b: seq<Entry>)
    requires Sorted(a) && Sorted(b) && Elements(a) == Elements(b)
    ensures a == b
    decreases a
  {
    ElementsOfCons(Entry([], 0, 0), a);
    ElementsOfCons(Entry([], 0, 0), b);
    if a != [] {
      FirstIsFirst(a, b);
      FirstIsFirst(b, a);
      BeforeIsOrder(a[0], b[0], a[0]);
      TailElements(a);
      TailElements(b);
      SortedIsUnique(a[1..], b[1..]);
    }
  }

  lemma FirstIsFirst(a: seq<Entry>, b: seq<Entry>)
    requires Sorted(a) && a != [] && b != [] && Elements(b) <= Elements(a)
    ensures b[0] == a[0] || Before(a[0], b[0])
  {
    assert b[0] in Elements(b);
    var i :| 0 <= i < |a| && a[i] == b[0];
  }

  lemma TailElements(a: seq<Entry>)
    requires Sorted(a) && a != []
    ensures Sorted(a[1..]) && Elements(a[1..]) == Elements(a) - {a[0]}
  {
    BeforeIsOrder(a[0], a[0], a[0]);
    forall x | x in Elements(a) - {a[0]}
      ensures x in a[1..]
    {
      var i :| 0 <= i < |a| && a[i] == x;
      assert a[1..][i - 1] == x;
    }
  }

  /** One insertion, which drops a duplicate. */
  function Insert(r: seq<Entry>, e: Entry): (q: seq<Entry>)
    ensures Elements(q) == Elements(r) + {e}
  {
    ElementsOfCons(e, r);
    if r == [] then [e]
    else if Before(e, r[0]) then [e] + r
    else if e == r[0] then r
    else
      assert r == [r[0]] + r[1..];
      ElementsOfCons(r[0], r[1..]);
      var q := Insert(r[1..], e);
      ElementsOfCons(r[0], q);
      [r[0]] + q
  }

  lemma {:induction false} InsertSorts(r: seq<Entry>, e: Entry)
    requires Sorted(r)
    ensures Sorted(Insert(r, e))
  {
    if r != [] {
      BeforeIsOrder(e, r[0], e);
      if Before(e, r[0]) {
        forall j | 0 <= j < |r|
          ensures Before(e, r[j])
        {
          BeforeIsOrder(e, r[0], r[j]);
        }
      } else if e != r[0] {
        InsertSorts(r[1..], e);
        var q := Insert(r[1..], e);
        forall j | 0 <= j < |q|
          ensures Before(r[0], q[j])
        {
          assert q[j] in Elements(q);
        }
      }
    }
  }

  /** A sort: any other would give the same result. */
  method Sort(entries: seq<Entry>) returns (r: seq<Entry>)
    ensures Sorted(r) && Elements(r) == Elements(entries)
  {
    r := [];
    for i := 0 to |entries|
      invariant Sorted(r) && Elements(r) == Elements(entries[..i])
    {
      InsertSorts(r, entries[i]);
      assert entries[..i + 1] == entries[..i] + [entries[i]];
      r := Insert(r, entries[i]);
    }
    assert entries[..|entries|] == entries;
  }

  // --------------------------------------------------------------- matching

  /** The runs of letters and digits of s. */
  function WordsOf(t: Table, s: string): seq<string> {
    SplitWords(t, s, [])
  }

  function SplitWords(t: Table, s: string, word: string): seq<string> {
    if s == [] then (if word == [] then [] else [word])
    else if t.alnum(s[0]) then SplitWords(t, s[1..], word + [s[0]])
    else (if word == [] then [] else [word]) + SplitWords(t, s[1..], [])
  }

  predicate AllAlnum(t: Table, w: string) {
    forall i :: 0 <= i < |w| ==> t.alnum(w[i])
  }

  /** w stands at i as a whole word: letters and digits with none beside it. */
  predicate WordAt(t: Table, s: string, i: nat, w: string) {
    && w != [] && i + |w| <= |s| && s[i..i + |w|] == w && AllAlnum(t, w)
    && (i > 0 ==> !t.alnum(s[i - 1])) && (i + |w| < |s| ==> !t.alnum(s[i + |w|]))
  }

  lemma {:induction false} SplitFinds(t: Table, s: string, p: nat, start: nat, w: string)
    requires start <= p <= |s| && AllAlnum(t, s[start..p]) && (start > 0 ==> !t.alnum(s[start - 1]))
    ensures w in SplitWords(t, s[p..], s[start..p]) <==> exists i :: i >= start && WordAt(t, s, i, w)
    decreases |s| - p
  {
    var word := s[start..p];
    if p == |s| {
      WordsFrom(t, s, start, p, w);
    } else {
      assert s[p..][0] == s[p] && s[p..][1..] == s[p + 1..];
      if t.alnum(s[p]) {
        assert s[start..p + 1] == word + [s[p]];
        SplitFinds(t, s, p + 1, start, w);
      } else {
        assert s[p + 1..p + 1] == [];
        SplitFinds(t, s, p + 1, p + 1, w);
        WordsFrom(t, s, start, p, w);
      }
    }
  }

  /** Of the words from `start` on, the first ends where the run of letters and
      digits does. */
  lemma WordsFrom(t: Table, s: string, start: nat, p: nat, w: string)
    requires start <= p <= |s| && AllAlnum(t, s[start..p]) && (start > 0 ==> !t.alnum(s[start - 1]))
    requires p < |s| ==> !t.alnum(s[p])
    ensures (exists i :: i >= start && WordAt(t, s, i, w)) <==>
              (start < p && w == s[start..p]) || exists i :: i > p && WordAt(t, s, i, w)
  {
    if start < p {
      assert w == s[start..p] ==> WordAt(t, s, start, w);
    }
    forall i | i >= start && i <= p && WordAt(t, s, i, w)
      ensures start < p && w == s[start..p]
    {
      NoOtherWord(t, s, start, p, w, i);
    }
  }

  lemma NoOtherWord(t: Table, s: string, start: nat, p: nat, w: string, i: nat)
    requires start <= p <= |s| && AllAlnum(t, s[start..p]) && (p < |s| ==> !t.alnum(s[p]))
    requires start <= i <= p && WordAt(t, s, i, w)
    ensures i == start < p && w == s[start..p]
  {
    assert forall k :: start <= k < p ==> s[k] == s[start..p][k - start];
    assert forall k :: i <= k < i + |w| ==> s[k] == s[i..i + |w|][k - i] == w[k - i];
    assert forall k :: i <= k < i + |w| ==> t.alnum(s[k]);
    assert t.alnum(s[i]) && i < p;
  }

  /** The words of a text are the runs of letters and digits with none beside. */
  lemma WordsMeaning(t: Table, s: string, w: string)
    ensures w in WordsOf(t, s) <==> exists i: nat :: WordAt(t, s, i, w)
  {
    assert s[0..] == s && s[0..0] == [];
    SplitFinds(t, s, 0, 0, w);
  }

  predicate CheckMatch(t: Table, text: string, queryWords: seq<string>) {
    forall w :: w in queryWords ==> w in WordsOf(t, text)
  }

  /** A text matches a query exactly when every word of the query is a word of the
      text. */
  lemma MatchMeaning(t: Table, text: string, query: string)
    ensures CheckMatch(t, text, WordsOf(t, query)) <==>
              forall i: nat, w :: WordAt(t, query, i, w) ==> exists j: nat :: WordAt(t, text, j, w)
  {
    if CheckMatch(t, text, WordsOf(t, query)) {
      forall i: nat, w | WordAt(t, query, i, w)
        ensures exists j: nat :: WordAt(t, text, j, w)
      {
        WordsMeaning(t, query, w);
        WordsMeaning(t, text, w);
      }
    }
    if forall i: nat, w :: WordAt(t, query, i, w) ==> exists j: nat :: WordAt(t, text, j, w) {
      forall w | w in WordsOf(t, query)
        ensures w in WordsOf(t, text)
      {
        WordsMeaning(t, query, w);
        WordsMeaning(t, text, w);
      }
    }
  }

  function AliasEntry(x: Tables, query: string, emoji: string, alias: string): Entry {
    Entry(emoji, 1000 + if x.lower(alias) == query then 500 else 0, Bytes(alias))
  }

  function NameEntry(x: Tables, query: string, emoji: string, name: string): Entry {
    Entry(emoji, if x.lower(name) == query then 500 else 0, Bytes(x.lower(name)))
  }

  /** Every way in which an emoji matches the query. */
  predicate IsMatch(x: Tables, query: string, e: Entry) {
    var words := WordsOf(x.table, query);
    || (exists i, j :: 0 <= i < |x.aliases| && 0 <= j < |x.aliases[i].1|
                       && CheckMatch(x.table, x.aliases[i].1[j], words)
                       && e == AliasEntry(x, query, x.aliases[i].0, x.aliases[i].1[j]))
    || (exists i :: 0 <= i < |x.names| && CheckMatch(x.table, x.lower(x.names[i].1), words)
                    && e == NameEntry(x, query, x.names[i].0, x.names[i].1))
  }

  method AliasMatches(x: Tables, query: string, emoji: string, aliases: seq<string>) returns (ms: seq<Entry>)
    ensures forall e :: e in ms <==>
              exists j :: 0 <= j < |aliases| && CheckMatch(x.table, aliases[j], WordsOf(x.table, query))
                          && e == AliasEntry(x, query, emoji, aliases[j])
  {
    ms := [];
    for j := 0 to |aliases|
      invariant forall e :: e in ms <==>
                  exists k :: 0 <= k < j && CheckMatch(x.table, aliases[k], WordsOf(x.table, query))
                              && e == AliasEntry(x, query, emoji, aliases[k])
    {
      if CheckMatch(x.table, aliases[j], WordsOf(x.table, query)) {
        ms := ms + [AliasEntry(x, query, emoji, aliases[j])];
      }
    }
  }

  method NameMatches(x: Tables, query: string) returns (ms: seq<Entry>)
    ensures forall e :: e in ms <==>
              exists i :: 0 <= i < |x.names| && CheckMatch(x.table, x.lower(x.names[i].1), WordsOf(x.table, query))
                          && e == NameEntry(x, query, x.names[i].0, x.names[i].1)
  {
    ms := [];
    for i := 0 to |x.names|
      invariant forall e :: e in ms <==>
                  exists k :: 0 <= k < i && CheckMatch(x.table, x.lower(x.names[k].1), WordsOf(x.table, query))
                              && e == NameEntry(x, query, x.names[k].0, x.names[k].1)
    {
      if CheckMatch(x.table, x.lower(x.names[i].1), WordsOf(x.table, query)) {
        ms := ms + [NameEntry(x, query, x.names[i].0, x.names[i].1)];
      }
    }
  }

  method AllMatches(x: Tables, query: string) returns (ms: seq<Entry>)
    ensures forall e :: e in ms <==> IsMatch(x, query, e)
  {
    ms := [];
    for i := 0 to |x.aliases|
      invariant forall e :: e in ms <==>
                  exists k, j :: 0 <= k < i && 0 <= j < |x.aliases[k].1|
                                 && CheckMatch(x.table, x.aliases[k].1[j], WordsOf(x.table, query))
                                 && e == AliasEntry(x, query, x.aliases[k].0, x.aliases[k].1[j])
    {
      var more := AliasMatches(x, query, x.aliases[i].0, x.aliases[i].1);
      ms := ms + more;
    }
    var names := NameMatches(x, query);
    ms := ms + names;
  }

  // ---------------------------------------------------------- best entries

  predicate Better(score: int, len: nat, e: (int, nat)) {
    score > e.0 || (score == e.0 && len < e.1)
  }

  /** `best` holds, for each emoji that has a match, its best match. */
  ghost predicate HoldsBest(best: map<string, (int, nat)>, ms: seq<Entry>) {
    && (forall k :: k in best ==> Entry(k, best[k].0, best[k].1) in ms)
    && (forall e :: e in ms ==> e.emoji in best && !Better(e.score, e.len, best[e.emoji]))
  }

  method Deduplicate(ms: seq<Entry>) returns (best: map<string, (int, nat)>)
    requires forall e :: e in ms ==> e.score > I32_MIN
    ensures HoldsBest(best, ms)
  {
    best := map[];
    for i := 0 to |ms|
      invariant HoldsBest(best, ms[..i])
    {
      assert ms[..i + 1] == ms[..i] + [ms[i]];
      assert ms[i] in ms;
      var e := ms[i];
      var entry := if e.emoji in best then best[e.emoji] else (I32_MIN, USIZE_MAX);
      if Better(e.score, e.len, entry) {
        entry := (e.score, e.len);
      }
      best := best[e.emoji := entry];
    }
    assert ms[..|ms|] == ms;
  }

  /** The entries of a map, in whatever order it yields them. */
  method Collect(best: map<string, (int, nat)>) returns (r: seq<Entry>)
    ensures forall e :: e in r <==> e.emoji in best && best[e.emoji] == (e.score, e.len)
  {
    r := [];
    var rest := best.Keys;
    while rest != {}
      invariant rest <= best.Keys
      invariant forall e :: e in r <==> e.emoji in best.Keys - rest && best[e.emoji] == (e.score, e.len)
      decreases rest
    {
      var k :| k in rest;
      rest := rest - {k};
      r := r + [Entry(k, best[k].0, best[k].1)];
    }
  }

  /** A ranking of a set of matches: every matching emoji once, with its best
      match, strictly sorted. */
  ghost predicate Ranks(r: seq<Entry>, ms: iset<Entry>) {
    && Sorted(r)
    && (forall e :: e in r ==> e in ms)
    && (forall e :: e in ms ==> Represented(r, e))
    && (forall a, b :: a in r && b in r && a.emoji == b.emoji ==> a == b)
  }

  ghost predicate Represented(r: seq<Entry>, e: Entry) {
    exists b :: b in r && b.emoji == e.emoji && !Better(e.score, e.len, (b.score, b.len))
  }

  /** There is only one ranking. */
  lemma RankingIsUnique(a: seq<Entry>, b: seq<Entry>, ms: iset<Entry>)
    requires Ranks(a, ms) && Ranks(b, ms)
    ensures a == b
  {
    RankingContains(a, b, ms);
    RankingContains(b, a, ms);
    SortedIsUnique(a, b);
  }

  lemma RankingContains(a: seq<Entry>, b: seq<Entry>, ms: iset<Entry>)
    requires Ranks(a, ms) && Ranks(b, ms)
    ensures Elements(a) <= Elements(b)
  {
    forall e | e in a
      ensures e in b
    {
      BothContain(a, b, ms, e);
    }
  }

  lemma BothContain(a: seq<Entry>, b: seq<Entry>, ms: iset<Entry>, e: Entry)
    requires Ranks(a, ms) && Ranks(b, ms) && e in a
    ensures e in b
  {
    assert Represented(b, e);
    var f :| f in b && f.emoji == e.emoji && !Better(e.score, e.len, (f.score, f.len));
    assert Represented(a, f);
    var g :| g in a && g.emoji == f.emoji && !Better(f.score, f.len, (g.score, g.len));
    assert g == e == f;
  }

  // ------------------------------------------------------------------ tiers

  /** The emoji has an alias with the words of the query, n bytes long; `exact`: one
      that is the query. */
  ghost predicate HasAlias(x: Tables, query: string, emoji: string, exact: bool, n: nat) {
    exists i, j :: 0 <= i < |x.aliases| && 0 <= j < |x.aliases[i].1| && x.aliases[i].0 == emoji
                   && CheckMatch(x.table, x.aliases[i].1[j], WordsOf(x.table, query))
                   && (exact ==> x.lower(x.aliases[i].1[j]) == query) && n == Bytes(x.aliases[i].1[j])
  }

  /** The same for its own name. */
  ghost predicate HasName(x: Tables, query: string, emoji: string, exact: bool, n: nat) {
    exists i :: 0 <= i < |x.names| && x.names[i].0 == emoji
                && CheckMatch(x.table, x.lower(x.names[i].1), WordsOf(x.table, query))
                && (exact ==> x.lower(x.names[i].1) == query) && n == Bytes(x.lower(x.names[i].1))
  }

  /** The tiers of a match: 3 for an alias that is the query, 2 for another alias, 1
      for a name that is the query, 0 for another name. */
  ghost predicate InTier(x: Tables, query: string, emoji: string, tier: nat, n: nat) {
    if tier == 3 then HasAlias(x, query, emoji, true, n)
    else if tier == 2 then HasAlias(x, query, emoji, false, n)
    else if tier == 1 then HasName(x, query, emoji, true, n)
    else tier == 0 && HasName(x, query, emoji, false, n)
  }

  /** The best tier that an emoji is in, and its shortest text there. */
  ghost predicate Best(x: Tables, query: string, emoji: string, tier: nat, n: nat) {
    && InTier(x, query, emoji, tier, n)
    && (forall u: nat, m: nat :: InTier(x, query, emoji, u, m) ==> u < tier || (u == tier && n <= m))
  }

  lemma MatchHasTier(x: Tables, query: string, e: Entry) returns (tier: nat)
    requires IsMatch(x, query, e)
    ensures tier <= 3 && e.score == 500 * tier && InTier(x, query, e.emoji, tier, e.len)
  {
    tier := if e.score == 1500 then 3 else if e.score == 1000 then 2 else if e.score == 500 then 1 else 0;
  }

  lemma TierHasMatch(x: Tables, query: string, emoji: string, tier: nat, n: nat) returns (e: Entry)
    requires InTier(x, query, emoji, tier, n)
    ensures IsMatch(x, query, e) && e.emoji == emoji && e.len == n && e.score >= 500 * tier
  {
    if tier >= 2 {
      var i, j :| 0 <= i < |x.aliases| && 0 <= j < |x.aliases[i].1| && x.aliases[i].0 == emoji
                  && CheckMatch(x.table, x.aliases[i].1[j], WordsOf(x.table, query))
                  && (tier == 3 ==> x.lower(x.aliases[i].1[j]) == query) && n == Bytes(x.aliases[i].1[j]);
      e := AliasEntry(x, query, emoji, x.aliases[i].1[j]);
    } else {
      var i :| 0 <= i < |x.names| && x.names[i].0 == emoji
               && CheckMatch(x.table, x.lower(x.names[i].1), WordsOf(x.table, query))
               && (tier == 1 ==> x.lower(x.names[i].1) == query) && n == Bytes(x.lower(x.names[i].1));
      e := NameEntry(x, query, emoji, x.names[i].1);
    }
  }

  /** An entry of a ranking stands in the best tier of its emoji, at its shortest. */
  lemma RankedIsBest(x: Tables, query: string, r: seq<Entry>, e: Entry) returns (tier: nat)
    requires Ranks(r, Matches(x, query)) && e in r
    ensures tier <= 3 && e.score == 500 * tier && Best(x, query, e.emoji, tier, e.len)
  {
    tier := MatchHasTier(x, query, e);
    forall u: nat, n: nat | InTier(x, query, e.emoji, u, n)
      ensures u < tier || (u == tier && e.len <= n)
    {
      NoBetterTier(x, query, r, e, u, n);
    }
  }

  lemma NoBetterTier(x: Tables, query: string, r: seq<Entry>, e: Entry, u: nat, n: nat)
    requires Ranks(r, Matches(x, query)) && e in r && InTier(x, query, e.emoji, u, n)
    ensures 500 * u < e.score || (500 * u == e.score && e.len <= n)
  {
    var m := TierHasMatch(x, query, e.emoji, u, n);
    assert Represented(r, m);
    var b :| b in r && b.emoji == m.emoji && !Better(m.score, m.len, (b.score, b.len));
    assert b == e;
  }

  /** a comes before b: in a better tier, or shorter there, or alphabetically. */
  ghost predicate RankedBefore(x: Tables, query: string, a: string, b: string) {
    forall u: nat, m: nat, w: nat, n: nat :: Best(x, query, a, u, m) && Best(x, query, b, w, n) ==>
      u > w || (u == w && (m < n || (m == n && TextLess(a, b))))
  }

  /** Aliases that are the query come before other aliases, these before names that
      are the query, and these before other names. */
  ghost predicate ByTier(x: Tables, query: string, r: seq<string>) {
    forall i, j :: 0 <= i < j < |r| ==> RankedBefore(x, query, r[i], r[j])
  }

  lemma BestIsOne(x: Tables, query: string, emoji: string, u: nat, m: nat, w: nat, n: nat)
    requires Best(x, query, emoji, u, m) && Best(x, query, emoji, w, n)
    ensures u == w && m == n
  {
  }

  lemma RankingByTier(x: Tables, query: string, r: seq<Entry>)
    requires Ranks(r, Matches(x, query))
    ensures ByTier(x, query, EmojisOf(r))
  {
    forall i, j | 0 <= i < j < |r|
      ensures RankedBefore(x, query, r[i].emoji, r[j].emoji)
    {
      PairByTier(x, query, r, r[i], r[j]);
    }
  }

  lemma PairByTier(x: Tables, query: string, r: seq<Entry>, a: Entry, b: Entry)
    requires Ranks(r, Matches(x, query)) && a in r && b in r && Before(a, b)
    ensures RankedBefore(x, query, a.emoji, b.emoji)
  {
    var tierA := RankedIsBest(x, query, r, a);
    var tierB := RankedIsBest(x, query, r, b);
    forall u: nat, m: nat, w: nat, n: nat | Best(x, query, a.emoji, u, m) && Best(x, query, b.emoji, w, n)
      ensures u > w || (u == w && (m < n || (m == n && TextLess(a.emoji, b.emoji))))
    {
      BestIsOne(x, query, a.emoji, u, m, tierA, a.len);
      BestIsOne(x, query, b.emoji, w, n, tierB, b.len);
    }
  }

  function EmojisOf(r: seq<Entry>): (es: seq<string>)
    ensures |es| == |r| && forall i :: 0 <= i < |r| ==> es[i] == r[i].emoji
  {
    seq(|r|, i requires 0 <= i < |r| => r[i].emoji)
  }

  ghost function Matches(x: Tables, query: string): iset<Entry> {
    iset e | IsMatch(x, query, e)
  }

  /** What a search for a normalised query returns. */
  ghost function Ranked(x: Tables, query: string): seq<string> {
    if WordsOf(x.table, query) == [] then []
    else if r :| Ranks(r, Matches(x, query)) then EmojisOf(r)
    else []
  }

  /** The search, for any order in which the map yields its entries. */
  method SearchUncached(x: Tables, query: string) returns (r: seq<string>)
    ensures r == Ranked(x, query)
    ensures WordsOf(x.table, query) != [] ==> exists ranking :: Ranks(ranking, Matches(x, query))
    ensures ByTier(x, query, r)
    ensures WordsOf(x.table, query) != [] ==>
              forall emoji :: emoji in r <==> exists e :: IsMatch(x, query, e) && e.emoji == emoji
  {
    if WordsOf(x.table, query) == [] {
      return [];
    }
    var ms := AllMatches(x, query);
    var best := Deduplicate(ms);
    var entries := Collect(best);
    var sorted := Sort(entries);
    RankingFromBest(Matches(x, query), ms, best, entries, sorted);
    r := EmojisOf(sorted);
    ghost var ranking :| Ranks(ranking, Matches(x, query)) && EmojisOf(ranking) == Ranked(x, query);
    RankingIsUnique(sorted, ranking, Matches(x, query));
    RankingByTier(x, query, sorted);
    RankingHolds(x, query, sorted);
  }

  /** A ranking lists the emoji that match. */
  lemma RankingHolds(x: Tables, query: string, r: seq<Entry>)
    requires Ranks(r, Matches(x, query))
    ensures forall emoji :: emoji in EmojisOf(r) <==> exists e :: IsMatch(x, query, e) && e.emoji == emoji
  {
    forall emoji
      ensures emoji in EmojisOf(r) <==> exists e :: IsMatch(x, query, e) && e.emoji == emoji
    {
      if emoji in EmojisOf(r) {
        var i :| 0 <= i < |r| && r[i].emoji == emoji;
        assert r[i] in r;
      }
      if e :| IsMatch(x, query, e) && e.emoji == emoji {
        assert Represented(r, e);
        var b :| b in r && b.emoji == e.emoji;
        var i :| 0 <= i < |r| && r[i] == b;
        assert EmojisOf(r)[i] == emoji;
      }
    }
  }

  lemma RankingFromBest(matches: iset<Entry>, ms: seq<Entry>, best: map<string, (int, nat)>,
                        entries: seq<Entry>, sorted: seq<Entry>)
    requires forall e :: e in ms <==> e in matches
    requires HoldsBest(best, ms)
    requires forall e :: e in entries <==> e.emoji in best && best[e.emoji] == (e.score, e.len)
    requires Sorted(sorted) && Elements(sorted) == Elements(entries)
    ensures Ranks(sorted, matches)
  {
    assert forall e :: e in sorted <==> e in Elements(sorted);
    assert forall e :: e in entries <==> e in Elements(entries);
    forall e | e in matches
      ensures Represented(sorted, e)
    {
      assert e in ms;
      var b := Entry(e.emoji, best[e.emoji].0, best[e.emoji].1);
      assert b in sorted;
    }
  }

  // ----------------------------------------------------------------- cache

  /** Every entry of the cache is what the search would return. */
  ghost predicate Faithful(x: Tables, cache: map<string, seq<string>>) {
    forall k :: k in cache ==> cache[k] == Ranked(x, k)
  }

  method Remember(x: Tables, cache: map<string, seq<string>>, key: string) returns (r: map<string, seq<string>>)
    requires Faithful(x, cache)
    ensures Faithful(x, r) && r.Keys == cache.Keys + {key}
  {
    r := cache;
    if key !in cache {
      var found := SearchUncached(x, key);
      r := cache[key := found];
    }
  }

  predicate Covers(x: Tables, cache: map<string, seq<string>>, texts: seq<string>) {
    forall i :: 0 <= i < |texts| ==> x.lower(texts[i]) in cache
  }

  method RememberAll(x: Tables, cache: map<string, seq<string>>, texts: seq<string>)
    returns (r: map<string, seq<string>>)
    requires Faithful(x, cache)
    ensures Faithful(x, r) && cache.Keys <= r.Keys && Covers(x, r, texts)
  {
    r := cache;
    for i := 0 to |texts|
      invariant Faithful(x, r) && cache.Keys <= r.Keys && Covers(x, r, texts[..i])
    {
      assert texts[..i + 1] == texts[..i] + [texts[i]];
      r := Remember(x, r, x.lower(texts[i]));
    }
    assert texts[..|texts|] == texts;
  }

  method BuildCache(x: Tables) returns (cache: map<string, seq<string>>)
    ensures Faithful(x, cache)
    ensures forall i :: 0 <= i < |x.aliases| ==> Covers(x, cache, x.aliases[i].1)
    ensures Covers(x, cache, seq(|x.names|, i requires 0 <= i < |x.names| => x.names[i].1))
  {
    cache := map[];
    for i := 0 to |x.aliases|
      invariant Faithful(x, cache)
      invariant forall k :: 0 <= k < i ==> Covers(x, cache, x.aliases[k].1)
    {
      cache := RememberAll(x, cache, x.aliases[i].1);
    }
    cache := RememberAll(x, cache, seq(|x.names|, i requires 0 <= i < |x.names| => x.names[i].1));
  }

  /** The cached search is the uncached one, on every query. */
  method Search(x: Tables, cache: map<string, seq<string>>, query: string) returns (r: seq<string>)
    requires Faithful(x, cache)
    ensures r == Ranked(x, Trim(x.table, x.lower(query)))
  {
    var normalized := Trim(x.table, x.lower(query));
    if normalized == [] {
      return [];
    }
    if normalized in cache {
      return cache[normalized];
    }
    r := SearchUncached(x, normalized);
  }

  // ------------------------------------------------------------- shortcodes

  function Hyphened(s: string): (r: string)
    ensures |r| == |s|
  {
    seq(|s|, i requires 0 <= i < |s| => if s[i] == '_' then '-' else s[i])
  }

  /** The shortcode, with hyphens, continues the query, with hyphens. */
  predicate Continues(code: string, query: string) {
    Hyphened(query) <= Hyphened(code)
  }

  predicate SameButHyphen(a: char, b: char) {
    a == b || (a in {'-', '_'} && b in {'-', '_'})
  }

  /** Hyphens and underscores stand for each other, nothing else does. */
  lemma ContinuesMeaning(code: string, query: string)
    ensures Continues(code, query) <==>
              |query| <= |code| && forall i :: 0 <= i < |query| ==> SameButHyphen(code[i], query[i])
  {
    if |query| <= |code| {
      assert Continues(code, query) <==> forall i :: 0 <= i < |query| ==> Hyphened(code)[i] == Hyphened(query)[i];
      assert forall i :: 0 <= i < |query| ==>
          (Hyphened(code)[i] == Hyphened(query)[i] <==> SameButHyphen(code[i], query[i]));
    }
  }

  method ShortcodesOf(codes: seq<string>, query: string) returns (ms: seq<Entry>)
    ensures forall e :: e in ms <==>
              exists j :: 0 <= j < |codes| && Continues(codes[j], query) && e == Entry(Hyphened(codes[j]), 0, 0)
  {
    ms := [];
    for j := 0 to |codes|
      invariant forall e :: e in ms <==>
                  exists k :: 0 <= k < j && Continues(codes[k], query) && e == Entry(Hyphened(codes[k]), 0, 0)
    {
      if Continues(codes[j], query) {
        ms := ms + [Entry(Hyphened(codes[j]), 0, 0)];
      }
    }
  }

  /** Shortcode search returns each continuation once, in order. Sorting strings
      is sorting entries that differ in nothing else. */
  method SearchEmojiShortcodes(x: Tables, query: string) returns (r: seq<string>)
    ensures query == [] ==> r == []
    ensures query != [] ==> forall s ::
              s in r <==> exists i, j :: 0 <= i < |x.shortcodes| && 0 <= j < |x.shortcodes[i]|
                                         && Continues(x.shortcodes[i][j], query) && s == Hyphened(x.shortcodes[i][j])
    ensures forall i, j :: 0 <= i < j < |r| ==> TextLess(r[i], r[j])
  {
    if query == [] {
      return [];
    }
    var ms := [];
    for i := 0 to |x.shortcodes|
      invariant forall e :: e in ms <==>
                  exists k, j :: 0 <= k < i && 0 <= j < |x.shortcodes[k]|
                                 && Continues(x.shortcodes[k][j], query)
                                 && e == Entry(Hyphened(x.shortcodes[k][j]), 0, 0)
    {
      var more := ShortcodesOf(x.shortcodes[i], query);
      ms := ms + more;
    }
    var sorted := Sort(ms);
    assert forall e :: e in sorted <==> e in Elements(sorted);
    assert forall e :: e in ms <==> e in Elements(ms);
    r := EmojisOf(sorted);
    forall i, j | 0 <= i < j < |r|
      ensures TextLess(r[i], r[j])
    {
      assert sorted[i] in ms && sorted[j] in ms && Before(sorted[i], sorted[j]);
    }
    forall s
      ensures s in r <==> Entry(s, 0, 0) in ms
    {
      if s in r {
        var i :| 0 <= i < |r| && r[i] == s;
        assert sorted[i] in ms;
      }
      if Entry(s, 0, 0) in ms {
        var i :| 0 <= i < |sorted| && sorted[i] == Entry(s, 0, 0);
        assert r[i] == s;
      }
    }
  }
}
