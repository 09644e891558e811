/** Is the published version newer? (cli/src/commands/update.rs, lines 437-489) */
module Version {
  import opened Text

  const U32_MAX: nat := 0xffff_ffff
  const U64_MAX: nat := 0xffff_ffff_ffff_ffff

  /** The pieces of s between occurrences of c. */
  function Split(s: string, c: char): (r: seq<string>)
    ensures r != []
  {
    if s == [] then [[]]
    else
      var r := Split(s[1..], c);
      if s[0] == c then [[]] + r else [[s[0]] + r[0]] + r[1..]
  }

  predicate AllDigits(s: string) {
    s != [] && forall i :: 0 <= i < |s| ==> Digit(s[i])
  }

  function DigitValue(c: char): (d: nat)
    requires Digit(c)
    ensures d < 10
  {
    c as int - '0' as int
  }

  function Value(s: string): nat
    requires forall i :: 0 <= i < |s| ==> Digit(s[i])
  {
    if s == [] then 0 else 10 * Value(Init(s)) + DigitValue(s[|s| - 1])
  }

  /** The standard library's decimal parser for unsigned integers: an optional
      plus, at least one digit, no overflow. */
  function Parse(s: string, max: nat): Option<nat> {
    var d := if StartsWith(s, '+') then s[1..] else s;
    if AllDigits(d) && Value(d) <= max then Some(Value(d)) else None
  }

  function Numbers(parts: seq<string>): seq<nat> {
    if parts == [] then [] else Number(parts[0]) + Numbers(parts[1..])
  }

  /** Components that do not parse are dropped. */
  function Number(part: string): seq<nat> {
    var n := Parse(part, U32_MAX);
    if n.Some? then [n.value] else []
  }

  predicate NumbersLess(a: seq<nat>, b: seq<nat>) {
    if b == [] then false
    else if a == [] then true
    else if a[0] != b[0] then a[0] < b[0]
    else NumbersLess(a[1..], b[1..])
  }

  function Field(fs: seq<string>, i: nat): string {
    if i < |fs| then fs[i] else []
  }

  /** How two different pre-release fields compare. */
  predicate FieldLess(a: string, b: string) {
    var an, bn := Parse(a, U64_MAX), Parse(b, U64_MAX);
    if an.Some? && bn.Some? then an.value < bn.value else TextLess(a, b)
  }

  /** The comparison loop from field i on. */
  predicate FieldsLess(a: seq<string>, b: seq<string>, i: nat)
    decreases |a| + |b| - i
  {
    if i >= |a| && i >= |b| then |a| < |b|
    else if Field(a, i) != Field(b, i) then FieldLess(Field(a, i), Field(b, i))
    else FieldsLess(a, b, i + 1)
  }

  function Base(v: string): seq<nat> {
    Numbers(Split(Split(v, '-')[0], '.'))
  }

  function PreRelease(v: string): string {
    Field(Split(v, '-'), 1)
  }

  /** `is_newer_version(current, manifest)`. */
  predicate Newer(current: string, manifest: string) {
    if NumbersLess(Base(current), Base(manifest)) then true
    else if NumbersLess(Base(manifest), Base(current)) then false
    else if PreRelease(current) == [] || PreRelease(manifest) == []
    then PreRelease(current) != [] && PreRelease(manifest) == []
    else FieldsLess(Split(PreRelease(current), '.'), Split(PreRelease(manifest), '.'), 0)
  }

  method ParseNumbers(base: string) returns (ns: seq<nat>)
    ensures ns == Numbers(Split(base, '.'))
  {
    var parts := Split(base, '.');
    ns := [];
    for i := 0 to |parts|
      invariant Numbers(parts) == ns + Numbers(parts[i..])
    {
      assert parts[i..][1..] == parts[i + 1..];
      Associative(ns, Number(parts[i]), Numbers(parts[i + 1..]));
      ns := ns + Number(parts[i]);
    }
  }

  method IsNewerVersion(current: string, manifest: string) returns (newer: bool)
    ensures newer == Newer(current, manifest)
  {
    var currentParts, manifestParts := Split(current, '-'), Split(manifest, '-');
    var curTuple := ParseNumbers(currentParts[0]);
    var manTuple := ParseNumbers(manifestParts[0]);
    if NumbersLess(curTuple, manTuple) {
      return true;
    }
    if NumbersLess(manTuple, curTuple) {
      return false;
    }
    var curPre, manPre := Field(currentParts, 1), Field(manifestParts, 1);
    if curPre == [] && manPre != [] {
      return false;
    }
    if curPre != [] && manPre == [] {
      return true;
    }
    if curPre == [] && manPre == [] {
      return false;
    }
    newer := CompareFields(Split(curPre, '.'), Split(manPre, '.'));
  }

  method CompareFields(curFields: seq<string>, manFields: seq<string>) returns (newer: bool)
    ensures newer == FieldsLess(curFields, manFields, 0)
  {
    var maxLen := if |curFields| < |manFields| then |manFields| else |curFields|;
    for i := 0 to maxLen
      invariant FieldsLess(curFields, manFields, 0) == FieldsLess(curFields, manFields, i)
    {
      var a, b := Field(curFields, i), Field(manFields, i);
      if a != b {
        var an, bn := Parse(a, U64_MAX), Parse(b, U64_MAX);
        if an.Some? && bn.Some? {
          return bn.value > an.value;
        }
        return TextLess(a, b);
      }
    }
    newer := |manFields| > |curFields|;
  }

  // ------------------------------------------------------- on every string

  lemma {:induction false} NumbersLessIrreflexive(a: seq<nat>)
    ensures !NumbersLess(a, a)
  {
    if a != [] {
      NumbersLessIrreflexive(a[1..]);
    }
  }

  lemma {:induction false} NumbersLessAsymmetric(a: seq<nat>, b: seq<nat>)
    ensures NumbersLess(a, b) ==> !NumbersLess(b, a)
  {
    if a != [] && b != [] && a[0] == b[0] {
      NumbersLessAsymmetric(a[1..], b[1..]);
    }
  }

  lemma {:induction false} NumbersTotal(a: seq<nat>, b: seq<nat>)
    ensures NumbersLess(a, b) || a == b || NumbersLess(b, a)
  {
    if a != [] && b != [] && a[0] == b[0] {
      NumbersTotal(a[1..], b[1..]);
    }
  }

  lemma {:induction false} FieldsLessAsymmetric(a: seq<string>, b: seq<string>, i: nat)
    ensures FieldsLess(a, b, i) ==> !FieldsLess(b, a, i)
    decreases |a| + |b| - i
  {
    if i < |a| || i < |b| {
      if Field(a, i) == Field(b, i) {
        FieldsLessAsymmetric(a, b, i + 1);
      } else {
        TextLessAsymmetric(Field(a, i), Field(b, i));
      }
    }
  }

  /** No version is newer than one that is newer than it, so none than itself. */
  lemma NewerIsAsymmetric(a: string, b: string)
    ensures Newer(a, b) ==> !Newer(b, a)
    ensures !Newer(a, a)
  {
    NumbersLessAsymmetric(Base(a), Base(b));
    NumbersLessIrreflexive(Base(a));
    FieldsLessAsymmetric(Split(PreRelease(a), '.'), Split(PreRelease(b), '.'), 0);
    FieldsLessAsymmetric(Split(PreRelease(a), '.'), Split(PreRelease(a), '.'), 0);
  }

  // ---------------------------------------------- Semantic Versioning 2.0.0

  datatype Identifier = Numeric(n: nat) | Alphanumeric(s: string)

  datatype SemVer = SemVer(major: nat, minor: nat, patch: nat, pre: seq<Identifier>)

  predicate Letter(c: char) {
    'a' <= c <= 'z' || 'A' <= c <= 'Z'
  }

  predicate IdentifierChar(c: char) {
    Letter(c) || Digit(c) || c == '-'
  }

  /** Section 9: letters, digits and hyphens; without anything but digits an
      identifier is a number. */
  ghost predicate ValidIdentifier(x: Identifier) {
    x.Alphanumeric? ==>
      && (forall i :: 0 <= i < |x.s| ==> IdentifierChar(x.s[i]))
      && (exists i :: 0 <= i < |x.s| && !Digit(x.s[i]))
  }

  ghost predicate ValidPre(pre: seq<Identifier>) {
    forall i :: 0 <= i < |pre| ==> ValidIdentifier(pre[i])
  }

  /** Versions of the standard without build metadata. */
  ghost predicate ValidVersion(v: SemVer) {
    ValidPre(v.pre)
  }

  /** Section 11.4: numeric identifiers numerically, others in ASCII order,
      numeric before alphanumeric. */
  predicate IdentifierLess(x: Identifier, y: Identifier) {
    match (x, y)
    case (Numeric(n), Numeric(m)) => n < m
    case (Numeric(_), Alphanumeric(_)) => true
    case (Alphanumeric(_), Numeric(_)) => false
    case (Alphanumeric(s), Alphanumeric(r)) => TextLess(s, r)
  }

  predicate PreLess(a: seq<Identifier>, b: seq<Identifier>) {
    if b == [] then false
    else if a == [] then true
    else if a[0] != b[0] then IdentifierLess(a[0], b[0])
    else PreLess(a[1..], b[1..])
  }

  predicate SameBase(a: SemVer, b: SemVer) {
    a.major == b.major && a.minor == b.minor && a.patch == b.patch
  }

  predicate BaseLess(a: SemVer, b: SemVer) {
    if a.major != b.major then a.major < b.major
    else if a.minor != b.minor then a.minor < b.minor
    else a.patch < b.patch
  }

  /** A version without a pre-release comes after those with one. */
  predicate PrePrecedes(a: seq<Identifier>, b: seq<Identifier>) {
    if a == [] || b == [] then a != [] && b == [] else PreLess(a, b)
  }

  /** Section 11: precedence of a below b. */
  predicate Precedes(a: SemVer, b: SemVer) {
    if SameBase(a, b) then PrePrecedes(a.pre, b.pre) else BaseLess(a, b)
  }

  function Decimal(n: nat): (s: string)
    ensures AllDigits(s)
  {
    var d := [('0' as int + n % 10) as char];
    if n < 10 then d else Decimal(n / 10) + d
  }

  function Spell(x: Identifier): string {
    match x
    case Numeric(n) => Decimal(n)
    case Alphanumeric(s) => s
  }

  function Spelled(pre: seq<Identifier>): (r: seq<string>)
    ensures |r| == |pre| && forall i :: 0 <= i < |pre| ==> r[i] == Spell(pre[i])
  {
    seq(|pre|, i requires 0 <= i < |pre| => Spell(pre[i]))
  }

  function Join(parts: seq<string>, c: char): string
    requires parts != []
  {
    if |parts| == 1 then parts[0] else parts[0] + [c] + Join(parts[1..], c)
  }

  function Triple(v: SemVer): seq<string> {
    [Decimal(v.major), Decimal(v.minor), Decimal(v.patch)]
  }

  /** The version as it is written. */
  function Render(v: SemVer): string {
    Join(Triple(v), '.') + if v.pre == [] then [] else ['-'] + Join(Spelled(v.pre), '.')
  }

  // ------------------------------------------------ precedence is an order

  lemma IdentifierLessIsOrder(x: Identifier, y: Identifier, z: Identifier)
    ensures IdentifierLess(x, y) || x == y || IdentifierLess(y, x)
    ensures !IdentifierLess(x, x)
    ensures IdentifierLess(x, y) && IdentifierLess(y, z) ==> IdentifierLess(x, z)
  {
    if x.Alphanumeric? && y.Alphanumeric? {
      TextLessTotal(x.s, y.s);
      if z.Alphanumeric? && TextLess(x.s, y.s) && TextLess(y.s, z.s) {
        TextLessTransitive(x.s, y.s, z.s);
      }
    }
    if x.Alphanumeric? {
      TextLessTotal(x.s, x.s);
    }
  }

  lemma {:induction false} PreLessTotal(a: seq<Identifier>, b: seq<Identifier>)
    ensures PreLess(a, b) || a == b || PreLess(b, a)
    ensures a == b ==> !PreLess(a, b)
  {
    if a != [] && b != [] {
      IdentifierLessIsOrder(a[0], b[0], a[0]);
      PreLessTotal(a[1..], b[1..]);
    }
  }

  lemma {:induction false} PreLessTransitive(a: seq<Identifier>, b: seq<Identifier>, c: seq<Identifier>)
    requires PreLess(a, b) && PreLess(b, c)
    ensures PreLess(a, c)
  {
    if a != [] {
      IdentifierLessIsOrder(a[0], b[0], c[0]);
      IdentifierLessIsOrder(b[0], a[0], b[0]);
      IdentifierLessIsOrder(a[0], a[0], a[0]);
      if a[0] == b[0] == c[0] {
        PreLessTransitive(a[1..], b[1..], c[1..]);
      }
    }
  }

  lemma PreLessAsymmetric(a: seq<Identifier>, b: seq<Identifier>)
    ensures PreLess(a, b) ==> !PreLess(b, a)
  {
    if PreLess(a, b) && PreLess(b, a) {
      PreLessTransitive(a, b, a);
      PreLessTotal(a, a);
    }
  }

  lemma PrecedesIsTotal(a: SemVer, b: SemVer)
    ensures Precedes(a, b) || a == b || Precedes(b, a)
    ensures Precedes(a, b) ==> !Precedes(b, a) && a != b
  {
    PreLessTotal(a.pre, b.pre);
    PreLessAsymmetric(a.pre, b.pre);
  }

  // ------------------------------------------------- spelling and splitting

  lemma {:induction false} SplitNone(s: string, c: char)
    requires c !in s
    ensures Split(s, c) == [s]
  {
    if s != [] {
      SplitNone(s[1..], c);
      assert [s[0]] + s[1..] == s;
    }
  }

  lemma {:induction false} SplitAt(a: string, c: char, b: string)
    requires c !in a
    ensures Split(a + [c] + b, c) == [a] + Split(b, c)
  {
    var s := a + [c] + b;
    if a == [] {
      assert s[1..] == b;
    } else {
      assert s[1..] == a[1..] + [c] + b;
      SplitAt(a[1..], c, b);
      assert [s[0]] + a[1..] == a;
    }
  }

  lemma {:induction false} SplitJoin(parts: seq<string>, c: char)
    requires parts != [] && forall i :: 0 <= i < |parts| ==> c !in parts[i]
    ensures Split(Join(parts, c), c) == parts
    decreases parts
  {
    if |parts| == 1 {
      SplitNone(parts[0], c);
    } else {
      SplitAt(parts[0], c, Join(parts[1..], c));
      SplitJoin(parts[1..], c);
    }
  }

  lemma {:induction false} JoinHas(parts: seq<string>, c: char, x: char)
    requires parts != [] && x != c && forall i :: 0 <= i < |parts| ==> x !in parts[i]
    ensures x !in Join(parts, c)
    decreases parts
  {
    if |parts| > 1 {
      JoinHas(parts[1..], c, x);
    }
  }

  lemma {:induction false} ValueOfDecimal(n: nat)
    ensures Value(Decimal(n)) == n
  {
    var d := [('0' as int + n % 10) as char];
    if n < 10 {
      assert Init(d) == [];
    } else {
      ValueOfDecimal(n / 10);
      assert Init(Decimal(n / 10) + d) == Decimal(n / 10);
    }
  }

  lemma ParseDecimal(n: nat, max: nat)
    ensures Parse(Decimal(n), max) == if n <= max then Some(n) else None
  {
    ValueOfDecimal(n);
  }

  lemma {:induction false} ValueOfZero(d: string)
    requires AllDigits(d)
    ensures AllDigits(['0'] + d) && Value(['0'] + d) == Value(d)
  {
    var z := ['0'] + d;
    assert Init(z) == ['0'] + Init(d);
    if |d| > 1 {
      ValueOfZero(Init(d));
    } else {
      assert Init(d) == [] && Init(['0']) == [] && Value(['0']) == 0;
    }
  }

  /** A plus sign and leading zeros are read as if they were not there. */
  lemma ParseSpellings(n: nat, max: nat)
    ensures Parse(['+'] + Decimal(n), max) == Parse(Decimal(n), max) == Parse(['0'] + Decimal(n), max)
  {
    assert (['+'] + Decimal(n))[1..] == Decimal(n);
    ValueOfZero(Decimal(n));
  }

  /** What stands before the first hyphen. */
  function BeforeHyphen(s: string): (p: string)
    ensures p <= s && '-' !in p
    ensures p == s <==> '-' !in s
    ensures |p| < |s| ==> s[|p|] == '-'
  {
    if s == [] || s[0] == '-' then [] else [s[0]] + BeforeHyphen(s[1..])
  }

  lemma {:induction false} SplitFirst(s: string)
    ensures Split(s, '-')[0] == BeforeHyphen(s)
  {
    if s != [] && s[0] != '-' {
      SplitFirst(s[1..]);
    }
  }

  /** The fields of a pre-release that the code gets to see: all up to the first
      hyphen in any of them. */
  function Cut(fields: seq<string>): (r: seq<string>)
    ensures r == [] <==> fields == []
  {
    if fields == [] then []
    else if '-' in fields[0] then [BeforeHyphen(fields[0])]
    else [fields[0]] + Cut(fields[1..])
  }

  lemma {:induction false} HyphenOfAppend(a: string, b: string)
    ensures BeforeHyphen(a + b) == if '-' in a then BeforeHyphen(a) else a + BeforeHyphen(b)
  {
    if a == [] {
      assert a + b == b;
    } else {
      assert (a + b)[0] == a[0] && (a + b)[1..] == a[1..] + b;
      if a[0] != '-' {
        HyphenOfAppend(a[1..], b);
      }
    }
  }

  lemma {:induction false} CutOfJoin(fields: seq<string>)
    requires fields != [] && forall i :: 0 <= i < |fields| ==> '.' !in fields[i]
    ensures Split(BeforeHyphen(Join(fields, '.')), '.') == Cut(fields)
    decreases fields
  {
    var x := fields[0];
    if |fields| == 1 {
      SplitNone(BeforeHyphen(x), '.');
    } else {
      var rest := Join(fields[1..], '.');
      HyphenOfAppend(x + ['.'], rest);
      HyphenOfAppend(x, ['.']);
      if '-' in x {
        SplitNone(BeforeHyphen(x), '.');
      } else {
        CutOfJoin(fields[1..]);
        SplitAt(x, '.', BeforeHyphen(rest));
      }
    }
  }

  lemma SpellClean(x: Identifier)
    requires ValidIdentifier(x)
    ensures Spell(x) != [] && '.' !in Spell(x)
  {
  }

  lemma DotFree(pre: seq<Identifier>)
    requires ValidPre(pre)
    ensures forall i :: 0 <= i < |pre| ==> '.' !in Spelled(pre)[i] && Spelled(pre)[i] != []
  {
    forall i | 0 <= i < |pre|
      ensures '.' !in Spelled(pre)[i] && Spelled(pre)[i] != []
    {
      SpellClean(pre[i]);
    }
  }

  /** The numbers that fit the code's integers; it drops the others. */
  function Kept(v: SemVer): seq<nat> {
    Fits(v.major) + Fits(v.minor) + Fits(v.patch)
  }

  function Fits(n: nat): seq<nat> {
    if n <= U32_MAX then [n] else []
  }

  lemma NumberFits(n: nat)
    ensures Number(Decimal(n)) == Fits(n)
  {
    ParseDecimal(n, U32_MAX);
  }

  lemma BaseOfRender(v: SemVer)
    requires ValidVersion(v)
    ensures Base(Render(v)) == Kept(v)
  {
    var base := Join(Triple(v), '.');
    JoinHas(Triple(v), '.', '-');
    if v.pre == [] {
      assert Render(v) == base;
      SplitNone(base, '-');
    } else {
      var pre := Join(Spelled(v.pre), '.');
      assert Render(v) == base + ['-'] + pre;
      SplitAt(base, '-', pre);
    }
    SplitJoin(Triple(v), '.');
    NumberFits(v.major);
    NumberFits(v.minor);
    NumberFits(v.patch);
    NumbersOfThree(Triple(v));
  }

  lemma NumbersOfThree(parts: seq<string>)
    requires |parts| == 3
    ensures Numbers(parts) == Number(parts[0]) + Number(parts[1]) + Number(parts[2])
  {
    assert Numbers(parts[3..]) == [];
    assert parts[2..][1..] == parts[3..] && parts[1..][1..] == parts[2..];
    assert Numbers(parts[2..]) == Number(parts[2]);
    Associative(Number(parts[0]), Number(parts[1]), Number(parts[2]));
  }

  predicate AllFit(v: SemVer) {
    v.major <= U32_MAX && v.minor <= U32_MAX && v.patch <= U32_MAX
  }

  /** Numbers that all fit are compared as the standard says. */
  lemma FittingOrder(a: SemVer, b: SemVer)
    requires AllFit(a) && AllFit(b)
    ensures Kept(a) == Kept(b) <==> SameBase(a, b)
    ensures !SameBase(a, b) ==> (NumbersLess(Kept(a), Kept(b)) <==> BaseLess(a, b))
  {
    assert Kept(a) == [a.major, a.minor, a.patch] && Kept(b) == [b.major, b.minor, b.patch];
    NumbersLessOfThree(a.major, a.minor, a.patch, b.major, b.minor, b.patch);
  }

  lemma NumbersLessOfThree(a: nat, b: nat, c: nat, d: nat, e: nat, f: nat)
    ensures NumbersLess([a, b, c], [d, e, f]) <==> if a != d then a < d else if b != e then b < e else c < f
  {
    assert [a, b, c][1..] == [b, c] && [d, e, f][1..] == [e, f];
    assert [b, c][1..] == [c] && [e, f][1..] == [f];
    assert NumbersLess([c], [f]) <==> c < f by {
      assert [c][1..] == [] && [f][1..] == [];
    }
    assert NumbersLess([b, c], [e, f]) <==> if b != e then b < e else c < f;
  }

  /** The pre-release as the code reads it. */
  lemma PreReleaseOfRender(v: SemVer)
    requires ValidVersion(v)
    ensures PreRelease(Render(v)) == if v.pre == [] then [] else BeforeHyphen(Join(Spelled(v.pre), '.'))
  {
    var base := Join(Triple(v), '.');
    JoinHas(Triple(v), '.', '-');
    if v.pre == [] {
      assert Render(v) == base;
      SplitNone(base, '-');
    } else {
      var pre := Join(Spelled(v.pre), '.');
      assert Render(v) == base + ['-'] + pre;
      SplitAt(base, '-', pre);
      SplitFirst(pre);
    }
  }

  // ------------------------------------------------- how identifiers compare

  /** What the code reads of an identifier. */
  function Seen(x: Identifier): string {
    BeforeHyphen(Spell(x))
  }

  /** Read as a number, y does not come after x. */
  predicate NotAfter(y: string, x: string) {
    Parse(x, U64_MAX).Some? && Parse(y, U64_MAX).Some? && Parse(y, U64_MAX).value <= Parse(x, U64_MAX).value
  }

  predicate BothNumbers(x: string, y: string) {
    Parse(x, U64_MAX).Some? && Parse(y, U64_MAX).Some?
  }

  /** Different identifiers that the code puts in another order than the
      standard, or in none. Either a hyphen hides what tells them apart; or one
      is numeric and the other is read as no greater; or both are numeric, too
      large for the code, and their decimals order the other way as text; or
      hyphens leave digits of two others, which order the other way. */
  predicate Clash(x: Identifier, y: Identifier) {
    || Seen(x) == Seen(y)
    || match (x, y)
       case (Numeric(n), Numeric(m)) =>
         (n > U64_MAX || m > U64_MAX) && (if n < m then TextLess(Decimal(m), Decimal(n)) else TextLess(Decimal(n), Decimal(m)))
       case (Numeric(n), Alphanumeric(_)) => PutsFirst(Seen(y), Decimal(n))
       case (Alphanumeric(_), Numeric(m)) => PutsFirst(Seen(x), Decimal(m))
       case (Alphanumeric(_), Alphanumeric(_)) =>
         BothNumbers(Seen(x), Seen(y)) && (if TextLess(Seen(x), Seen(y)) then NotAfter(Seen(y), Seen(x)) else NotAfter(Seen(x), Seen(y)))
  }

  /** The code does not put y, an alphanumeric identifier, after the number x. */
  predicate PutsFirst(y: string, x: string) {
    if BothNumbers(x, y) then NotAfter(y, x) else TextLess(y, x)
  }

  lemma {:induction false} PrefixLess(c: string, w: string)
    requires w != []
    ensures TextLess(c, c + w) && !TextLess(c + w, c)
  {
    if c != [] {
      PrefixLess(c[1..], w);
      assert (c + w)[1..] == c[1..] + w;
    }
  }

  predicate Tail(u: string) {
    u == [] || u[0] == '-'
  }

  predicate AfterHyphen(c: string) {
    forall i :: 0 <= i < |c| ==> c[i] > '-'
  }

  /** A hyphen comes before letters and digits, so what follows one never decides
      between texts that differ before it. */
  lemma {:induction false} HyphenKeepsOrder(c: string, u: string, d: string, w: string)
    requires AfterHyphen(c) && AfterHyphen(d) && Tail(u) && Tail(w) && c != d
    ensures TextLess(c + u, d + w) <==> TextLess(c, d)
  {
    if c == [] {
      assert c + u == u;
    } else if d == [] {
      assert d + w == w;
    } else {
      assert (c + u)[0] == c[0] && (c + u)[1..] == c[1..] + u;
      assert (d + w)[0] == d[0] && (d + w)[1..] == d[1..] + w;
      if c[0] == d[0] {
        assert c == [c[0]] + c[1..] && d == [d[0]] + d[1..];
        HyphenKeepsOrder(c[1..], u, d[1..], w);
      }
    }
  }

  lemma SeenFacts(x: Identifier) returns (u: string)
    requires ValidIdentifier(x)
    ensures Spell(x) == Seen(x) + u && Tail(u) && AfterHyphen(Seen(x))
    ensures u == [] <==> '-' !in Spell(x)
  {
    var w, p := Spell(x), Seen(x);
    SpellChars(x);
    assert p <= w;
    u := w[|p|..];
    assert w == p + u;
    assert u != [] ==> u[0] == w[|p|] == '-';
    forall i | 0 <= i < |p|
      ensures p[i] > '-'
    {
      assert p[i] == w[i];
      assert p[i] in p;
    }
  }

  lemma SpellChars(x: Identifier)
    requires ValidIdentifier(x)
    ensures forall i :: 0 <= i < |Spell(x)| ==> IdentifierChar(Spell(x)[i])
  {
  }

  lemma SpellInjective(x: Identifier, y: Identifier)
    requires ValidIdentifier(x) && ValidIdentifier(y)
    ensures Spell(x) == Spell(y) <==> x == y
  {
    if x.Numeric? {
      ValueOfDecimal(x.n);
    }
    if y.Numeric? {
      ValueOfDecimal(y.n);
    }
  }

  lemma NumberSeen(n: nat)
    ensures Seen(Numeric(n)) == Decimal(n) && Parse(Decimal(n), U64_MAX) == if n <= U64_MAX then Some(n) else None
  {
    ParseDecimal(n, U64_MAX);
  }

  /** The code compares what it sees of x and y as the standard compares x and y. */
  predicate SameOrder(x: Identifier, y: Identifier) {
    && (FieldLess(Seen(x), Seen(y)) <==> IdentifierLess(x, y))
    && (FieldLess(Seen(y), Seen(x)) <==> IdentifierLess(y, x))
  }

  lemma TextOrder(x: Identifier, y: Identifier)
    requires ValidIdentifier(x) && ValidIdentifier(y) && Seen(x) != Seen(y)
    ensures TextLess(Spell(x), Spell(y)) <==> TextLess(Seen(x), Seen(y))
  {
    var u := SeenFacts(x);
    var w := SeenFacts(y);
    HyphenKeepsOrder(Seen(x), u, Seen(y), w);
  }

  lemma NumbersClash(n: nat, m: nat)
    requires n != m
    ensures SameOrder(Numeric(n), Numeric(m)) <==> !Clash(Numeric(n), Numeric(m))
  {
    NumberSeen(n);
    NumberSeen(m);
    ValueOfDecimal(n);
    ValueOfDecimal(m);
    TextLessTotal(Decimal(n), Decimal(m));
    TextLessAsymmetric(Decimal(n), Decimal(m));
  }

  lemma NumberTextClash(n: nat, y: Identifier)
    requires ValidIdentifier(y) && y.Alphanumeric? && Decimal(n) != Seen(y)
    ensures SameOrder(Numeric(n), y) <==> !PutsFirst(Seen(y), Decimal(n))
  {
    NumberSeen(n);
    TextLessTotal(Decimal(n), Seen(y));
    TextLessAsymmetric(Decimal(n), Seen(y));
  }

  lemma TextsClash(x: Identifier, y: Identifier)
    requires ValidIdentifier(x) && ValidIdentifier(y) && Seen(x) != Seen(y)
    requires x.Alphanumeric? && y.Alphanumeric?
    ensures SameOrder(x, y) <==> !Clash(x, y)
  {
    TextOrder(x, y);
    TextOrder(y, x);
    TextLessTotal(Seen(x), Seen(y));
    TextLessAsymmetric(Seen(x), Seen(y));
  }

  /** Seen differently, two identifiers are ordered as the standard says exactly
      when they do not clash. */
  lemma OrderIsClash(x: Identifier, y: Identifier)
    requires ValidIdentifier(x) && ValidIdentifier(y) && Seen(x) != Seen(y)
    ensures SameOrder(x, y) <==> !Clash(x, y)
  {
    if x.Alphanumeric? && y.Alphanumeric? {
      TextsClash(x, y);
    } else if x.Numeric? {
      NumberSeen(x.n);
      if y.Numeric? {
        NumbersClash(x.n, y.n);
      } else {
        NumberTextClash(x.n, y);
      }
    } else {
      NumberSeen(y.n);
      NumberTextClash(y.n, x);
    }
  }

  /** An identifier comes before those that go on after it with a hyphen. */
  lemma HyphenComesAfter(x: Identifier, y: Identifier)
    requires ValidIdentifier(x) && ValidIdentifier(y) && Spell(y) == Seen(x) && Spell(x) != Seen(x)
    ensures IdentifierLess(y, x) && !IdentifierLess(x, y)
  {
    var u := SeenFacts(x);
    PrefixLess(Spell(y), u);
    if x.Numeric? {
      NumberSeen(x.n);
    }
  }

  // ------------------------------------------------ how pre-releases compare

  /** The comparison loop, field by field. */
  predicate Below(a: seq<string>, b: seq<string>) {
    if b == [] then false
    else if a == [] then true
    else if a[0] != b[0] then FieldLess(a[0], b[0])
    else Below(a[1..], b[1..])
  }

  lemma {:induction false} OneSideDone(a: seq<string>, b: seq<string>, i: nat)
    requires |a| <= i <= |b|
    ensures FieldsLess(a, b, i) <==> |a| < |b|
    ensures !FieldsLess(b, a, i)
    decreases |b| - i
  {
    if i < |b| && b[i] == [] {
      OneSideDone(a, b, i + 1);
    }
  }

  lemma {:induction false} LoopIsBelow(a: seq<string>, b: seq<string>, i: nat)
    requires i <= |a| && i <= |b|
    ensures FieldsLess(a, b, i) <==> Below(a[i..], b[i..])
    decreases |a| - i
  {
    if i == |a| {
      OneSideDone(a, b, i);
    } else if i == |b| {
      OneSideDone(b, a, i);
    } else if a[i] == b[i] {
      LoopIsBelow(a, b, i + 1);
      assert a[i..][1..] == a[i + 1..] && b[i..][1..] == b[i + 1..];
    }
  }

  predicate Hyphened(x: Identifier) {
    '-' in Spell(x)
  }

  /** The pre-releases differ, and the code orders them otherwise than the
      standard: a hyphen in a common identifier hides the difference, or the
      first identifiers that differ clash. */
  predicate Misread(a: seq<Identifier>, b: seq<Identifier>) {
    && a != [] && b != []
    && if a[0] != b[0] then Clash(a[0], b[0])
       else if Hyphened(a[0]) then a != b
       else Misread(a[1..], b[1..])
  }

  ghost predicate SamePre(a: seq<Identifier>, b: seq<Identifier>) {
    && (Below(Cut(Spelled(a)), Cut(Spelled(b))) <==> PreLess(a, b))
    && (Below(Cut(Spelled(b)), Cut(Spelled(a))) <==> PreLess(b, a))
  }

  lemma CutHead(a: seq<Identifier>)
    requires a != []
    ensures Cut(Spelled(a)) == [Seen(a[0])] + if Hyphened(a[0]) then [] else Cut(Spelled(a[1..]))
  {
    assert Spelled(a)[1..] == Spelled(a[1..]);
  }

  lemma BelowCons(x: string, a: seq<string>, y: string, b: seq<string>)
    ensures Below([x] + a, [y] + b) <==> if x != y then FieldLess(x, y) else Below(a, b)
  {
    assert ([x] + a)[1..] == a && ([y] + b)[1..] == b;
  }

  /** What is left of the fields after the first. */
  function CutRest(a: seq<Identifier>): seq<string>
    requires a != []
  {
    if Hyphened(a[0]) then [] else Cut(Spelled(a[1..]))
  }

  /** The code compares the first fields, and the rest if they are seen alike. */
  lemma BelowFirst(a: seq<Identifier>, b: seq<Identifier>)
    requires a != [] && b != []
    ensures Below(Cut(Spelled(a)), Cut(Spelled(b))) <==>
              if Seen(a[0]) != Seen(b[0]) then FieldLess(Seen(a[0]), Seen(b[0])) else Below(CutRest(a), CutRest(b))
  {
    CutHead(a);
    CutHead(b);
    BelowCons(Seen(a[0]), CutRest(a), Seen(b[0]), CutRest(b));
  }

  /** A hyphen hides the difference between the first identifiers. */
  lemma HiddenDifference(a: seq<Identifier>, b: seq<Identifier>)
    requires ValidPre(a) && ValidPre(b) && a != [] && b != [] && a[0] != b[0] && Seen(a[0]) == Seen(b[0])
    ensures !SamePre(a, b)
  {
    BelowFirst(a, b);
    BelowFirst(b, a);
    SpellInjective(a[0], b[0]);
    IdentifierLessIsOrder(a[0], b[0], a[0]);
    if Hyphened(a[0]) && !Hyphened(b[0]) {
      HyphenComesAfter(a[0], b[0]);
    }
    if Hyphened(b[0]) && !Hyphened(a[0]) {
      HyphenComesAfter(b[0], a[0]);
    }
  }

  lemma DifferentHeads(a: seq<Identifier>, b: seq<Identifier>)
    requires ValidPre(a) && ValidPre(b) && a != [] && b != [] && a[0] != b[0]
    ensures SamePre(a, b) <==> !Clash(a[0], b[0])
  {
    if Seen(a[0]) == Seen(b[0]) {
      HiddenDifference(a, b);
    } else {
      BelowFirst(a, b);
      BelowFirst(b, a);
      OrderIsClash(a[0], b[0]);
    }
  }

  lemma CommonHead(a: seq<Identifier>, b: seq<Identifier>)
    requires a != [] && b != [] && a[0] == b[0]
    ensures SamePre(a, b) <==> if Hyphened(a[0]) then a == b else SamePre(a[1..], b[1..])
  {
    BelowFirst(a, b);
    BelowFirst(b, a);
    PreLessTotal(a[1..], b[1..]);
    PreLessAsymmetric(a[1..], b[1..]);
    SameTails(a, b);
  }

  lemma SameTails<T>(a: seq<T>, b: seq<T>)
    requires a != [] && b != [] && a[0] == b[0]
    ensures a == b <==> a[1..] == b[1..]
  {
    assert a == [a[0]] + a[1..] && b == [b[0]] + b[1..];
  }

  lemma {:induction false} PreOrder(a: seq<Identifier>, b: seq<Identifier>)
    requires ValidPre(a) && ValidPre(b)
    ensures SamePre(a, b) <==> !Misread(a, b)
  {
    if a != [] && b != [] {
      if a[0] != b[0] {
        DifferentHeads(a, b);
      } else {
        CommonHead(a, b);
        PreOrder(a[1..], b[1..]);
      }
    }
  }

  // ---------------------------------------------------- how versions compare

  /** A version whose pre-release starts with a hyphen is taken for a release. */
  predicate LooksReleased(pre: seq<Identifier>) {
    pre == [] || Seen(pre[0]) == []
  }

  /** How the code orders the pre-releases, by what it sees of them. */
  predicate ReadsLess(a: seq<Identifier>, b: seq<Identifier>) {
    if LooksReleased(a) || LooksReleased(b) then !LooksReleased(a) && LooksReleased(b)
    else Below(Cut(Spelled(a)), Cut(Spelled(b)))
  }

  predicate PreMisordered(a: seq<Identifier>, b: seq<Identifier>) {
    if LooksReleased(a) && LooksReleased(b) then a != b
    else if LooksReleased(a) then a != [] && b[0].Alphanumeric?
    else if LooksReleased(b) then b != [] && a[0].Alphanumeric?
    else Misread(a, b)
  }

  /** Exactly when the code orders two versions otherwise than the standard. With
      the same three numbers the pre-releases decide. With different ones the
      numbers that fit are left in another order; or the same ones are left, and
      the pre-releases the code then goes by are not read in the right order. */
  predicate Misordered(a: SemVer, b: SemVer) {
    if SameBase(a, b) then PreMisordered(a.pre, b.pre)
    else if Kept(a) != Kept(b) then BaseLess(a, b) <==> NumbersLess(Kept(b), Kept(a))
    else if BaseLess(a, b) then !ReadsLess(a.pre, b.pre)
    else !ReadsLess(b.pre, a.pre)
  }

  lemma ReadPre(v: SemVer)
    requires ValidVersion(v)
    ensures PreRelease(Render(v)) == [] <==> LooksReleased(v.pre)
    ensures !LooksReleased(v.pre) ==> Split(PreRelease(Render(v)), '.') == Cut(Spelled(v.pre))
  {
    PreReleaseOfRender(v);
    if v.pre != [] {
      DotFree(v.pre);
      CutOfJoin(Spelled(v.pre));
      var pre := Join(Spelled(v.pre), '.');
      assert pre[0] == Spell(v.pre[0])[0];
    }
  }

  /** An identifier that starts with a hyphen comes after numbers and before all
      others. */
  lemma LeadingHyphen(x: Identifier, y: Identifier)
    requires ValidIdentifier(x) && ValidIdentifier(y) && Seen(x) == [] && Seen(y) != []
    ensures IdentifierLess(x, y) <==> y.Alphanumeric?
    ensures IdentifierLess(y, x) <==> y.Numeric?
  {
    SpellClean(x);
    if x.Numeric? {
      NumberSeen(x.n);
    }
    TextOrder(x, y);
    TextOrder(y, x);
  }

  /** One version looks released only because its pre-release starts with a
      hyphen. */
  lemma ReleaseCase(a: seq<Identifier>, b: seq<Identifier>)
    requires ValidPre(a) && ValidPre(b) && a != [] && LooksReleased(a) && !LooksReleased(b)
    ensures PreLess(b, a) <==> b[0].Numeric?
    ensures PreLess(a, b) <==> b[0].Alphanumeric?
  {
    LeadingHyphen(a[0], b[0]);
  }

  /** The code compares the numbers that fit, and then what it sees of the
      pre-releases. */
  lemma NewerReads(a: SemVer, b: SemVer)
    requires ValidVersion(a) && ValidVersion(b)
    ensures Newer(Render(a), Render(b)) <==>
              if Kept(a) != Kept(b) then NumbersLess(Kept(a), Kept(b)) else ReadsLess(a.pre, b.pre)
  {
    BaseOfRender(a);
    BaseOfRender(b);
    NumbersTotal(Kept(a), Kept(b));
    NumbersLessAsymmetric(Kept(a), Kept(b));
    NumbersLessIrreflexive(Kept(a));
    ReadPre(a);
    ReadPre(b);
    if !LooksReleased(a.pre) && !LooksReleased(b.pre) {
      LoopIsBelow(Cut(Spelled(a.pre)), Cut(Spelled(b.pre)), 0);
    }
  }

  lemma PreVerdict(a: seq<Identifier>, b: seq<Identifier>)
    requires ValidPre(a) && ValidPre(b)
    ensures ((ReadsLess(a, b) <==> PrePrecedes(a, b)) && (ReadsLess(b, a) <==> PrePrecedes(b, a))) <==>
              !PreMisordered(a, b)
  {
    PreLessTotal(a, b);
    PreLessAsymmetric(a, b);
    if !LooksReleased(a) && !LooksReleased(b) {
      PreOrder(a, b);
    } else if !LooksReleased(b) && a != [] {
      ReleaseCase(a, b);
    } else if !LooksReleased(a) && b != [] {
      ReleaseCase(b, a);
    }
  }

  /** On versions of the standard "newer" is the precedence of section 11, both
      ways, exactly when the versions are not misordered. */
  lemma NewerIsPrecedence(a: SemVer, b: SemVer)
    requires ValidVersion(a) && ValidVersion(b)
    ensures (&& (Newer(Render(a), Render(b)) <==> Precedes(a, b))
             && (Newer(Render(b), Render(a)) <==> Precedes(b, a))) <==> !Misordered(a, b)
  {
    NewerReads(a, b);
    NewerReads(b, a);
    NewerIsAsymmetric(Render(a), Render(b));
    PreVerdict(a.pre, b.pre);
    NumbersTotal(Kept(a), Kept(b));
    NumbersLessAsymmetric(Kept(a), Kept(b));
  }

  // ------------------------------------------------- without hyphens

  /** No hyphen, and numbers that fit the code's integers. */
  ghost predicate PlainPre(pre: seq<Identifier>) {
    && ValidPre(pre)
    && forall i :: 0 <= i < |pre| ==> !Hyphened(pre[i]) && (pre[i].Numeric? ==> pre[i].n <= U64_MAX)
  }

  ghost predicate Plain(v: SemVer) {
    ValidVersion(v) && AllFit(v) && PlainPre(v.pre)
  }

  /** A number beside an identifier that comes before its digits as text. */
  predicate TextBeforeNumber(x: Identifier, y: Identifier) {
    || (x.Numeric? && y.Alphanumeric? && TextLess(y.s, Decimal(x.n)))
    || (y.Numeric? && x.Alphanumeric? && TextLess(x.s, Decimal(y.n)))
  }

  /** Where two pre-releases first differ stand such a pair. */
  predicate TextBeforeNumberFirst(a: seq<Identifier>, b: seq<Identifier>) {
    && a != [] && b != []
    && if a[0] == b[0] then TextBeforeNumberFirst(a[1..], b[1..]) else TextBeforeNumber(a[0], b[0])
  }

  lemma PlainClash(x: Identifier, y: Identifier)
    requires ValidIdentifier(x) && ValidIdentifier(y) && !Hyphened(x) && !Hyphened(y) && x != y
    requires (x.Numeric? ==> x.n <= U64_MAX) && (y.Numeric? ==> y.n <= U64_MAX)
    ensures Clash(x, y) <==> TextBeforeNumber(x, y)
  {
    SpellInjective(x, y);
    TextIsNoNumber(x);
    TextIsNoNumber(y);
  }

  lemma TextIsNoNumber(x: Identifier)
    requires ValidIdentifier(x) && !Hyphened(x)
    ensures Seen(x) == Spell(x) && (x.Alphanumeric? ==> Parse(x.s, U64_MAX).None?)
  {
  }

  lemma {:induction false} PlainMisread(a: seq<Identifier>, b: seq<Identifier>)
    requires PlainPre(a) && PlainPre(b)
    ensures Misread(a, b) <==> TextBeforeNumberFirst(a, b)
  {
    if a != [] && b != [] {
      if a[0] == b[0] {
        PlainMisread(a[1..], b[1..]);
      } else {
        PlainClash(a[0], b[0]);
      }
    }
  }

  lemma PlainIdentifiersAreOrdered(x: Identifier, y: Identifier)
    requires ValidIdentifier(x) && ValidIdentifier(y) && !Hyphened(x) && !Hyphened(y) && x != y
    requires (x.Numeric? ==> x.n <= U64_MAX) && (y.Numeric? ==> y.n <= U64_MAX)
    ensures FieldLess(Spell(x), Spell(y)) || FieldLess(Spell(y), Spell(x))
  {
    SpellInjective(x, y);
    TextLessTotal(Spell(x), Spell(y));
    if x.Numeric? {
      NumberSeen(x.n);
    }
    if y.Numeric? {
      NumberSeen(y.n);
    }
  }

  lemma {:induction false} PlainIsOrdered(a: seq<Identifier>, b: seq<Identifier>)
    requires PlainPre(a) && PlainPre(b)
    ensures Below(Cut(Spelled(a)), Cut(Spelled(b))) || a == b || Below(Cut(Spelled(b)), Cut(Spelled(a)))
  {
    if a != [] && b != [] {
      BelowFirst(a, b);
      BelowFirst(b, a);
      if a[0] == b[0] {
        PlainIsOrdered(a[1..], b[1..]);
        SameTails(a, b);
      } else {
        SpellInjective(a[0], b[0]);
        PlainIdentifiersAreOrdered(a[0], b[0]);
      }
    }
  }

  lemma PlainIsTotal(a: SemVer, b: SemVer)
    requires Plain(a) && Plain(b)
    ensures Newer(Render(a), Render(b)) || a == b || Newer(Render(b), Render(a))
  {
    NewerReads(a, b);
    NewerReads(b, a);
    NumbersTotal(Kept(a), Kept(b));
    FittingOrder(a, b);
    PlainReleased(a);
    PlainReleased(b);
    PlainIsOrdered(a.pre, b.pre);
  }

  lemma PlainReleased(v: SemVer)
    requires Plain(v)
    ensures LooksReleased(v.pre) <==> v.pre == []
  {
    if v.pre != [] {
      SpellClean(v.pre[0]);
      assert Seen(v.pre[0]) == Spell(v.pre[0]);
    }
  }

  /** Without hyphens the code never leaves two versions unordered, so one
      direction says it all: "newer" is precedence exactly when the first
      identifiers that differ are not a number and a text before its digits. */
  lemma PlainNewerIsPrecedence(a: SemVer, b: SemVer)
    requires Plain(a) && Plain(b)
    ensures (Newer(Render(a), Render(b)) <==> Precedes(a, b)) <==>
              !(SameBase(a, b) && TextBeforeNumberFirst(a.pre, b.pre))
  {
    NewerIsPrecedence(a, b);
    FittingOrder(a, b);
    FittingOrder(b, a);
    PlainMisread(a.pre, b.pre);
    NewerIsAsymmetric(Render(a), Render(b));
    PrecedesIsTotal(a, b);
    PlainReleased(a);
    PlainReleased(b);
    PlainIsTotal(a, b);
  }

  // ------------------------------------------------- a strict total order

  /** Identifiers that are not numbers start with a letter. */
  ghost predicate LetterInitial(v: SemVer) {
    Plain(v) && forall i :: 0 <= i < |v.pre| && v.pre[i].Alphanumeric? ==> Letter(v.pre[i].s[0])
  }

  lemma {:induction false} LettersNeverClash(a: seq<Identifier>, b: seq<Identifier>)
    requires forall i :: 0 <= i < |a| && a[i].Alphanumeric? ==> a[i].s != [] && Letter(a[i].s[0])
    requires forall i :: 0 <= i < |b| && b[i].Alphanumeric? ==> b[i].s != [] && Letter(b[i].s[0])
    ensures !TextBeforeNumberFirst(a, b)
  {
    if a != [] && b != [] && a[0] == b[0] {
      LettersNeverClash(a[1..], b[1..]);
    }
  }

  /** There "newer" is precedence, and so a strict total order. */
  lemma NewerIsStrictTotalOrder(a: SemVer, b: SemVer, c: SemVer)
    requires LetterInitial(a) && LetterInitial(b) && LetterInitial(c)
    ensures Newer(Render(a), Render(b)) <==> Precedes(a, b)
    ensures !Newer(Render(a), Render(a))
    ensures Newer(Render(a), Render(b)) || a == b || Newer(Render(b), Render(a))
    ensures Newer(Render(a), Render(b)) && Newer(Render(b), Render(c)) ==> Newer(Render(a), Render(c))
  {
    LetterPrecedence(a, a);
    LetterPrecedence(a, b);
    LetterPrecedence(b, a);
    LetterPrecedence(b, c);
    LetterPrecedence(a, c);
    PrecedesIsTotal(a, b);
    PrecedesIsTotal(a, a);
    if PreLess(a.pre, b.pre) && PreLess(b.pre, c.pre) {
      PreLessTransitive(a.pre, b.pre, c.pre);
    }
  }

  lemma LetterPrecedence(a: SemVer, b: SemVer)
    requires LetterInitial(a) && LetterInitial(b)
    ensures Newer(Render(a), Render(b)) <==> Precedes(a, b)
  {
    PlainNewerIsPrecedence(a, b);
    LettersNeverClash(a.pre, b.pre);
  }

  // ------------------------------------------------------ outside that domain

  lemma OneField(base: string, x: string)
    requires '-' !in base && x != [] && '-' !in x && '.' !in x
    ensures Base(base + ['-'] + x) == Numbers(Split(base, '.'))
    ensures PreRelease(base + ['-'] + x) == x && Split(x, '.') == [x]
  {
    SplitAt(base, '-', x);
    SplitNone(x, '-');
    SplitNone(x, '.');
  }

  /** Versions that differ in a single pre-release field compare by it. */
  lemma NewerByOneField(base: string, x: string, y: string)
    requires '-' !in base && x != y
    requires x != [] && '-' !in x && '.' !in x
    requires y != [] && '-' !in y && '.' !in y
    ensures Newer(base + ['-'] + x, base + ['-'] + y) <==> FieldLess(x, y)
  {
    OneField(base, x);
    OneField(base, y);
    NumbersLessIrreflexive(Numbers(Split(base, '.')));
    assert Field([x], 0) == x && Field([y], 0) == y;
  }

  /** Identifiers that mix a leading digit with letters are compared as text,
      also with numbers; so 9 < 10 < 1a < 9, and "newer" is no order there. */
  lemma MixedIdentifiersFormACycle(base: string)
    requires '-' !in base
    ensures Newer(base + "-" + "9", base + "-" + "10")
    ensures Newer(base + "-" + "10", base + "-" + "1a")
    ensures Newer(base + "-" + "1a", base + "-" + "9")
  {
    NewerByOneField(base, "9", "10");
    NewerByOneField(base, "10", "1a");
    NewerByOneField(base, "1a", "9");
    NineTenOneA();
  }

  lemma NineTenOneA()
    ensures FieldLess("9", "10") && FieldLess("10", "1a") && FieldLess("1a", "9")
  {
    assert Value("9") == 9 && Value("10") == 10 by {
      assert Init("9") == "" && Init("10") == "1" && Init("1") == "";
    }
    assert !Digit("1a"[1]) && Parse("1a", U64_MAX).None?;
    assert "10"[1..] == "0" && "1a"[1..] == "a" && TextLess("0", "a");
  }

  /** The code drops what follows a second hyphen, so it leaves versions unordered
      that differ only there. */
  lemma HyphensHideTheRest(base: string, p: string, u: string, w: string)
    requires '-' !in base && '-' !in p
    ensures !Newer(base + ['-'] + (p + ['-'] + u), base + ['-'] + (p + ['-'] + w))
  {
    SplitAt(base, '-', p + ['-'] + u);
    SplitAt(base, '-', p + ['-'] + w);
    SplitAt(p, '-', u);
    SplitAt(p, '-', w);
    NumbersLessIrreflexive(Numbers(Split(base, '.')));
    FieldsLessAsymmetric(Split(p, '.'), Split(p, '.'), 0);
  }

  /** The largest numbers the code reads. */
  lemma LargestNumbers()
    ensures Number(Decimal(4294967295)) == [4294967295] && Number(Decimal(4294967296)) == []
    ensures Parse(Decimal(18446744073709551615), U64_MAX).Some? && Parse(Decimal(18446744073709551616), U64_MAX).None?
  {
    ParseDecimal(4294967295, U32_MAX);
    ParseDecimal(4294967296, U32_MAX);
    ParseDecimal(18446744073709551615, U64_MAX);
    ParseDecimal(18446744073709551616, U64_MAX);
  }

  /** A number beyond 32 bits is dropped, so 4294967296.0.0 counts as older than
      1.0.0. */
  lemma LargeNumbersAreDropped()
    ensures var one, large := SemVer(1, 0, 0, []), SemVer(4294967296, 0, 0, []);
            Precedes(one, large) && Newer(Render(large), Render(one))
  {
    var one, large := SemVer(1, 0, 0, []), SemVer(4294967296, 0, 0, []);
    KeptOfLarge();
    NewerReads(large, one);
    assert NumbersLess([0, 0], [1, 0, 0]) && |Kept(one)| != |Kept(large)|;
  }

  lemma KeptOfLarge()
    ensures Kept(SemVer(1, 0, 0, [])) == [1, 0, 0] && Kept(SemVer(4294967296, 0, 0, [])) == [0, 0]
  {
  }

  lemma BaseOfComponents(parts: seq<string>)
    requires parts != [] && forall i :: 0 <= i < |parts| ==> '.' !in parts[i] && '-' !in parts[i]
    ensures Base(Join(parts, '.')) == Numbers(parts)
  {
    SplitJoin(parts, '.');
    JoinHas(parts, '.', '-');
    SplitNone(Join(parts, '.'), '-');
  }

  lemma JoinCons(x: string, rest: seq<string>)
    requires rest != []
    ensures Join([x] + rest, '.') == x + ['.'] + Join(rest, '.')
  {
    assert ([x] + rest)[1..] == rest;
  }

  lemma NumbersCons(x: string, rest: seq<string>)
    ensures Numbers([x] + rest) == Number(x) + Numbers(rest)
  {
    assert ([x] + rest)[1..] == rest;
  }

  const PLAIN: seq<string> := ["1"] + (["0"] + ["0"])

  lemma PlainNumbers()
    ensures Numbers(PLAIN) == [1, 0, 0]
  {
    ComponentsOfBuild();
    NumbersCons("1", ["0"] + ["0"]);
    NumbersCons("0", ["0"]);
    NumbersCons("0", []);
    assert ["0"] + [] == ["0"];
  }

  lemma PlainComponents()
    ensures Base("1.0.0") == [1, 0, 0]
  {
    JoinCons("1", ["0"] + ["0"]);
    JoinCons("0", ["0"]);
    assert Join(PLAIN, '.') == "1.0.0";
    PlainNumbers();
    BaseOfComponents(PLAIN);
  }

  const BUILD: seq<string> := ["1"] + (["0"] + (["0+1"] + ["5"]))

  lemma BuildSpelled()
    ensures Join(BUILD, '.') == "1.0.0+1.5"
  {
    JoinCons("1", ["0"] + (["0+1"] + ["5"]));
    JoinCons("0", ["0+1"] + ["5"]);
    JoinCons("0+1", ["5"]);
  }

  lemma BuildNumbers()
    ensures Numbers(BUILD) == [1, 0, 5]
  {
    ComponentsOfBuild();
    NumbersCons("1", ["0"] + (["0+1"] + ["5"]));
    NumbersCons("0", ["0+1"] + ["5"]);
    NumbersCons("0+1", ["5"]);
    NumbersCons("5", []);
    assert ["5"] + [] == ["5"];
  }

  lemma BuildComponents()
    ensures Base("1.0.0+1.5") == [1, 0, 5]
  {
    BuildSpelled();
    BuildNumbers();
    BaseOfComponents(BUILD);
  }

  /** Build metadata, which has no precedence, is compared: its numbers after a
      dot count as components. */
  lemma BuildMetadataIsCompared()
    ensures Newer("1.0.0", "1.0.0+1.5")
  {
    PlainComponents();
    BuildComponents();
    NumbersLessOfThree(1, 0, 0, 1, 0, 5);
  }

  lemma ComponentsOfBuild()
    ensures Number("0") == [0] && Number("1") == [1] && Number("5") == [5] && Number("0+1") == []
  {
    assert Init("0") == Init("1") == Init("5") == "";
    assert Value("0") == 0 && Value("1") == 1 && Value("5") == 5;
    assert !Digit("0+1"[1]);
  }
}
