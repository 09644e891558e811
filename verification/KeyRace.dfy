/** The per-install database key (core/src/db/key.rs): several processes fetch,
    and on first run mint, store and re-read, one keystore entry. Each keystore
    call is one atomic step; steps of different processes interleave freely, and
    any call may fail. */
module KeyRace {
  import opened Text

  type Key = k: seq<bv8> | |k| == 32 witness seq(32, i => 0)

  // ------------------------------------------------------------ hex encoding

  const HEX: string := "0123456789abcdef"

  function HexDigit(b: bv8): char
    requires b < 16
  {
    HEX[b as int]
  }

  function HexValue(c: char): Option<bv8> {
    if '0' <= c <= '9' then Some((c as int - '0' as int) as bv8)
    else if 'a' <= c <= 'f' then Some((c as int - 'a' as int + 10) as bv8)
    else if 'A' <= c <= 'F' then Some((c as int - 'A' as int + 10) as bv8)
    else None
  }

  function Encode(bytes: seq<bv8>): string {
    if bytes == [] then []
    else [HexDigit(bytes[0] / 16), HexDigit(bytes[0] % 16)] + Encode(bytes[1..])
  }

  function Decode(s: string): Option<seq<bv8>> {
    if s == [] then Some([])
    else if |s| == 1 then None
    else
      var hi, lo, rest := HexValue(s[0]), HexValue(s[1]), Decode(s[2..]);
      if hi.None? || lo.None? || rest.None? then None
      else Some([hi.value * 16 + lo.value] + rest.value)
  }

  lemma HexValueOfDigit(b: bv8)
    requires b < 16
    ensures HexValue(HexDigit(b)) == Some(b)
  {
    var i := b as int;
    assert i < 16 && b == i as bv8;
    assert i == 0 || i == 1 || i == 2 || i == 3 || i == 4 || i == 5 || i == 6 || i == 7 || i == 8
        || i == 9 || i == 10 || i == 11 || i == 12 || i == 13 || i == 14 || i == 15;
  }

  lemma Nibbles(b: bv8)
    ensures b / 16 < 16 && b % 16 < 16 && b / 16 * 16 + b % 16 == b
  {
  }

  lemma {:induction false} DecodeEncode(bytes: seq<bv8>)
    ensures Decode(Encode(bytes)) == Some(bytes)
  {
    if bytes != [] {
      var b := bytes[0];
      Nibbles(b);
      HexValueOfDigit(b / 16);
      HexValueOfDigit(b % 16);
      var s := Encode(bytes);
      assert s[2..] == Encode(bytes[1..]);
      DecodeEncode(bytes[1..]);
      assert [b] + bytes[1..] == bytes;
    }
  }

  predicate AllHex(s: string) {
    forall i :: 0 <= i < |s| ==> HexValue(s[i]).Some?
  }

  lemma AllHexPair(s: string)
    requires |s| >= 2
    ensures AllHex(s) <==> HexValue(s[0]).Some? && HexValue(s[1]).Some? && AllHex(s[2..])
  {
    assert s == [s[0], s[1]] + s[2..];
  }

  /** Decoding accepts an even number of hexadecimal digits of either case. */
  lemma {:induction false} DecodeAccepts(s: string)
    ensures Decode(s).Some? <==> |s| % 2 == 0 && AllHex(s)
    ensures Decode(s).Some? ==> |Decode(s).value| == |s| / 2
  {
    if |s| >= 2 {
      DecodeAccepts(s[2..]);
      AllHexPair(s);
    }
  }

  lemma UpperCaseDigits(c: char)
    ensures 'A' <= c <= 'F' ==> HexValue(c) == HexValue((c as int + 32) as char)
    ensures HexValue(c).Some? <==> '0' <= c <= '9' || 'a' <= c <= 'f' || 'A' <= c <= 'F'
  {
  }

  /** The stored value as a key; none when it is corrupt. */
  function DecodeStored(s: string): Option<Key> {
    var d := Decode(s);
    if d.None? || |d.value| != 32 then None else Some(d.value)
  }

  // ----------------------------------------------------------- state machine

  datatype FetchResult = Got(key: Key) | Failed

  /** Where a process is in `get_or_create_key_with`. */
  datatype Phase =
    | Idle
    | Minted(key: Key)     // saw no entry, is about to store this key
    | Stored(key: Key)     // stored it, is about to read it back
    | Done(result: FetchResult)

  datatype State = State(entry: Option<string>, procs: seq<Phase>)

  /** A keystore call by process p. `fault` makes it fail. */
  datatype Event =
    | Fetch(p: nat, minted: Key, fault: bool)
    | Store(p: nat, fault: bool)
    | Reread(p: nat, fault: bool)

  predicate Enabled(s: State, e: Event) {
    e.p < |s.procs| &&
    match e
    case Fetch(p, _, _) => s.procs[p].Idle? || s.procs[p].Done?
    case Store(p, _) => s.procs[p].Minted?
    case Reread(p, _) => s.procs[p].Stored?
  }

  function FetchOutcome(entry: Option<string>, minted: Key, fault: bool): Phase {
    if fault then Done(Failed)
    else match entry
      case None => Minted(minted)
      case Some(stored) => Done(if DecodeStored(stored).Some? then Got(DecodeStored(stored).value) else Failed)
  }

  function RereadOutcome(entry: Option<string>, key: Key, fault: bool): FetchResult {
    if fault || entry.None? || DecodeStored(entry.value) != Some(key) then Failed else Got(key)
  }

  function Step(s: State, e: Event): State {
    if !Enabled(s, e) then s
    else match e
      case Fetch(p, minted, fault) => s.(procs := s.procs[p := FetchOutcome(s.entry, minted, fault)])
      case Store(p, fault) =>
        if fault then s.(procs := s.procs[p := Done(Failed)])
        else State(Some(Encode(s.procs[p].key)), s.procs[p := Stored(s.procs[p].key)])
      case Reread(p, fault) =>
        s.(procs := s.procs[p := Done(RereadOutcome(s.entry, s.procs[p].key, fault))])
  }

  function Run(s: State, es: seq<Event>): State
    decreases es
  {
    if es == [] then s else Run(Step(s, es[0]), es[1..])
  }

  /** The step stores a key. */
  predicate Writes(s: State, e: Event) {
    Enabled(s, e) && e.Store? && !e.fault
  }

  /** The processes that saw no entry and have not stored yet. */
  function Pending(s: State): set<nat> {
    set p | 0 <= p < |s.procs| && s.procs[p].Minted?
  }

  /** Only a process that saw no entry writes, and only while there is no entry
      can a process come to see none. */
  lemma OnlyObserversWrite(s: State, e: Event)
    ensures Step(s, e).entry != s.entry ==> Writes(s, e) && e.p in Pending(s)
    ensures s.entry.Some? ==> Pending(Step(s, e)) <= Pending(s) && Step(s, e).entry.Some?
    ensures Writes(s, e) ==> e.p in Pending(s) && Pending(Step(s, e)) == Pending(s) - {e.p}
  {
  }

  function WriteCount(s: State, es: seq<Event>): nat
    decreases es
  {
    if es == [] then 0 else (if Writes(s, es[0]) then 1 else 0) + WriteCount(Step(s, es[0]), es[1..])
  }

  /** Once there is an entry, it is written at most once more per pending
      process. */
  lemma {:induction false} WritesAreBounded(s: State, es: seq<Event>)
    requires s.entry.Some?
    ensures Run(s, es).entry.Some? && WriteCount(s, es) + |Pending(Run(s, es))| <= |Pending(s)|
    decreases es
  {
    if es != [] {
      var s' := Step(s, es[0]);
      OnlyObserversWrite(s, es[0]);
      WritesAreBounded(s', es[1..]);
      if !Writes(s, es[0]) {
        SubsetSize(Pending(s'), Pending(s));
      }
    }
  }

  lemma {:induction false} SubsetSize(a: set<nat>, b: set<nat>)
    requires a <= b
    ensures |a| <= |b|
    decreases a
  {
    if a != {} {
      var x :| x in a;
      SubsetSize(a - {x}, b - {x});
    }
  }

  /** Nobody is about to store: the entry never changes again, and every fetch
      that ends later returns what it holds, or fails. */
  predicate Settled(s: State) {
    s.entry.Some? && Pending(s) == {}
  }

  lemma {:induction false} SettledForever(s: State, es: seq<Event>)
    requires Settled(s)
    ensures Settled(Run(s, es)) && Run(s, es).entry == s.entry
    decreases es
  {
    if es != [] {
      OnlyObserversWrite(s, es[0]);
      SettledForever(Step(s, es[0]), es[1..]);
    }
  }

  /** After settling, a process that was not holding a result of its own yet
      ends with the stored key, if it ends with any. */
  predicate Agrees(s: State, p: nat) {
    p < |s.procs| && (s.procs[p].Done? && s.procs[p].result.Got? ==>
      s.entry.Some? && DecodeStored(s.entry.value) == Some(s.procs[p].result.key))
  }

  lemma {:induction false} LaterFetchesAgree(s: State, es: seq<Event>, p: nat)
    requires Settled(s) && Agrees(s, p)
    ensures Agrees(Run(s, es), p)
    decreases es
  {
    if es != [] {
      OnlyObserversWrite(s, es[0]);
      LaterFetchesAgree(Step(s, es[0]), es[1..], p);
    }
  }

  /** Whatever fetch a process finishes after settling, from then on it agrees. */
  lemma FinishingAgrees(s: State, e: Event, es: seq<Event>)
    requires Settled(s) && Enabled(s, e)
    ensures Agrees(Run(Step(s, e), es), e.p)
  {
    OnlyObserversWrite(s, e);
    assert !Writes(s, e);
    LaterFetchesAgree(Step(s, e), es, e.p);
  }

  /** A process that holds the stored key keeps agreeing while all who are about
      to store hold that key too. */
  predicate Unanimous(s: State, p: nat, k: Key) {
    && Agrees(s, p) && s.entry.Some? && DecodeStored(s.entry.value) == Some(k)
    && forall q :: q in Pending(s) ==> s.procs[q].key == k
  }

  lemma {:induction false} UnanimousForever(s: State, es: seq<Event>, p: nat, k: Key)
    requires Unanimous(s, p, k)
    ensures Unanimous(Run(s, es), p, k)
    decreases es
  {
    if es != [] {
      DecodeEncode(k);
      OnlyObserversWrite(s, es[0]);
      UnanimousForever(Step(s, es[0]), es[1..], p, k);
    }
  }

  /** A process was given the stored key. Whatever happens next its key stays the
      stored one exactly when nobody is about to store another. */
  lemma AgreementIsUnanimity(s: State, p: nat, k: Key)
    requires p < |s.procs| && s.procs[p] == Done(Got(k))
    requires s.entry.Some? && DecodeStored(s.entry.value) == Some(k)
    ensures (forall es :: Agrees(Run(s, es), p)) <==> (forall q :: q in Pending(s) ==> s.procs[q].key == k)
  {
    if forall q :: q in Pending(s) ==> s.procs[q].key == k {
      forall es
        ensures Agrees(Run(s, es), p)
      {
        UnanimousForever(s, es, p, k);
      }
    } else {
      var q :| q in Pending(s) && s.procs[q].key != k;
      StoringDisagrees(s, p, q);
    }
  }

  lemma StoringDisagrees(s: State, p: nat, q: nat)
    requires p < |s.procs| && s.procs[p].Done? && s.procs[p].result.Got?
    requires q in Pending(s) && s.procs[q].key != s.procs[p].result.key
    ensures !Agrees(Run(s, [Store(q, false)]), p)
  {
    DecodeEncode(s.procs[q].key);
    assert Run(s, [Store(q, false)]) == Step(s, Store(q, false));
  }

  /** The last key that a run stores. */
  function LastStored(s: State, es: seq<Event>): Option<Key>
    decreases es
  {
    if es == [] then None
    else
      var later := LastStored(Step(s, es[0]), es[1..]);
      if later.Some? then later
      else if Writes(s, es[0]) then Some(s.procs[es[0].p].key)
      else None
  }

  lemma {:induction false} EntryIsLastStored(s: State, es: seq<Event>)
    ensures Run(s, es).entry == if LastStored(s, es).Some? then Some(Encode(LastStored(s, es).value)) else s.entry
    decreases es
  {
    if es != [] {
      EntryIsLastStored(Step(s, es[0]), es[1..]);
    }
  }

  lemma {:induction false} OthersLeaveAlone(s: State, es: seq<Event>, p: nat)
    requires p < |s.procs| && forall e :: e in es ==> e.p != p
    ensures |Run(s, es).procs| == |s.procs| && Run(s, es).procs[p] == s.procs[p]
    decreases es
  {
    if es != [] {
      assert es[0] in es;
      OthersLeaveAlone(Step(s, es[0]), es[1..], p);
    }
  }

  /** Between storing its key and reading it back a process is overtaken by
      others: it gets its key exactly when the last key they stored, if any, is
      the same one; otherwise it gets an error, never a key. */
  lemma OverwrittenCreatorFails(s: State, p: nat, es: seq<Event>)
    requires p < |s.procs| && s.procs[p].Minted? && forall e :: e in es ==> e.p != p
    ensures var k := s.procs[p].key;
            var s1 := Step(s, Store(p, false));
            var s3 := Step(Run(s1, es), Reread(p, false));
            var last := LastStored(s1, es);
            |s3.procs| == |s.procs| && s3.procs[p] == Done(if last.None? || last == Some(k) then Got(k) else Failed)
  {
    var s1 := Step(s, Store(p, false));
    OthersLeaveAlone(s1, es, p);
    EntryIsLastStored(s1, es);
    DecodeEncode(s.procs[p].key);
    if LastStored(s1, es).Some? {
      DecodeEncode(LastStored(s1, es).value);
    }
  }

  /** Yet two processes can both be given keys, and different ones: the second
      stores after the first has read its own back. */
  lemma CreatorsCanDisagree(a: Key, b: Key)
    requires a != b
    ensures var es := [Fetch(0, a, false), Fetch(1, b, false), Store(0, false), Reread(0, false),
                       Store(1, false), Reread(1, false)];
            Run(State(None, [Idle, Idle]), es) == State(Some(Encode(b)), [Done(Got(a)), Done(Got(b))])
  {
    var es := [Fetch(0, a, false), Fetch(1, b, false), Store(0, false), Reread(0, false),
               Store(1, false), Reread(1, false)];
    FirstStores(a, b);
    SecondStores(a, b);
    assert es[..3] == [Fetch(0, a, false), Fetch(1, b, false), Store(0, false)];
    assert es[3..] == [Reread(0, false), Store(1, false), Reread(1, false)];
    RunSplit(State(None, [Idle, Idle]), es, 3);
  }

  lemma FirstStores(a: Key, b: Key)
    ensures Run(State(None, [Idle, Idle]), [Fetch(0, a, false), Fetch(1, b, false), Store(0, false)])
         == State(Some(Encode(a)), [Stored(a), Minted(b)])
  {
    var s0 := State(None, [Idle, Idle]);
    RunThree(s0, [Fetch(0, a, false), Fetch(1, b, false), Store(0, false)]);
    assert Step(s0, Fetch(0, a, false)) == State(None, [Minted(a), Idle]);
    assert Step(State(None, [Minted(a), Idle]), Fetch(1, b, false)) == State(None, [Minted(a), Minted(b)]);
  }

  lemma SecondStores(a: Key, b: Key)
    ensures Run(State(Some(Encode(a)), [Stored(a), Minted(b)]), [Reread(0, false), Store(1, false), Reread(1, false)])
         == State(Some(Encode(b)), [Done(Got(a)), Done(Got(b))])
  {
    DecodeEncode(a);
    DecodeEncode(b);
    var s0 := State(Some(Encode(a)), [Stored(a), Minted(b)]);
    RunThree(s0, [Reread(0, false), Store(1, false), Reread(1, false)]);
    var s1, s2 := State(Some(Encode(a)), [Done(Got(a)), Minted(b)]), State(Some(Encode(b)), [Done(Got(a)), Stored(b)]);
    assert Step(s0, Reread(0, false)) == s1;
    assert Step(s1, Store(1, false)) == s2;
  }

  lemma RunThree(s: State, es: seq<Event>)
    requires |es| == 3
    ensures Run(s, es) == Step(Step(Step(s, es[0]), es[1]), es[2])
  {
    assert es[1..][0] == es[1] && es[1..][1..] == es[2..];
    assert es[2..][0] == es[2] && es[2..][1..] == [];
    assert Run(Step(Step(s, es[0]), es[1]), es[2..]) == Step(Step(Step(s, es[0]), es[1]), es[2]);
  }

  lemma {:induction false} RunSplit(s: State, es: seq<Event>, k: nat)
    requires k <= |es|
    ensures Run(s, es) == Run(Run(s, es[..k]), es[k..])
    decreases k
  {
    if k > 0 {
      assert es[..k][1..] == es[1..][..k - 1] && es[1..][k - 1..] == es[k..];
      RunSplit(Step(s, es[0]), es[1..], k - 1);
    }
  }

  // ------------------------------------------------------ the code, in place

  class KeystoreEntry {
    var stored: Option<string>

    constructor ()
      ensures stored == None
    {
      stored := None;
    }

    method SetPassword(value: string)
      modifies this
      ensures stored == Some(value)
    {
      stored := Some(value);
    }
  }

  /** `get_or_create_key_with`: without interleaving it is the three steps. */
  method GetOrCreateKey(entry: KeystoreEntry, minted: Key, fetchFault: bool, storeFault: bool, rereadFault: bool)
    returns (r: FetchResult)
    modifies entry
    ensures Run(State(old(entry.stored), [Idle]),
                [Fetch(0, minted, fetchFault), Store(0, storeFault), Reread(0, rereadFault)])
         == State(entry.stored, [Done(r)])
  {
    RunThree(State(entry.stored, [Idle]),
             [Fetch(0, minted, fetchFault), Store(0, storeFault), Reread(0, rereadFault)]);
    if fetchFault {
      return Failed;
    }
    if entry.stored.Some? {
      var key := DecodeStored(entry.stored.value);
      return if key.Some? then Got(key.value) else Failed;
    }
    r := CreateAndStoreKey(entry, minted, storeFault, rereadFault);
  }

  method CreateAndStoreKey(entry: KeystoreEntry, key: Key, storeFault: bool, rereadFault: bool) returns (r: FetchResult)
    modifies entry
    ensures entry.stored == if storeFault then old(entry.stored) else Some(Encode(key))
    ensures r == if storeFault then Failed else RereadOutcome(entry.stored, key, rereadFault)
  {
    if storeFault {
      return Failed;
    }
    entry.SetPassword(Encode(key));
    if rereadFault || entry.stored.None? {
      return Failed;
    }
    var reread := DecodeStored(entry.stored.value);
    if reread != Some(key) {
      return Failed;
    }
    r := Got(key);
  }

  // ----------------------------------------------------- opening a database

  datatype OpenOutcome = Connected | KeyError | OtherError

  datatype OpenResult = Opened(key: Key) | OpenFailed(outcome: OpenOutcome) | NoKey

  /** `open_keyed_connection_with`: the results of the two fetches it may make,
      and what opening with a key does. */
  function OpenSpec(first: FetchResult, second: FetchResult, attempt: Key -> OpenOutcome): OpenResult {
    if first.Failed? then NoKey
    else if attempt(first.key) != KeyError
    then (if attempt(first.key).Connected? then Opened(first.key) else OpenFailed(OtherError))
    else if second.Failed? then NoKey
    else if second.key == first.key then OpenFailed(KeyError)
    else if attempt(second.key).Connected? then Opened(second.key)
    else OpenFailed(attempt(second.key))
  }

  method OpenKeyedConnection(first: FetchResult, second: FetchResult, attempt: Key -> OpenOutcome)
    returns (r: OpenResult, fetches: nat, attempts: nat)
    ensures r == OpenSpec(first, second, attempt)
    ensures 1 <= fetches <= 2 && attempts <= fetches
    ensures fetches == 2 <==> first.Got? && attempt(first.key) == KeyError
    ensures attempts == 2 <==> fetches == 2 && second.Got? && second.key != first.key
  {
    fetches, attempts := 1, 0;
    if first.Failed? {
      return NoKey, fetches, attempts;
    }
    attempts := 1;
    var outcome := attempt(first.key);
    if outcome.Connected? {
      return Opened(first.key), fetches, attempts;
    }
    if outcome != KeyError {
      return OpenFailed(outcome), fetches, attempts;
    }
    fetches := 2;
    if second.Failed? {
      return NoKey, fetches, attempts;
    }
    if second.key == first.key {
      return OpenFailed(outcome), fetches, attempts;
    }
    attempts := 2;
    outcome := attempt(second.key);
    r := if outcome.Connected? then Opened(second.key) else OpenFailed(outcome);
  }

  /** When a database opens, and with which key; when the key cannot be had; and
      with which error opening fails: only a key error is worth a second fetch, and
      only a different key a second attempt. */
  lemma OpenOutcomes(first: FetchResult, second: FetchResult, attempt: Key -> OpenOutcome)
    ensures var r := OpenSpec(first, second, attempt);
            && (forall k :: r == Opened(k) <==>
                  || (first == Got(k) && attempt(k) == Connected)
                  || (first.Got? && attempt(first.key) == KeyError && second == Got(k) && attempt(k) == Connected))
            && (r == NoKey <==> first.Failed? || (attempt(first.key) == KeyError && second.Failed?))
            && (r == OpenFailed(OtherError) <==>
                  first.Got? && (|| attempt(first.key) == OtherError
                                 || (attempt(first.key) == KeyError && second.Got? && attempt(second.key) == OtherError)))
            && (r == OpenFailed(KeyError) <==>
                  first.Got? && attempt(first.key) == KeyError && second.Got? && attempt(second.key) == KeyError)
            && r != OpenFailed(Connected)
  {
  }

  /** A fetch without a fault returns the stored key if the entry holds one, fails
      on a corrupt entry, and mints a key if there is no entry; nothing else. */
  lemma FetchMeans(s: State, p: nat, minted: Key, fault: bool)
    requires Enabled(s, Fetch(p, minted, fault))
    ensures var s' := Step(s, Fetch(p, minted, fault));
            && s'.entry == s.entry
            && (fault ==> s'.procs[p] == Done(Failed))
            && (!fault && s.entry.None? ==> s'.procs[p] == Minted(minted))
            && (!fault && s.entry.Some? ==>
                  match DecodeStored(s.entry.value)
                  case None => s'.procs[p] == Done(Failed)
                  case Some(k) => s'.procs[p] == Done(Got(k)))
  {
  }

  lemma {:induction false} RunAppend(s: State, es: seq<Event>, e: Event)
    ensures Run(s, es + [e]) == Step(Run(s, es), e)
    decreases es
  {
    if es == [] {
      assert es + [e] == [e];
    } else {
      assert (es + [e])[0] == es[0] && (es + [e])[1..] == es[1..] + [e];
      RunAppend(Step(s, es[0]), es[1..], e);
    }
  }

  /** A process holds a key. Others run until nobody is about to store, the
      process fetches a second time, and others run again. The database is keyed
      with what the keystore holds at the end: it opens, with that key, exactly
      when there is one and the process holds it already or its fetch succeeds. */
  lemma RetryHeals(s: State, p: nat, stale: Key, es: seq<Event>, minted: Key, fault: bool, later: seq<Event>,
                   attempt: Key -> OpenOutcome)
    requires p < |s.procs| && s.procs[p] == Done(Got(stale)) && forall e :: e in es ==> e.p != p
    requires Settled(Run(s, es))
    requires var end := Run(Run(s, es + [Fetch(p, minted, fault)]), later);
             forall k :: attempt(k) == if end.entry.Some? && Some(k) == DecodeStored(end.entry.value) then Connected else KeyError
    ensures var fetched := Run(s, es + [Fetch(p, minted, fault)]);
            var end := Run(fetched, later);
            && |fetched.procs| == |s.procs| && fetched.procs[p].Done? && end.entry.Some?
            && var stored := DecodeStored(end.entry.value);
               var result := OpenSpec(Got(stale), fetched.procs[p].result, attempt);
               && (result.Opened? <==> stored.Some? && (stored == Some(stale) || !fault))
               && (result.Opened? ==> Some(result.key) == stored)
  {
    var s1 := Run(s, es);
    var e := Fetch(p, minted, fault);
    OthersLeaveAlone(s, es, p);
    RunAppend(s, es, e);
    OnlyObserversWrite(s1, e);
    SettledForever(Step(s1, e), later);
  }
}
