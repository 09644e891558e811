/** Whole runs of edits: the bounded text the ring keeps, against the unbounded
    text the same edits would produce (core/src/engine/buffer.rs:45-126). */
module History {
  import opened Text
  import opened RingBuffer

  datatype Edit = Push(c: char) | Pop | PopN(n: nat) | PopWord | Clear

  /** The unbounded text after one edit. */
  function Free(t: Table, text: string, e: Edit): string {
    match e
    case Push(c) => text + [c]
    case Pop => Chop(text, 1)
    case PopN(n) => Chop(text, n)
    case PopWord => Text.PopWord(t, text)
    case Clear => []
  }

  /** The ring's text after one edit: at most CAPACITY characters of it. */
  function Bounded(t: Table, view: string, e: Edit): string {
    LastN(Free(t, view, e), CAPACITY)
  }

  /** The methods of the ring, driven by an edit. */
  method Apply(b: FastBuffer, t: CharTable, e: Edit)
    requires b.Valid()
    modifies b, b.data
    ensures b.Valid()
    ensures b.view == Bounded(t, old(b.view), e)
  {
    match e
    case Push(c) => b.Push(c);
    case Pop => b.Pop();
    case PopN(n) => b.PopN(n);
    case PopWord => b.PopWord(t);
    case Clear => b.Clear();
  }

  function FreeRun(t: Table, text: string, es: seq<Edit>): string
    decreases es
  {
    if es == [] then text else FreeRun(t, Free(t, text, es[0]), es[1..])
  }

  function BoundedRun(t: Table, view: string, es: seq<Edit>): string
    decreases es
  {
    if es == [] then view else BoundedRun(t, Bounded(t, view, es[0]), es[1..])
  }

  lemma EditKeepsSuffix(t: Table, text: string, view: string, e: Edit)
    requires EndsWith(text, view)
    ensures EndsWith(Free(t, text, e), Bounded(t, view, e))
  {
    match e {
      case Push(c) => AppendKeepsSuffix(text, view, [c]);
      case Pop => ChopKeepsSuffix(text, view, 1);
      case PopN(n) => ChopKeepsSuffix(text, view, n);
      case PopWord => PopWordKeepsSuffix(t, text, view);
      case Clear =>
    }
    LastNEnds(Free(t, view, e), CAPACITY);
    EndsWithTransitive(Free(t, text, e), Free(t, view, e), Bounded(t, view, e));
  }

  /** After any edits the ring holds a suffix of the unbounded text. */
  lemma {:induction false} RunKeepsSuffix(t: Table, text: string, view: string, es: seq<Edit>)
    requires EndsWith(text, view)
    ensures EndsWith(FreeRun(t, text, es), BoundedRun(t, view, es))
    decreases es
  {
    if es != [] {
      EditKeepsSuffix(t, text, view, es[0]);
      RunKeepsSuffix(t, Free(t, text, es[0]), Bounded(t, view, es[0]), es[1..]);
    }
  }

  /** The characters an edit sequence can add. */
  function Pushes(es: seq<Edit>): nat {
    if es == [] then 0 else (if es[0].Push? then 1 else 0) + Pushes(es[1..])
  }

  /** Nothing is lost until more than CAPACITY characters were typed. */
  lemma {:induction false} RunIsExact(t: Table, text: string, es: seq<Edit>)
    requires |text| + Pushes(es) <= CAPACITY
    ensures BoundedRun(t, text, es) == FreeRun(t, text, es)
    decreases es
  {
    if es != [] {
      RunIsExact(t, Free(t, text, es[0]), es[1..]);
    }
  }

  /** Typing alone keeps exactly the newest CAPACITY characters. */
  lemma {:induction false} TypingKeepsNewest(t: Table, text: string, typed: string)
    ensures BoundedRun(t, LastN(text, CAPACITY), seq(|typed|, i requires 0 <= i < |typed| => Push(typed[i])))
         == LastN(text + typed, CAPACITY)
    decreases typed
  {
    var es := seq(|typed|, i requires 0 <= i < |typed| => Push(typed[i]));
    if typed == [] {
      assert text + typed == text;
    } else {
      var c, rest := typed[0], typed[1..];
      assert es[1..] == seq(|rest|, i requires 0 <= i < |rest| => Push(rest[i]));
      assert text + typed == text + [c] + rest;
      assert Bounded(t, LastN(text, CAPACITY), es[0]) == LastN(text + [c], CAPACITY);
      TypingKeepsNewest(t, text + [c], rest);
    }
  }
}
