/** Backspace undo and case cycling of the last expansion
    (core/src/engine/state.rs, core/src/engine/undo.rs and the order in which
    daemon/src/hook/dispatch.rs calls them). Times are milliseconds. */
module Undo {
  import opened Text
  import opened Types
  import opened CaseCycle

  const UNDO_WINDOW: nat := 5000
  const MAX_PAYLOAD_BYTES: nat := 1048576

  datatype UndoState = UndoState(triggerString: string, outputLength: nat, timestamp: nat)

  datatype Session = Session(original: string, variant: CaseVariant, enteredAt: nat, engaged: bool)

  /** The undo entry and the case-cycle session behind the locks. */
  datatype Model = Model(undo: Option<UndoState>, cycle: Option<Session>)

  function Elapsed(since: nat, now: nat): nat {
    if now < since then 0 else now - since
  }

  predicate Ready(s: Session, now: nat) {
    s.engaged || Elapsed(s.enteredAt, now) < CASE_CYCLE_WINDOW
  }

  function Shown(ct: CaseTable, s: Session): string {
    RenderCase(ct, s.original, s.variant)
  }

  function SetUndo(m: Model, trigger: string, length: nat, now: nat): Model {
    if trigger == [] || length == 0 then Model(None, None)
    else m.(undo := Some(UndoState(trigger, length, now)))
  }

  function RefreshUndo(m: Model, trigger: string, length: nat, now: nat): Model {
    if m.undo.Some? && m.undo.value.triggerString == trigger
    then m.(undo := Some(UndoState(trigger, length, now)))
    else m
  }

  function Register(m: Model, text: string, now: nat): Model {
    m.(cycle := Some(Session(text, Original, now, false)))
  }

  function AdvanceCase(ct: CaseTable, m: Model, dir: CycleDirection, now: nat): (Model, Option<CompletionRewrite>) {
    if m.cycle.None? || !Ready(m.cycle.value, now) then (m, None)
    else
      var s := m.cycle.value;
      var s' := s.(variant := Advanced(LookOf(ct, s.original), s.variant, dir), engaged := true);
      var undo := if m.undo.Some? then Some(m.undo.value.(outputLength := |Shown(ct, s')|)) else None;
      (Model(undo, Some(s')), Some(CompletionRewrite(|Shown(ct, s)|, Shown(ct, s'))))
  }

  function TakeUndo(m: Model, now: nat): (Model, Option<UndoState>) {
    (Model(None, None),
     if m.undo.Some? && Elapsed(m.undo.value.timestamp, now) < UNDO_WINDOW then m.undo else None)
  }

  class EngineState {
    var undoState: Option<UndoState>
    var caseCycle: CaseCycleSession?

    ghost predicate Valid(ct: CaseTable)
      reads this, caseCycle
    {
      caseCycle != null ==> caseCycle.Valid(ct)
    }

    ghost function Abs(): Model
      reads this, caseCycle
    {
      Model(undoState,
            if caseCycle == null then None
            else Some(Session(caseCycle.originalText, caseCycle.variant, caseCycle.enteredAt, caseCycle.engaged)))
    }

    constructor (ct: CaseTable)
      ensures Valid(ct) && Abs() == Model(None, None)
    {
      undoState := None;
      caseCycle := null;
    }

    method ClearCaseCycle()
      modifies this`caseCycle
      ensures Abs() == old(Abs()).(cycle := None)
    {
      caseCycle := null;
    }

    method ClearUndoState()
      modifies this
      ensures Abs() == Model(None, None)
    {
      ClearCaseCycle();
      undoState := None;
    }

    method SetUndoState(triggerString: string, outputLength: nat, now: nat)
      modifies this
      ensures Abs() == SetUndo(old(Abs()), triggerString, outputLength, now)
      ensures caseCycle == old(caseCycle) || caseCycle == null
    {
      if triggerString == [] || outputLength == 0 {
        ClearUndoState();
        return;
      }
      undoState := Some(UndoState(triggerString, outputLength, now));
    }

    method RefreshUndoState(triggerString: string, outputLength: nat, now: nat)
      modifies this`undoState
      ensures Abs() == RefreshUndo(old(Abs()), triggerString, outputLength, now)
    {
      if undoState.Some? && undoState.value.triggerString == triggerString {
        undoState := Some(undoState.value.(outputLength := outputLength, timestamp := now));
      }
    }

    method RegisterCaseCycle(ct: CaseTable, originalText: string, now: nat)
      modifies this`caseCycle
      ensures Valid(ct) && fresh(caseCycle)
      ensures Abs() == Register(old(Abs()), originalText, now)
    {
      caseCycle := new CaseCycleSession(ct, originalText, now);
    }

    method AdvanceCaseVariant(ct: CaseTable, dir: CycleDirection, now: nat) returns (r: Option<CompletionRewrite>)
      requires Valid(ct)
      modifies this`undoState, caseCycle
      ensures Valid(ct)
      ensures (Abs(), r) == AdvanceCase(ct, old(Abs()), dir, now)
    {
      if caseCycle == null {
        return None;
      }
      if !caseCycle.IsReady(now) {
        return None;
      }
      var previousLen := |caseCycle.currentText|;
      var newText := caseCycle.Advance(ct, dir);
      if undoState.Some? {
        undoState := Some(undoState.value.(outputLength := |newText|));
      }
      r := Some(CompletionRewrite(previousLen, newText));
    }

    method TakeActiveUndoState(now: nat) returns (r: Option<UndoState>)
      modifies this
      ensures (Abs(), r) == TakeUndo(old(Abs()), now)
    {
      ClearCaseCycle();
      match undoState {
        case Some(state) =>
          r := if Elapsed(state.timestamp, now) < UNDO_WINDOW then undoState else None;
          undoState := None;
        case None => r := None;
      }
    }
  }

  // ------------------------------------------------------------- blind undo

  /** Steps an expansion may be undone through by deleting what they typed. */
  predicate BlindUndo(steps: seq<ExpansionStep>) {
    AllText(steps) && TextBytes(steps) < MAX_PAYLOAD_BYTES
  }

  method AllowsBlindUndo(steps: seq<ExpansionStep>) returns (allowed: bool)
    ensures allowed == BlindUndo(steps)
  {
    var textBytes: nat := 0;
    for i := 0 to |steps|
      invariant AllText(steps[..i])
      invariant TextBytes(steps) < USIZE_MAX ==> TextBytes(steps) == textBytes + TextBytes(steps[i..])
      invariant TextBytes(steps) >= USIZE_MAX ==>
                  textBytes == USIZE_MAX || TextBytes(steps) == textBytes + TextBytes(steps[i..])
    {
      assert steps[i..][1..] == steps[i + 1..];
      match steps[i] {
        case TextStep(text) =>
          textBytes := if textBytes + Bytes(text) > USIZE_MAX then USIZE_MAX else textBytes + Bytes(text);
        case _ => return false;
      }
    }
    assert steps[..|steps|] == steps;
    allowed := textBytes < MAX_PAYLOAD_BYTES;
  }

  function UndoTriggerFor(keyword: string, steps: seq<ExpansionStep>): Option<string> {
    if BlindUndo(steps) then Some(keyword) else None
  }

  method UndoTriggerForSteps(keyword: string, steps: seq<ExpansionStep>) returns (r: Option<string>)
    ensures r == UndoTriggerFor(keyword, steps)
  {
    var allowed := AllowsBlindUndo(steps);
    r := if allowed then Some(keyword) else None;
  }

  // ------------------------------------------------------------- round trip

  /** The daemon before it injects the expansion (dispatch.rs lines 133-160). */
  function Armed(m: Model, e: ExpansionResult, now: nat): Model {
    var text := StepsText(e.steps);
    if e.followUp.None? && e.undoTrigger.Some? && |text| > 0
    then Register(SetUndo(Model(None, None), e.undoTrigger.value, |text|, now), text, now)
    else Model(None, None)
  }

  /** The document once the expansion has been injected. */
  function Expanded(doc: string, e: ExpansionResult): string {
    Chop(doc, e.deleteCount) + StepsText(e.steps)
  }

  datatype Press = Press(dir: CycleDirection, now: nat)

  /** The engine and the document after a run of case-cycle presses. */
  function Cycled(ct: CaseTable, m: Model, doc: string, ps: seq<Press>): (Model, string)
    decreases ps
  {
    if ps == [] then (m, doc)
    else
      var (m', r) := AdvanceCase(ct, m, ps[0].dir, ps[0].now);
      Cycled(ct, m', Rewritten(doc, r), ps[1..])
  }

  /** The document after Backspace at `now`: the undo, if it is still active. */
  function Undone(m: Model, doc: string, now: nat): string {
    var taken := TakeUndo(m, now).1;
    if taken.Some? then Chop(doc, taken.value.outputLength) + taken.value.triggerString else doc
  }

  /** The undo entry covers exactly the text the session shows after `prefix`. */
  predicate InStep(ct: CaseTable, m: Model, doc: string, prefix: string, trigger: string, since: nat) {
    && m.undo.Some? && m.cycle.Some?
    && doc == prefix + Shown(ct, m.cycle.value)
    && m.undo == Some(UndoState(trigger, |Shown(ct, m.cycle.value)|, since))
  }

  /** Any run of presses keeps the entry in step with the document. */
  lemma {:induction false} CyclingStaysInStep(
      ct: CaseTable, m: Model, doc: string, ps: seq<Press>, prefix: string, trigger: string, since: nat)
    requires InStep(ct, m, doc, prefix, trigger, since)
    ensures var (m', doc') := Cycled(ct, m, doc, ps);
            InStep(ct, m', doc', prefix, trigger, since)
    decreases ps
  {
    if ps != [] {
      var (m', r) := AdvanceCase(ct, m, ps[0].dir, ps[0].now);
      AppendEnds(prefix, Shown(ct, m.cycle.value));
      CyclingStaysInStep(ct, m', Rewritten(doc, r), ps[1..], prefix, trigger, since);
    }
  }

  /** The document after an expansion at `armedAt`, whose injection ended at
      `injectedAt`, a run of case presses and a Backspace at `now`. */
  function RoundTrip(ct: CaseTable, m: Model, doc: string, e: ExpansionResult, armedAt: nat, injectedAt: nat,
                     ps: seq<Press>, now: nat): string
    requires e.undoTrigger.Some?
  {
    var m1 := RefreshUndo(Armed(m, e, armedAt), e.undoTrigger.value, |StepsText(e.steps)|, injectedAt);
    var (m2, doc2) := Cycled(ct, m1, Expanded(doc, e), ps);
    Undone(m2, doc2, now)
  }

  /** Expanding, cycling the case any number of times and undoing inside the
      window leaves the document with the undo trigger in place of what the
      expansion deleted. */
  lemma ExpandCycleUndo(ct: CaseTable, m: Model, doc: string, e: ExpansionResult, armedAt: nat, injectedAt: nat,
                        ps: seq<Press>, now: nat)
    requires e.followUp.None? && e.undoTrigger.Some? && e.undoTrigger.value != [] && StepsText(e.steps) != []
    requires Elapsed(injectedAt, now) < UNDO_WINDOW
    ensures RoundTrip(ct, m, doc, e, armedAt, injectedAt, ps, now) == Chop(doc, e.deleteCount) + e.undoTrigger.value
  {
    var trigger, text := e.undoTrigger.value, StepsText(e.steps);
    var prefix := Chop(doc, e.deleteCount);
    var m1 := RefreshUndo(Armed(m, e, armedAt), trigger, |text|, injectedAt);
    assert InStep(ct, m1, Expanded(doc, e), prefix, trigger, injectedAt);
    CyclingStaysInStep(ct, m1, Expanded(doc, e), ps, prefix, trigger, injectedAt);
    var (m2, doc2) := Cycled(ct, m1, Expanded(doc, e), ps);
    AppendEnds(prefix, Shown(ct, m2.cycle.value));
  }

  function Deleted(doc: string, n: nat): nat {
    if n <= |doc| then n else |doc|
  }

  lemma Retyped(doc: string, n: nat, u: string)
    ensures Chop(doc, n) + u == doc <==> |u| == Deleted(doc, n) && EndsWith(doc, u)
  {
    if Chop(doc, n) + u == doc {
      AppendEnds(Chop(doc, n), u);
    } else if |u| == Deleted(doc, n) && EndsWith(doc, u) {
      SplitAtSuffix(doc, u);
    }
  }

  /** So the original document comes back exactly when the undo trigger is the
      text that was deleted. */
  lemma UndoRestores(ct: CaseTable, m: Model, doc: string, e: ExpansionResult, armedAt: nat, injectedAt: nat,
                     ps: seq<Press>, now: nat)
    requires e.followUp.None? && e.undoTrigger.Some? && e.undoTrigger.value != [] && StepsText(e.steps) != []
    requires Elapsed(injectedAt, now) < UNDO_WINDOW
    ensures RoundTrip(ct, m, doc, e, armedAt, injectedAt, ps, now) == doc <==>
              |e.undoTrigger.value| == Deleted(doc, e.deleteCount) && EndsWith(doc, e.undoTrigger.value)
  {
    ExpandCycleUndo(ct, m, doc, e, armedAt, injectedAt, ps, now);
    Retyped(doc, e.deleteCount, e.undoTrigger.value);
  }

  /** An entry is handed out once: taking it again, at any time, gives nothing. */
  lemma TakenOnce(m: Model, a: nat, b: nat)
    ensures TakeUndo(TakeUndo(m, a).0, b).1.None?
    ensures TakeUndo(m, a).1.Some? <==>
              m.undo.Some? && (a < m.undo.value.timestamp || a - m.undo.value.timestamp < 5000)
    ensures TakeUndo(m, a).1.Some? ==> TakeUndo(m, a).1 == m.undo
  {
  }

  /** After a Backspace that took the entry, or found it too old, no case press
      and no further Backspace rewrites anything until the next expansion. */
  lemma {:induction false} QuietAfterTake(ct: CaseTable, m: Model, doc: string, taken: nat, ps: seq<Press>, now: nat)
    ensures Cycled(ct, TakeUndo(m, taken).0, doc, ps) == (TakeUndo(m, taken).0, doc)
    ensures Undone(Cycled(ct, TakeUndo(m, taken).0, doc, ps).0, doc, now) == doc
    decreases ps
  {
    if ps != [] {
      assert AdvanceCase(ct, TakeUndo(m, taken).0, ps[0].dir, ps[0].now) == (TakeUndo(m, taken).0, None);
      QuietAfterTake(ct, m, doc, taken, ps[1..], now);
    }
  }

  /** So after expansion, presses and undo the document is left alone by any later
      presses and Backspaces. */
  lemma RoundTripIsFinal(ct: CaseTable, m: Model, doc: string, e: ExpansionResult, armedAt: nat, injectedAt: nat,
                         ps: seq<Press>, now: nat, more: seq<Press>, later: nat)
    requires e.undoTrigger.Some?
    ensures var m1 := RefreshUndo(Armed(m, e, armedAt), e.undoTrigger.value, |StepsText(e.steps)|, injectedAt);
            var after := TakeUndo(Cycled(ct, m1, Expanded(doc, e), ps).0, now).0;
            var restored := RoundTrip(ct, m, doc, e, armedAt, injectedAt, ps, now);
            && Cycled(ct, after, restored, more) == (after, restored)
            && TakeUndo(after, later).1.None? && Undone(after, restored, later) == restored
  {
    var m1 := RefreshUndo(Armed(m, e, armedAt), e.undoTrigger.value, |StepsText(e.steps)|, injectedAt);
    var m2 := Cycled(ct, m1, Expanded(doc, e), ps).0;
    QuietAfterTake(ct, m2, RoundTrip(ct, m, doc, e, armedAt, injectedAt, ps, now), now, more, later);
  }

  /** A case press rewrites exactly when there is a session that was used before or
      is younger than five seconds; it is used from then on. It shows the next
      rendering in place of the one shown, and the undo entry takes its length. */
  lemma PressRewrites(ct: CaseTable, m: Model, dir: CycleDirection, now: nat)
    ensures var (m', r) := AdvanceCase(ct, m, dir, now);
            && (r.Some? <==> m.cycle.Some? && (m.cycle.value.engaged || now < m.cycle.value.enteredAt + 5000))
            && (r.None? ==> m' == m)
            && (r.Some? ==>
                  var s := m.cycle.value;
                  && m'.cycle.Some? && m'.cycle.value.engaged && m'.cycle.value.original == s.original
                  && m'.cycle.value.variant == Advanced(LookOf(ct, s.original), s.variant, dir)
                  && r.value == CompletionRewrite(|Shown(ct, s)|, Shown(ct, m'.cycle.value))
                  && (m.undo.Some? <==> m'.undo.Some?)
                  && (m.undo.Some? ==> m'.undo.value == UndoState(m.undo.value.triggerString, |r.value.replacement|,
                                                                  m.undo.value.timestamp)))
  {
  }

  /** An expansion that may be undone arms an entry for what it types and a fresh
      session, which a press answers only within five seconds. */
  lemma ArmedAnswers(ct: CaseTable, m: Model, e: ExpansionResult, armedAt: nat, dir: CycleDirection, now: nat)
    requires e.followUp.None? && e.undoTrigger.Some? && e.undoTrigger.value != [] && StepsText(e.steps) != []
    ensures var text := StepsText(e.steps);
            var armed := Armed(m, e, armedAt);
            && armed.undo == Some(UndoState(e.undoTrigger.value, |text|, armedAt))
            && armed.cycle.Some? && Shown(ct, armed.cycle.value) == text
            && (AdvanceCase(ct, armed, dir, now).1.Some? <==> now < armedAt + 5000)
  {
  }

  /** Nothing is armed for an expansion that hands on to something else, types
      nothing or is not offered for undo: what was armed before is gone. */
  lemma NotArmed(ct: CaseTable, m: Model, e: ExpansionResult, armedAt: nat, doc: string, ps: seq<Press>, now: nat)
    requires e.followUp.Some? || e.undoTrigger.None? || StepsText(e.steps) == []
    ensures Armed(m, e, armedAt) == Model(None, None)
    ensures Cycled(ct, Armed(m, e, armedAt), doc, ps) == (Model(None, None), doc)
    ensures Undone(Armed(m, e, armedAt), doc, now) == doc
  {
    QuietAfterTake(ct, m, doc, armedAt, ps, now);
  }

  /** Entries are only stored for a trigger and an output; otherwise both entry and
      session go. A refresh touches the entry of its own trigger only. */
  lemma StoreAndRefresh(m: Model, trigger: string, length: nat, now: nat)
    ensures trigger == [] || length == 0 ==> SetUndo(m, trigger, length, now) == Model(None, None)
    ensures trigger != [] && length != 0 ==>
              SetUndo(m, trigger, length, now) == Model(Some(UndoState(trigger, length, now)), m.cycle)
    ensures RefreshUndo(m, trigger, length, now) ==
              if m.undo.Some? && m.undo.value.triggerString == trigger
              then Model(Some(UndoState(trigger, length, now)), m.cycle) else m
  {
  }

  /** Outside the window, or when the expansion typed nothing, undo does not
      touch the document. */
  lemma NoUndo(m: Model, doc: string, now: nat)
    requires m.undo.Some? ==> Elapsed(m.undo.value.timestamp, now) >= UNDO_WINDOW
    ensures Undone(m, doc, now) == doc && TakeUndo(m, now).0 == Model(None, None)
  {
  }

  /** A refresh with the length of the original output that arrives after case
      presses is right exactly when the shown text has that length too (or the
      document held nothing else and the shown text is shorter). */
  lemma LateRefresh(ct: CaseTable, m: Model, doc: string, prefix: string, trigger: string, since: nat, length: nat, now: nat)
    requires InStep(ct, m, doc, prefix, trigger, since)
    ensures var shown := Shown(ct, m.cycle.value);
            Undone(RefreshUndo(m, trigger, length, now), doc, now) == prefix + trigger <==>
              length == |shown| || (prefix == [] && length > |shown|)
  {
    var shown := Shown(ct, m.cycle.value);
    AppendEnds(prefix, shown);
    var kept := Chop(doc, length);
    if kept + trigger == prefix + trigger {
      assert |kept| == |prefix|;
    }
  }
}
