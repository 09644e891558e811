/** The growable, capped ring of typed characters (core/src/engine/buffer.rs).
    The ghost field `view` is the text the ring holds, oldest character first;
    every method is specified by what it does to, or reads from, that text. */
module RingBuffer {
  import opened Text
  import opened QuoteScan
  import opened SuffixScan

  const CAPACITY: nat := 1048576
  const INITIAL_CAPACITY: nat := 512

  lemma TwiceAtLeast(q: int, n: nat)
    ensures q >= 2 ==> q * n >= 2 * n
  {
  }

  lemma OneLap(x: nat, n: nat)
    requires x < 2 * n
    ensures x % n == if x < n then x else x - n
  {
    if x >= n {
      assert x == x / n * n + x % n;
      TwiceAtLeast(x / n, n);
      assert x / n == 1;
    }
  }

  /** `x % n`, for the indices the ring computes: at most one lap too far. */
  method Wrap(x: nat, n: nat) returns (r: nat)
    requires x < 2 * n
    ensures r == if x < n then x else x - n
  {
    OneLap(x, n);
    r := x % n;
  }

  class FastBuffer {
    ghost var view: string
    var data: array<char>
    var head: nat
    var len: nat

    /** The slot of the i-th character of the view. */
    ghost function Slot(i: nat): int
      reads this, data
    {
      if head + i < len then head + data.Length + i - len else head + i - len
    }

    ghost predicate InWindow(k: int)
      reads this, data
    {
      if len <= head then head - len <= k < head
      else k < head || head + data.Length - len <= k
    }

    /** The index arithmetic is in range, the slots spell the view, and every
        other slot holds '\0': nothing that was deleted stays in memory. */
    ghost predicate Valid()
      reads this, data
    {
      && INITIAL_CAPACITY <= data.Length <= CAPACITY
      && head < data.Length
      && len == |view| <= data.Length
      && (forall i: nat {:trigger Slot(i)} :: i < len ==> view[i] == data[Slot(i)])
      && (forall k {:trigger InWindow(k)} :: 0 <= k < data.Length && !InWindow(k) ==> data[k] == '\0')
    }

    constructor ()
      ensures Valid() && fresh(data)
      ensures view == []
    {
      data := new char[INITIAL_CAPACITY](_ => '\0');
      head := 0;
      len := 0;
      view := [];
    }

    method Grow()
      requires Valid()
      modifies this
      ensures Valid() && view == old(view) && len == old(len)
      ensures data.Length == if 2 * old(data.Length) < CAPACITY then 2 * old(data.Length) else CAPACITY
      ensures old(data.Length) < CAPACITY ==> fresh(data) && head == len
      ensures old(data.Length) == CAPACITY ==> data == old(data) && head == old(head)
    {
      var oldCapacity := data.Length;
      var newCapacity := if oldCapacity * 2 < CAPACITY then oldCapacity * 2 else CAPACITY;
      if newCapacity <= oldCapacity {
        return;
      }
      var newData := new char[newCapacity](_ => '\0');
      var start := Wrap(head + oldCapacity - len, oldCapacity);
      for i := 0 to len
        modifies newData
        invariant forall k :: 0 <= k < i ==> newData[k] == view[k]
        invariant forall k :: i <= k < newCapacity ==> newData[k] == '\0'
      {
        var slot := Wrap(start + i, oldCapacity);
        assert slot == Slot(i);
        newData[i] := data[slot];
      }
      data := newData;
      head := len;
    }

    /** A full ring at its cap: the newest character replaces the oldest. */
    method Overwrite(c: char)
      requires Valid() && len == data.Length
      modifies this, data
      ensures Valid() && data == old(data)
      ensures view == old(view)[1..] + [c]
    {
      var capacity := data.Length;
      data[head] := c;
      head := Wrap(head + 1, capacity);
      view := view[1..] + [c];
      forall i: nat | i < len
        ensures view[i] == data[Slot(i)]
      {
        assert i < len - 1 ==> Slot(i) == old(Slot(i + 1));
      }
    }

    method Append(c: char)
      requires Valid() && len < data.Length
      modifies this, data
      ensures Valid() && data == old(data)
      ensures view == old(view) + [c]
    {
      var capacity := data.Length;
      data[head] := c;
      head := Wrap(head + 1, capacity);
      if len < capacity {
        len := len + 1;
      }
      view := view + [c];
      forall i: nat | i < len
        ensures view[i] == data[Slot(i)]
      {
        assert i < len - 1 ==> Slot(i) == old(Slot(i));
      }
      assert forall k :: 0 <= k < capacity && !InWindow(k) ==> !old(InWindow(k));
    }

    method Push(c: char)
      requires Valid()
      modifies this, data
      ensures Valid() && (data == old(data) || fresh(data))
      ensures view == LastN(old(view) + [c], CAPACITY)
    {
      if len >= data.Length {
        if data.Length >= CAPACITY {
          Overwrite(c);
          return;
        }
        Grow();
      }
      Append(c);
    }

    method Pop()
      requires Valid()
      modifies this, data
      ensures Valid() && data == old(data)
      ensures view == Chop(old(view), 1)
    {
      if len > 0 {
        var capacity := data.Length;
        head := Wrap(head + capacity - 1, capacity);
        data[head] := '\0';
        len := len - 1;
        view := view[..len];
        assert forall i: nat :: i < len ==> Slot(i) == old(Slot(i));
        assert forall k :: 0 <= k < capacity && !InWindow(k) ==> k == head || !old(InWindow(k));
      }
    }

    method PopN(count: nat)
      requires Valid()
      modifies this, data
      ensures Valid() && data == old(data)
      ensures view == Chop(old(view), count)
    {
      for i := 0 to count
        invariant Valid() && data == old(data)
        invariant view == Chop(old(view), i)
      {
        Pop();
      }
    }

    method LastChar() returns (c: char)
      requires Valid() && len > 0
      ensures c == Last(view)
    {
      var curr := NewestSlot();
      c := data[curr];
    }

    method PopTrailingSpace(t: CharTable)
      requires Valid()
      modifies this, data
      ensures Valid() && data == old(data)
      ensures view == TrimEnd(t, old(view))
    {
      while len > 0
        invariant Valid() && data == old(data)
        invariant TrimEnd(t, view) == TrimEnd(t, old(view))
        decreases len
      {
        var c := LastChar();
        if t.space(c) {
          Pop();
        } else {
          break;
        }
      }
    }

    method PopClass(t: CharTable, isAlphanumeric: bool)
      requires Valid()
      modifies this, data
      ensures Valid() && data == old(data)
      ensures view == DropClass(t, old(view), isAlphanumeric)
    {
      while len > 0
        invariant Valid() && data == old(data)
        invariant DropClass(t, view, isAlphanumeric) == DropClass(t, old(view), isAlphanumeric)
        decreases len
      {
        var c := LastChar();
        if t.space(c) {
          break;
        }
        if t.alnum(c) == isAlphanumeric {
          Pop();
        } else {
          break;
        }
      }
    }

    method PopWord(t: CharTable)
      requires Valid()
      modifies this, data
      ensures Valid() && data == old(data)
      ensures view == Text.PopWord(t, old(view))
    {
      if len == 0 {
        return;
      }
      PopTrailingSpace(t);
      if len == 0 {
        return;
      }
      var startChar := LastChar();
      PopClass(t, t.alnum(startChar));
    }

    method Clear()
      requires Valid()
      modifies this, data
      ensures Valid() && data == old(data)
      ensures view == []
    {
      forall i | 0 <= i < data.Length {
        data[i] := '\0';
      }
      head := 0;
      len := 0;
      view := [];
    }

    method BufferString() returns (result: string)
      requires Valid()
      ensures result == view
    {
      var capacity := data.Length;
      result := "";
      var start := Wrap(head + capacity - len, capacity);
      for i := 0 to len
        invariant result == view[..i]
      {
        var slot := Wrap(start + i, capacity);
        assert slot == Slot(i);
        result := result + [data[slot]];
      }
    }

    method AsStr() returns (s: string)
      requires Valid()
      ensures s == view
    {
      if len == 0 {
        return "";
      }
      var capacity := data.Length;
      var start := Wrap(head + capacity - len, capacity);
      var end := start + len;
      s := "";
      if end <= capacity {
        for i := start to end
          invariant s == view[..i - start]
        {
          assert i == Slot(i - start);
          s := s + [data[i]];
        }
      } else {
        var firstPart := capacity - start;
        for i := start to capacity
          invariant s == view[..i - start]
        {
          assert i == Slot(i - start);
          s := s + [data[i]];
        }
        for i := 0 to len - firstPart
          invariant s == view[..firstPart + i]
        {
          assert i == Slot(firstPart + i);
          s := s + [data[i]];
        }
      }
    }

    // ---------------------------------------------------------------- scans

    method NewestSlot() returns (curr: nat)
      requires Valid()
      ensures curr < data.Length
      ensures len > 0 ==> curr == Slot(len - 1)
    {
      curr := Wrap(head + data.Length - 1, data.Length);
    }

    /** The i-th character, which is in slot curr, and the slot before it. */
    method Take(curr: nat, i: nat) returns (c: char, prev: nat)
      requires Valid() && i < len && curr == Slot(i)
      ensures c == view[i]
      ensures prev < data.Length && (i > 0 ==> prev == Slot(i - 1))
    {
      c := data[curr];
      prev := Wrap(curr + data.Length - 1, data.Length);
    }

    method CountBackslashesBefore(from: nat, limit: nat) returns (count: nat)
      requires Valid() && from < data.Length && limit <= len
      requires limit > 0 ==> from == Slot(limit - 1)
      ensures count == BackslashRun(view, limit)
    {
      var capacity := data.Length;
      var curr: nat, available: nat := from, limit;
      count := 0;
      while available > 0
        invariant available <= limit && curr < capacity
        invariant available > 0 ==> curr == Slot(available - 1)
        invariant BackslashRun(view, limit) == count + BackslashRun(view, available)
      {
        var c, prev := Take(curr, available - 1);
        if c == '\\' {
          count := count + 1;
          curr := prev;
          available := available - 1;
        } else {
          break;
        }
      }
    }

    method IsInsideOpenQuote() returns (inside: bool)
      requires Valid()
      ensures inside == (Forward(view, |view|) != None)
    {
      if len == 0 {
        return false;
      }
      var capacity := data.Length;
      var start := Wrap(head + capacity - len, capacity);
      var activeQuote: Option<char> := None;
      for i := 0 to len
        invariant activeQuote == Forward(view, i)
      {
        var curr := Wrap(start + i, capacity);
        var c, live, _ := Read(curr, i);
        if live {
          activeQuote := Toggle(activeQuote, c);
        }
      }
      inside := activeQuote.Some?;
    }

    /** One step of a scan: the i-th character, which is in slot curr, whether
        it is a quote that is not escaped, and the slot before it. */
    method Read(curr: nat, i: nat) returns (c: char, live: bool, prev: nat)
      requires Valid() && i < len && curr == Slot(i)
      ensures c == view[i] && live == Live(view, i)
      ensures prev < data.Length && (i > 0 ==> prev == Slot(i - 1))
    {
      c, prev := Take(curr, i);
      live := false;
      if c == '"' || c == '\'' {
        var run := CountBackslashesBefore(prev, i);
        live := run % 2 == 0;
      }
    }

    method TriggerCharCount(t: CharTable, trigger: char) returns (count: nat)
      requires Valid()
      ensures count == CountFrom(t, view, trigger, len, 0)
    {
      count := 0;
      if len == 0 {
        return;
      }
      var curr := NewestSlot();
      var n := 0;
      var activeQuote: Option<char> := None;
      while n < len
        invariant n <= len
        invariant n < len ==> curr == Slot(len - n - 1)
        invariant activeQuote == Backward(view, len - n)
        invariant CountFrom(t, view, trigger, len, 0) == CountFrom(t, view, trigger, len - n, count)
      {
        var c, live, prev := Read(curr, len - n - 1);
        if live {
          activeQuote := Toggle(activeQuote, c);
        } else if t.space(c) && activeQuote.None? {
          if c == ' ' && count == 0 {
          } else {
            break;
          }
        } else if c == trigger && activeQuote.None? {
          count := count + 1;
        }
        curr := prev;
        n := n + 1;
      }
    }

    method ExtractTriggerWord(t: CharTable, trigger: char) returns (r: Option<string>)
      requires Valid()
      ensures r == TriggerWord(t, view, trigger)
    {
      ScannedIsTriggerWord(t, view, trigger);
      if len == 0 {
        return None;
      }
      var count := TriggerCharCount(t, trigger);
      if count > 1 {
        return None;
      }
      r := CollectTriggerWord(t, trigger);
    }

    method CollectTriggerWord(t: CharTable, trigger: char) returns (r: Option<string>)
      requires Valid()
      ensures r == Collected(view, WordFrom(t, view, trigger, len))
    {
      var collected := [];
      var curr := NewestSlot();
      var n := 0;
      var activeQuote: Option<char> := None;
      while n < len
        invariant n <= len
        invariant n < len ==> curr == Slot(len - n - 1)
        invariant activeQuote == Backward(view, len - n)
        invariant collected == ReverseTail(view, n)
        invariant WordFrom(t, view, trigger, len) == WordFrom(t, view, trigger, len - n)
      {
        var c, live, prev := Read(curr, len - n - 1);
        if live {
          activeQuote := Toggle(activeQuote, c);
        } else if t.space(c) && activeQuote.None? {
          if c != ' ' {
            return None;
          }
        } else if c == trigger && activeQuote.None? {
          ReverseTailBack(view, n);
          return Some(Reverse(collected));
        }
        collected := collected + [c];
        curr := prev;
        n := n + 1;
      }
      return None;
    }

    method ExtractTailWord(t: CharTable) returns (r: Option<string>)
      requires Valid()
      ensures r == TailWord(t, view)
    {
      if len == 0 {
        return None;
      }
      var collected := [];
      var curr := NewestSlot();
      var n := 0;
      while n < len
        invariant n <= len
        invariant n < len ==> curr == Slot(len - n - 1)
        invariant collected == ReverseTail(view, n)
        invariant TailFrom(t, view, len) == TailFrom(t, view, len - n)
      {
        var c, prev := Take(curr, len - n - 1);
        if t.space(c) {
          break;
        }
        collected := collected + [c];
        curr := prev;
        n := n + 1;
      }
      if collected == [] {
        return None;
      }
      ReverseTailBack(view, n);
      return Some(Reverse(collected));
    }

    /** Three upper-case letters and perhaps a minus, read backwards from slot
        `from`, which is the one after n characters were read. */
    method LookAhead(t: CharTable, from: nat, n: nat)
      returns (ok: bool, chars: string, checkCurr: nat, checkN: nat)
      requires Valid() && n <= len && (n < len ==> from == Slot(len - n - 1))
      ensures ok ==> n < checkN <= CandidateCount(view)
      ensures ok && checkN < len ==> checkCurr == Slot(len - checkN - 1)
      ensures ok ==> PlainTail(t, view, checkN) == PlainTail(t, view, n) + chars
    {
      ok, chars, checkCurr, checkN := true, [], from, n;
      for i := 0 to 3
        invariant checkN == n + i <= len && (checkN < len ==> checkCurr == Slot(len - checkN - 1))
        invariant i > 0 ==> checkN <= MAX_CANDIDATE
        invariant PlainTail(t, view, checkN) == PlainTail(t, view, n) + chars
      {
        ok := false;
        if checkN < len && checkN < MAX_CANDIDATE {
          var c, prev := Take(checkCurr, len - checkN - 1);
          if AsciiUpper(c) {
            chars, checkCurr, checkN, ok := chars + [c], prev, checkN + 1, true;
          }
        }
        if !ok {
          return;
        }
      }
      if checkN < len && checkN < MAX_CANDIDATE {
        var c, prev := Take(checkCurr, len - checkN - 1);
        if c == '-' {
          chars, checkCurr, checkN := chars + [c], prev, checkN + 1;
        }
      }
    }

    /** The collecting loop, with its look-ahead for a space that a
        three-letter code and an optional minus precede. */
    method CollectSuffix(t: CharTable) returns (collected: string)
      requires Valid()
      ensures collected == PlainTail(t, view, CandidateCount(view))
    {
      collected := [];
      var curr := NewestSlot();
      var n := 0;
      while n < len && n < MAX_CANDIDATE && |collected| < MAX_CANDIDATE
        invariant n <= CandidateCount(view)
        invariant n < len ==> curr == Slot(len - n - 1)
        invariant collected == PlainTail(t, view, n)
      {
        var c, prev := Take(curr, len - n - 1);
        collected := collected + [if t.space(c) then ' ' else c];
        curr, n := prev, n + 1;
        if c == ' ' && n > 1 {
          var ok, chars, checkCurr, checkN := LookAhead(t, curr, n);
          if ok {
            collected := collected + chars;
            curr, n := checkCurr, checkN;
          }
        }
      }
    }

    method ExtractSuffixCandidates(t: CharTable) returns (candidates: seq<(string, Option<char>)>)
      requires Valid()
      ensures candidates == Candidates(t, view)
    {
      if len == 0 {
        return [];
      }
      var collected := CollectSuffix(t);
      candidates := BuildCandidates(collected);
      CandidatesFromTail(t, view, collected, candidates);
    }

    /** Whether the character before the newest is whitespace, or there is none. */
    method IsWordBoundary(t: CharTable) returns (b: bool)
      requires Valid()
      ensures b == (len < 2 || t.space(view[len - 2]))
    {
      if len < 2 {
        return true;
      }
      var prevIdx := Wrap(head + data.Length - 2, data.Length);
      assert prevIdx == Slot(len - 2);
      b := t.space(data[prevIdx]);
    }
  }
}
