/**
 * The line cursor of `LogParser` as a function of its state: `__next__`
 * skips blank lines and strips what it returns, and `rollback()` makes the
 * next read return the last line again.
 */
module Cursor {
  import opened Wrappers
  import opened Text

  /**
   * The cursor's mutable state: how many input lines the underlying iterator
   * has consumed, `_last_line` and `_rollback`.
   */
  datatype State = State(pos: nat, lastLine: Option<string>, rollback: bool)

  /**
   * What one `next(self)` yields: a line, the `None` left in `_last_line`
   * when a rollback precedes every read, or `StopIteration`.
   */
  datatype Read = Line(text: string) | NoneValue | Exhausted

  /** The state `__init__` sets up. */
  const Start := State(0, None, false)

  /** A state the cursor can be in: within the input, last line non-empty. */
  predicate Valid(lines: seq<string>, st: State)
  {
    st.pos <= |lines| && (st.lastLine.Some? ==> st.lastLine.value != [])
  }

  /** A rollback is pending only once some line has been read. */
  predicate Sane(st: State)
  {
    st.rollback ==> st.lastLine.Some?
  }

  /** Reads left: input lines not yet consumed, plus one for a pending rollback. */
  function Measure(lines: seq<string>, st: State): nat
    requires st.pos <= |lines|
  {
    |lines| - st.pos + if st.rollback then 1 else 0
  }

  /** `content.strip().split('\n')`, the lines `fromstring` hands to the parser. */
  function LogLines(content: string): (r: seq<string>)
    ensures |r| >= 1
    ensures forall i :: 0 <= i < |r| ==> '\n' !in r[i]
    ensures Join(r, '\n') == Strip(content)
  {
    JoinSplit(Strip(content), '\n');
    Split(Strip(content), '\n')
  }

  /** The first line at or after `from` that is not blank. */
  function FirstNonBlank(lines: seq<string>, from: nat): (k: Option<nat>)
    requires from <= |lines|
    ensures k.None? ==> forall j :: from <= j < |lines| ==> Strip(lines[j]) == []
    ensures k.Some? ==> from <= k.value < |lines| && Strip(lines[k.value]) != []
    ensures k.Some? ==> forall j :: from <= j < k.value ==> Strip(lines[j]) == []
    decreases |lines| - from
  {
    if from == |lines| then None
    else if Strip(lines[from]) != [] then Some(from)
    else FirstNonBlank(lines, from + 1)
  }

  /** `__next__`: the pending line after a rollback, else the next non-blank line, stripped. */
  function Advance(lines: seq<string>, st: State): (res: (Read, State))
    requires Valid(lines, st)
    ensures Valid(lines, res.1) && !res.1.rollback
    ensures res.0 != Exhausted ==> Measure(lines, res.1) < Measure(lines, st)
    ensures res.0.Line? ==> res.0.text != [] && res.1.lastLine == Some(res.0.text)
    ensures st.rollback ==>
      res.1 == st.(rollback := false) && res.0 == (if st.lastLine.Some? then Line(st.lastLine.value) else NoneValue)
    ensures !st.rollback ==> res.0 != NoneValue
    ensures res.0 == Exhausted ==>
      res.1 == st.(pos := |lines|)
  {
    if st.rollback then
      (if st.lastLine.Some? then Line(st.lastLine.value) else NoneValue, st.(rollback := false))
    else
      match FirstNonBlank(lines, st.pos)
      case None => (Exhausted, st.(pos := |lines|))
      case Some(k) =>
        var line := Strip(lines[k]);
        (Line(line), State(k + 1, Some(line), false))
  }

  /** `rollback()`: never fails, only raises the flag. */
  function Rollback(st: State): (r: State)
    ensures r.rollback && r.(rollback := st.rollback) == st
  {
    st.(rollback := true)
  }

  /** The stripped non-blank lines from index `from` on, in order. */
  function Remaining(lines: seq<string>, from: nat): seq<string>
    requires from <= |lines|
    decreases |lines| - from
  {
    if from == |lines| then []
    else
      var line := Strip(lines[from]);
      var rest := Remaining(lines, from + 1);
      if line == [] then rest else [line] + rest
  }

  /** The lines the cursor will return from state `st` on, in order. */
  function Pending(lines: seq<string>, st: State): (r: seq<string>)
    requires st.pos <= |lines|
  {
    if st.rollback && st.lastLine.Some? then [st.lastLine.value] + Remaining(lines, st.pos)
    else Remaining(lines, st.pos)
  }

  /**
   * `rollback()` after a read pushes the line just read back in front of the
   * pending lines, and the next read returns it and restores the state.
   */
  lemma RollbackPushesBack(lines: seq<string>, st: State)
    requires Valid(lines, st) && !st.rollback && st.lastLine.Some?
    ensures Valid(lines, Rollback(st)) && Sane(Rollback(st))
    ensures Pending(lines, Rollback(st)) == [st.lastLine.value] + Pending(lines, st)
    ensures Advance(lines, Rollback(st)) == (Line(st.lastLine.value), st)
  {
  }

  /** Skipping to the first non-blank line `k` drops only blank lines. */
  lemma {:induction false} RemainingFrom(lines: seq<string>, from: nat, k: nat)
    requires from <= |lines| && FirstNonBlank(lines, from) == Some(k)
    ensures Remaining(lines, from) == [Strip(lines[k])] + Remaining(lines, k + 1)
    decreases |lines| - from
  {
    var line := Strip(lines[from]);
    if from < k {
      assert line == [];
      assert FirstNonBlank(lines, from + 1) == Some(k);
      RemainingFrom(lines, from + 1, k);
      assert Remaining(lines, from) == Remaining(lines, from + 1);
    } else {
      assert line != [];
      assert Remaining(lines, from) == [line] + Remaining(lines, from + 1);
    }
  }

  /** With no non-blank line left, nothing remains. */
  lemma {:induction false} RemainingBlank(lines: seq<string>, from: nat)
    requires from <= |lines| && FirstNonBlank(lines, from).None?
    ensures Remaining(lines, from) == []
    decreases |lines| - from
  {
    if from < |lines| {
      RemainingBlank(lines, from + 1);
    }
  }

  /**
   * Each read takes the head of the pending lines: it is `Exhausted` exactly
   * when none are left, and otherwise returns the first and leaves the rest.
   */
  lemma AdvancePops(lines: seq<string>, st: State)
    requires Valid(lines, st) && Sane(st)
    ensures Advance(lines, st).0 != NoneValue
    ensures Advance(lines, st).0 == Exhausted <==> Pending(lines, st) == []
    ensures Advance(lines, st).0 == Exhausted ==> Pending(lines, Advance(lines, st).1) == []
    ensures Advance(lines, st).0.Line? ==>
      Pending(lines, st) == [Advance(lines, st).0.text] + Pending(lines, Advance(lines, st).1)
  {
    if st.rollback {
      var st1 := st.(rollback := false);
      assert Advance(lines, st) == (Line(st.lastLine.value), st1);
      assert Pending(lines, st1) == Remaining(lines, st.pos);
      assert Pending(lines, st) == [st.lastLine.value] + Pending(lines, st1);
    } else {
      assert Pending(lines, st) == Remaining(lines, st.pos);
      match FirstNonBlank(lines, st.pos)
      case Some(k) =>
        AdvanceScans(lines, st, k);
        RemainingFrom(lines, st.pos, k);
        var st1 := State(k + 1, Some(Strip(lines[k])), false);
        assert Pending(lines, st1) == Remaining(lines, k + 1);
        assert Pending(lines, st) == [Strip(lines[k])] + Pending(lines, st1);
      case None =>
        RemainingBlank(lines, st.pos);
    }
  }

  /**
   * Without a rollback, a read passes over blank lines only: it returns the
   * first non-blank line, stripped, or reports end of input when all that is
   * left is blank.
   */
  lemma AdvanceSkipsBlank(lines: seq<string>, st: State)
    requires Valid(lines, st) && !st.rollback
    ensures var (rd, st1) := Advance(lines, st);
      rd.Line? ==>
        && st.pos < st1.pos && rd.text == Strip(lines[st1.pos - 1])
        && forall j :: st.pos <= j < st1.pos - 1 ==> Strip(lines[j]) == []
    ensures Advance(lines, st).0 == Exhausted ==> forall j :: st.pos <= j < |lines| ==> Strip(lines[j]) == []
  {
    match FirstNonBlank(lines, st.pos)
    case Some(k) => AdvanceScans(lines, st, k);
    case None =>
  }

  /** Without a rollback, the read returns the first non-blank line, stripped, and moves past it. */
  lemma AdvanceScans(lines: seq<string>, st: State, k: nat)
    requires Valid(lines, st) && !st.rollback && FirstNonBlank(lines, st.pos) == Some(k)
    ensures Advance(lines, st) == (Line(Strip(lines[k])), State(k + 1, Some(Strip(lines[k])), false))
  {
  }
}
