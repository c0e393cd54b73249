/**
 * The line-shape checkers of `LogParser` as functions of the cursor state:
 * each reads one line (`expect_header` as many as it takes) and returns the
 * fields or the `ParsingError` the Python method raises.
 */
module Expect {
  import opened Wrappers
  import opened Text
  import opened Errors
  import opened Cursor

  const ListSeparator := ','

  /** The prefix `expect_header(header)` looks for. */
  function HeaderPrefix(header: string): string
  {
    "HEADER," + header
  }

  /**
   * A header line for a comma-free `header` has the header as the start of
   * its second field, which is the first label `expect_header` returns.
   */
  lemma HeaderLabelsTagged(line: string, header: string)
    requires StartsWith(line, HeaderPrefix(header)) && ListSeparator !in header
    ensures |Split(line, ListSeparator)| >= 2
    ensures StartsWith(Split(line, ListSeparator)[1], header)
  {
    var tag := "HEADER";
    var rest := line[|tag| + 1..];
    assert line == tag + [ListSeparator] + rest;
    SplitPrefixed(tag, rest, ListSeparator);
    assert rest[..|header|] == line[..|HeaderPrefix(header)|][|tag| + 1..];
    SplitFirstPiece(rest, header, ListSeparator);
  }

  /** `expect_header(header)`: skip to the first line starting with `HEADER,<header>`. */
  function Header(lines: seq<string>, st: State, header: string): (res: (Result<seq<string>, Error>, State))
    requires Valid(lines, st)
    ensures Valid(lines, res.1) && !res.1.rollback
    ensures Sane(st) ==> res.0 != Err(NoneAttribute)
    ensures res.0.Ok? ==>
      && res.1.lastLine.Some?
      && StartsWith(res.1.lastLine.value, HeaderPrefix(header))
      && res.0.value == Split(res.1.lastLine.value, ListSeparator)[1..]
      && |res.0.value| >= 2
    decreases Measure(lines, st)
  {
    var (rd, st1) := Advance(lines, st);
    match rd
    case Exhausted => (Err(ParsingError(EndOfInput(Labelled(header)))), st1)
    case NoneValue => (Err(NoneAttribute), st1)
    case Line(line) =>
      if StartsWith(line, HeaderPrefix(header)) then
        PrefixSeparator(line, HeaderPrefix(header), ListSeparator);
        var labels := Split(line, ListSeparator)[1..];
        if |labels| == 1 then (Err(ParsingError(NoLabels(line))), st1)
        else (Ok(labels), st1)
      else Header(lines, st1, header)
  }

  /** `expect_line(content)`: the next line must be `content`. */
  function ExactLine(lines: seq<string>, st: State, content: string): (res: (Result<(), Error>, State))
    requires Valid(lines, st)
    ensures Valid(lines, res.1) && res.1 == Advance(lines, st).1
    ensures res.0.Ok? <==> Advance(lines, st).0 == Line(content)
    ensures res.0.Err? ==> res.0.error.ParsingError?
  {
    var (rd, st1) := Advance(lines, st);
    match rd
    case Exhausted => (Err(ParsingError(EndOfInput(Content(content)))), st1)
    case NoneValue => (Err(ParsingError(Mismatch(content, None))), st1)
    case Line(line) =>
      if line != content then (Err(ParsingError(Mismatch(content, Some(line)))), st1)
      else (Ok(()), st1)
  }

  /** `expect_list()`: the next line split on commas, which must yield at least two fields. */
  function List(lines: seq<string>, st: State): (res: (Result<seq<string>, Error>, State))
    requires Valid(lines, st)
    ensures Valid(lines, res.1)
    ensures res.0.Ok? ==>
      && Advance(lines, st).0.Line?
      && |res.0.value| >= 2
      && Join(res.0.value, ListSeparator) == Advance(lines, st).0.text
      && Measure(lines, res.1) < Measure(lines, st)
    ensures res.0.Err? && res.0.error.ParsingError? && Advance(lines, st).0.Line? ==>
      ListSeparator !in Advance(lines, st).0.text
    ensures res.1 == Advance(lines, st).1
  {
    var (rd, st1) := Advance(lines, st);
    match rd
    case Exhausted => (Err(ParsingError(EndOfInput(AList))), st1)
    case NoneValue => (Err(NoneAttribute), st1)
    case Line(line) =>
      var fields := Split(line, ListSeparator);
      JoinSplit(line, ListSeparator);
      if |fields| == 1 then (Err(ParsingError(NotAList(line))), st1)
      else (Ok(fields), st1)
  }

  /** `expect_tuple(name)`: the next line must be `name,<value>`; returns `<value>`. */
  function Tuple(lines: seq<string>, st: State, name: string): (res: (Result<string, Error>, State))
    requires Valid(lines, st)
    ensures Valid(lines, res.1) && res.1 == Advance(lines, st).1
    ensures res.0.Ok? ==>
      && Advance(lines, st).0 == Line(name + [ListSeparator] + res.0.value)
      && ListSeparator !in res.0.value
    ensures Sane(st) && res.0.Err? ==> res.0.error.ParsingError?
  {
    var (rd, st1) := Advance(lines, st);
    match rd
    case Exhausted => (Err(ParsingError(EndOfInput(ATuple))), st1)
    case NoneValue => (Err(NoneAttribute), st1)
    case Line(line) =>
      var fields := Split(line, ListSeparator);
      if |fields| != 2 then (Err(ParsingError(NotATuple(line))), st1)
      else if fields[0] != name then (Err(ParsingError(WrongTupleName(name))), st1)
      else
        JoinSplit(line, ListSeparator);
        assert Join(fields, ListSeparator) == fields[0] + [ListSeparator] + fields[1];
        (Ok(fields[1]), st1)
  }

  /** The index of the first string in `ls` that starts with `prefix`. */
  function FirstMatch(ls: seq<string>, prefix: string): (j: Option<nat>)
    ensures j.None? ==> forall i :: 0 <= i < |ls| ==> !StartsWith(ls[i], prefix)
    ensures j.Some? ==>
      && j.value < |ls| && StartsWith(ls[j.value], prefix)
      && forall i :: 0 <= i < j.value ==> !StartsWith(ls[i], prefix)
  {
    if ls == [] then None
    else if StartsWith(ls[0], prefix) then Some(0)
    else match FirstMatch(ls[1..], prefix)
      case None => None
      case Some(j) => Some(j + 1)
  }

  /**
   * `expect_header` stops at the first pending line that starts with the
   * header prefix, consuming it and everything before it; the labels are all
   * fields after the leading `HEADER`, rejected only when exactly one remains.
   */
  lemma {:induction false} HeaderFindsFirstMatch(lines: seq<string>, st: State, header: string, j: nat)
    requires Valid(lines, st) && Sane(st)
    requires FirstMatch(Pending(lines, st), HeaderPrefix(header)) == Some(j)
    ensures var line := Pending(lines, st)[j];
      var (r, st') := Header(lines, st, header);
      && Pending(lines, st') == Pending(lines, st)[j + 1..]
      && st'.lastLine == Some(line)
      && r == (if |Split(line, ListSeparator)| == 2 then Err(ParsingError(NoLabels(line)))
               else Ok(Split(line, ListSeparator)[1..]))
    decreases Measure(lines, st)
  {
    var P := Pending(lines, st);
    FirstMatchTail(P, HeaderPrefix(header), j);
    if j > 0 {
      HeaderSkipsLine(lines, st, header);
      var st1 := Advance(lines, st).1;
      HeaderFindsFirstMatch(lines, st1, header, j - 1);
    } else {
      HeaderAtNextLine(lines, st, header);
    }
  }

  /** A first match past the head is the first match in the tail, one place earlier. */
  lemma FirstMatchTail(ls: seq<string>, prefix: string, j: nat)
    requires FirstMatch(ls, prefix) == Some(j)
    ensures ls != [] && (j == 0 <==> StartsWith(ls[0], prefix))
    ensures j > 0 ==>
      && FirstMatch(ls[1..], prefix) == Some(j - 1)
      && ls[1..][j - 1] == ls[j] && ls[1..][j..] == ls[j + 1..]
  {
  }

  /** A pending line without the header prefix is read and passed over. */
  lemma HeaderSkipsLine(lines: seq<string>, st: State, header: string)
    requires Valid(lines, st) && Sane(st)
    requires Pending(lines, st) != [] && !StartsWith(Pending(lines, st)[0], HeaderPrefix(header))
    ensures var st1 := Advance(lines, st).1;
      && Valid(lines, st1) && Sane(st1) && Measure(lines, st1) < Measure(lines, st)
      && Pending(lines, st1) == Pending(lines, st)[1..]
      && Header(lines, st, header) == Header(lines, st1, header)
  {
    AdvancePops(lines, st);
  }

  /** A next pending line with the header prefix is the header line. */
  lemma HeaderAtNextLine(lines: seq<string>, st: State, header: string)
    requires Valid(lines, st) && Sane(st)
    requires Pending(lines, st) != [] && StartsWith(Pending(lines, st)[0], HeaderPrefix(header))
    ensures var line := Pending(lines, st)[0];
      && Pending(lines, Header(lines, st, header).1) == Pending(lines, st)[1..]
      && Header(lines, st, header).1.lastLine == Some(line)
      && Header(lines, st, header).0 == (
        if |Split(line, ListSeparator)| == 2 then Err(ParsingError(NoLabels(line)))
        else Ok(Split(line, ListSeparator)[1..]))
  {
    var P := Pending(lines, st);
    AdvancePops(lines, st);
    var st1 := Advance(lines, st).1;
    PrefixSeparator(P[0], HeaderPrefix(header), ListSeparator);
    assert Header(lines, st, header).1 == st1;
  }

  /** With no pending line starting with the prefix, `expect_header` reports end of input. */
  lemma {:induction false} HeaderMissing(lines: seq<string>, st: State, header: string)
    requires Valid(lines, st) && Sane(st)
    requires FirstMatch(Pending(lines, st), HeaderPrefix(header)).None?
    ensures Header(lines, st, header).0 == Err(ParsingError(EndOfInput(Labelled(header))))
    ensures Pending(lines, Header(lines, st, header).1) == []
    decreases Measure(lines, st)
  {
    var P := Pending(lines, st);
    AdvancePops(lines, st);
    var (rd, st1) := Advance(lines, st);
    if P != [] {
      assert rd == Line(P[0]) && Pending(lines, st1) == P[1..];
      assert !StartsWith(P[0], HeaderPrefix(header));
      assert Header(lines, st, header) == Header(lines, st1, header);
      assert FirstMatch(P[1..], HeaderPrefix(header)).None?;
      HeaderMissing(lines, st1, header);
    }
  }

  /**
   * `expect_list` takes exactly the next pending line: it succeeds with all its
   * comma-separated fields when the line holds a comma, and raises otherwise.
   */
  lemma ListTakesNextLine(lines: seq<string>, st: State)
    requires Valid(lines, st) && Sane(st)
    ensures var P := Pending(lines, st);
      && (P == [] ==> List(lines, st).0 == Err(ParsingError(EndOfInput(AList))))
      && (P != [] ==>
        && Pending(lines, List(lines, st).1) == P[1..]
        && List(lines, st).1.lastLine == Some(P[0])
        && List(lines, st).0 == (
          if ListSeparator in P[0] then Ok(Split(P[0], ListSeparator))
          else Err(ParsingError(NotAList(P[0])))))
  {
    AdvancePops(lines, st);
    var P := Pending(lines, st);
    if P != [] {
      assert ListSeparator !in P[0] <==> Count(P[0], ListSeparator) == 0;
    }
  }

  /** `expect_tuple(name)` accepts exactly a next line `name,<value>` with no further comma. */
  lemma TupleTakesNextLine(lines: seq<string>, st: State, name: string)
    requires Valid(lines, st) && Sane(st)
    ensures Pending(lines, st) == [] ==> Tuple(lines, st, name).0 == Err(ParsingError(EndOfInput(ATuple)))
    ensures Pending(lines, st) != [] ==>
      var line := Pending(lines, st)[0];
      && Pending(lines, Tuple(lines, st, name).1) == Pending(lines, st)[1..]
      && (Tuple(lines, st, name).0.Ok? <==>
           |Split(line, ListSeparator)| == 2 && Split(line, ListSeparator)[0] == name)
      && (Tuple(lines, st, name).0.Ok? ==> Tuple(lines, st, name).0.value == Split(line, ListSeparator)[1])
  {
    AdvancePops(lines, st);
  }

  /**
   * `expect_line(content)` takes exactly the next pending line and succeeds
   * when it is `content`; with no line left it raises end of input.
   */
  lemma ExactLineTakesNextLine(lines: seq<string>, st: State, content: string)
    requires Valid(lines, st) && Sane(st)
    ensures var P := Pending(lines, st);
      && (P == [] ==> ExactLine(lines, st, content).0 == Err(ParsingError(EndOfInput(Content(content)))))
      && (P != [] ==>
        && Pending(lines, ExactLine(lines, st, content).1) == P[1..]
        && (ExactLine(lines, st, content).0.Ok? <==> P[0] == content))
  {
    AdvancePops(lines, st);
  }
}
