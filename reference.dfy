/**
 * A reference reading of `LogParser.parse` over the list of lines the cursor
 * will deliver, with no cursor state: find the section header, take the rows
 * that follow it, decode them, and carry on with what is left. The theorems
 * here tie the cursor-level functions of `Engine` to it, and state what the
 * parsed status holds.
 */
module Reference {
  import opened Wrappers
  import opened Text
  import opened Errors
  import opened Cursor
  import opened Expect
  import opened Models
  import opened Ordered
  import opened Engine

  /**
   * The rows under a header with `labels`, over the lines `rows` that follow
   * the header line `line`: the leading rows decoded, and the lines left for
   * the next read. When the rows run to the end of the input, what is left is
   * the last line read, which the rollback hands out once more.
   */
  function SpecRows<V>(rows: seq<string>, k: Kind, labels: seq<string>, line: string,
                       convert: (Converter, string) -> Result<V, string>): (res: (Result<seq<Record<V>>, Error>, seq<string>))
    ensures res.0.Ok? ==> |res.1| >= 1
    ensures res.0.Err? ==> res.0.error.AssignmentValueError?
  {
    var n := RowCount(rows, |labels|);
    match DecodeAll(k, Plan(LabelToProperty(k), labels), rows[..n], convert)
    case Err(e) => (Err(e), [])
    case Ok(records) => (Ok(records), if n < |rows| then rows[n..] else [if n > 0 then rows[n - 1] else line])
  }

  /** When every line after the header is a row, the last of them is left for the next read. */
  lemma SpecRowsToEnd<V>(rows: seq<string>, k: Kind, labels: seq<string>, line: string,
                         convert: (Converter, string) -> Result<V, string>, records: seq<Record<V>>)
    requires rows != [] && RowCount(rows, |labels|) == |rows|
    requires DecodeAll(k, Plan(LabelToProperty(k), labels), rows, convert) == Ok(records)
    ensures SpecRows(rows, k, labels, line, convert) == (Ok(records), [rows[|rows| - 1]])
  {
    SpecRowsParts(rows, k, labels, line, convert);
    assert rows[..|rows|] == rows;
  }

  /** With no line after the header, no rows are read and the header line is left for the next read. */
  lemma SpecRowsNone<V>(k: Kind, labels: seq<string>, line: string, convert: (Converter, string) -> Result<V, string>)
    ensures SpecRows([], k, labels, line, convert) == (Ok([]), [line])
  {
    var rows: seq<string> := [];
    assert rows[..0] == [];
  }

  /** One section over the pending lines `P`: find its header, then read its rows. */
  function SpecSection<V>(P: seq<string>, k: Kind, header: string,
                          convert: (Converter, string) -> Result<V, string>): (res: (Result<seq<Record<V>>, Error>, seq<string>))
    ensures res.0.Ok? ==> |res.1| >= 1
    ensures res.0.Err? ==> res.0.error.ParsingError? || res.0.error.AssignmentValueError?
  {
    match FirstMatch(P, HeaderPrefix(header))
    case None => (Err(ParsingError(EndOfInput(Labelled(header)))), [])
    case Some(j) =>
      var fields := Split(P[j], ListSeparator);
      if |fields| == 2 then (Err(ParsingError(NoLabels(P[j]))), [])
      else SpecRows(P[j + 1..], k, fields[1..], P[j], convert)
  }

  /** The whole parse over the pending lines `P`. */
  function SpecParse<V>(P: seq<string>, convert: (Converter, string) -> Result<V, string>): (r: Result<Status<V>, Error>)
    ensures r.Err? ==> r.error.ParsingError?
    ensures r.Ok? ==> r.value.clientList.Valid() && r.value.routingTable.Valid()
  {
    match SpecSection(P, Client, ClientListLabel, convert)
    case (Err(e), _) => Err(Rewrap(e))
    case (Ok(clients), rest) =>
      match SpecSection(rest, Routing, RoutingTableLabel, convert)
      case (Err(e), _) => Err(Rewrap(e))
      case (Ok(routes), _) =>
        CollectValid(Keyed(clients));
        CollectValid(Keyed(routes));
        Ok(Status(Collect(Keyed(clients)), Collect(Keyed(routes))))
  }

  /** The row loop, from the state right after a header line, reads the reference rows. */
  lemma RowsMatchSpecRows<V>(lines: seq<string>, st: State, k: Kind, labels: seq<string>,
                             convert: (Converter, string) -> Result<V, string>)
    requires Valid(lines, st) && st.lastLine.Some? && !st.rollback
    ensures var plan := Plan(LabelToProperty(k), labels);
      var spec := SpecRows(Pending(lines, st), k, labels, st.lastLine.value, convert);
      && Rows(lines, st, k, |labels|, plan, convert).0 == spec.0
      && (spec.0.Ok? ==> Pending(lines, Rows(lines, st, k, |labels|, plan, convert).1) == spec.1)
  {
    var plan := Plan(LabelToProperty(k), labels);
    var P := Pending(lines, st);
    RowsDecodeLeadingRows(lines, st, k, |labels|, plan, convert);
    SpecRowsParts(P, k, labels, st.lastLine.value, convert);
    if Rows(lines, st, k, |labels|, plan, convert).0.Ok? {
      RowsRollBack(lines, st, k, |labels|, plan, convert);
    }
  }

  /** The reference rows: the leading rows decoded, then what is left for the next read. */
  lemma SpecRowsParts<V>(rows: seq<string>, k: Kind, labels: seq<string>, line: string,
                         convert: (Converter, string) -> Result<V, string>)
    ensures var n := RowCount(rows, |labels|);
      var d := DecodeAll(k, Plan(LabelToProperty(k), labels), rows[..n], convert);
      && SpecRows(rows, k, labels, line, convert).0 == d
      && (d.Ok? && n < |rows| ==> SpecRows(rows, k, labels, line, convert).1 == rows[n..])
      && (d.Ok? && n == |rows| && n > 0 ==> SpecRows(rows, k, labels, line, convert).1 == [rows[n - 1]])
      && (d.Ok? && n == 0 == |rows| ==> SpecRows(rows, k, labels, line, convert).1 == [line])
  {
  }

  /** Once the header is accepted, the section is the row loop under its labels. */
  lemma SectionAfterHeader<V>(lines: seq<string>, st: State, k: Kind, header: string, labels: seq<string>,
                              convert: (Converter, string) -> Result<V, string>)
    requires Valid(lines, st) && Header(lines, st, header).0 == Ok(labels)
    ensures Section(lines, st, k, header, convert) == Fields(lines, Header(lines, st, header).1, k, labels, convert)
  {
  }

  /** The reference section reads the rows after the first header line it accepts. */
  lemma SpecSectionAccepts<V>(P: seq<string>, k: Kind, header: string, j: nat,
                              convert: (Converter, string) -> Result<V, string>)
    requires FirstMatch(P, HeaderPrefix(header)) == Some(j)
    requires |Split(P[j], ListSeparator)| != 2
    ensures SpecSection(P, k, header, convert) == SpecRows(P[j + 1..], k, Split(P[j], ListSeparator)[1..], P[j], convert)
  {
    var m := FirstMatch(P, HeaderPrefix(header));
    assert m.value == j;
  }

  /** The rows after an accepted header, read through the cursor, are the reference rows. */
  lemma RowsMatchReference<V>(lines: seq<string>, st: State, k: Kind, header: string, j: nat,
                              convert: (Converter, string) -> Result<V, string>)
    requires Valid(lines, st) && Sane(st)
    requires FirstMatch(Pending(lines, st), HeaderPrefix(header)) == Some(j)
    requires |Split(Pending(lines, st)[j], ListSeparator)| != 2
    ensures Section(lines, st, k, header, convert).0 == SpecSection(Pending(lines, st), k, header, convert).0
    ensures Section(lines, st, k, header, convert).0.Ok? ==>
      Pending(lines, Section(lines, st, k, header, convert).1) == SpecSection(Pending(lines, st), k, header, convert).1
  {
    var P := Pending(lines, st);
    HeaderFindsFirstMatch(lines, st, header, j);
    var st1 := Header(lines, st, header).1;
    var labels := Split(P[j], ListSeparator)[1..];
    SectionAfterHeader(lines, st, k, header, labels, convert);
    SpecSectionAccepts(P, k, header, j, convert);
    RowsMatchSpecRows(lines, st1, k, labels, convert);
  }

  /** A section read through the cursor is the reference section of its pending lines. */
  lemma SectionMatchesReference<V>(lines: seq<string>, st: State, k: Kind, header: string,
                                   convert: (Converter, string) -> Result<V, string>)
    requires Valid(lines, st) && Sane(st)
    ensures Section(lines, st, k, header, convert).0 == SpecSection(Pending(lines, st), k, header, convert).0
    ensures Section(lines, st, k, header, convert).0.Ok? ==>
      Pending(lines, Section(lines, st, k, header, convert).1) == SpecSection(Pending(lines, st), k, header, convert).1
  {
    var P := Pending(lines, st);
    match FirstMatch(P, HeaderPrefix(header))
    case None =>
      HeaderMissing(lines, st, header);
    case Some(j) =>
      if |Split(P[j], ListSeparator)| == 2 {
        HeaderFindsFirstMatch(lines, st, header, j);
      } else {
        RowsMatchReference(lines, st, k, header, j, convert);
      }
  }

  /** `parse()` from any reachable cursor state is the reference parse of its pending lines. */
  lemma ParseMatchesReference<V>(lines: seq<string>, st: State, convert: (Converter, string) -> Result<V, string>)
    requires Valid(lines, st) && Sane(st)
    ensures Parse(lines, st, convert).0 == SpecParse(Pending(lines, st), convert)
  {
    SectionMatchesReference(lines, st, Client, ClientListLabel, convert);
    var (c, st1) := Section(lines, st, Client, ClientListLabel, convert);
    if c.Ok? {
      SectionMatchesReference(lines, st1, Routing, RoutingTableLabel, convert);
    }
  }

  /** `LogParser.fromstring(content).parse()` is the reference parse of the stripped non-blank lines. */
  lemma ParseLogMatchesReference<V>(content: string, convert: (Converter, string) -> Result<V, string>)
    ensures ParseLog(content, convert) == SpecParse(Remaining(LogLines(content), 0), convert)
  {
    ParseMatchesReference(LogLines(content), Start, convert);
  }

  /** The names of a section table are the common names of its records. */
  lemma KeyedNames<V>(records: seq<Record<V>>, c: string)
    ensures c in Collect(Keyed(records)).items <==> exists i :: 0 <= i < |records| && CommonName(records[i]) == c
  {
    var pairs := Keyed(records);
    assert |pairs| == |records|;
    CollectKeys(pairs, c);
    if c in Collect(pairs).items {
      var i :| 0 <= i < |pairs| && pairs[i].0 == c;
      assert CommonName(records[i]) == c;
    } else if exists i :: 0 <= i < |records| && CommonName(records[i]) == c {
      var i :| 0 <= i < |records| && CommonName(records[i]) == c;
      assert pairs[i].0 == c;
    }
  }

  /** A section table holds, under each common name, the last record carrying it. */
  lemma KeyedLastWins<V>(records: seq<Record<V>>, i: nat)
    requires i < |records|
    requires forall j :: i < j < |records| ==> CommonName(records[j]) != CommonName(records[i])
    ensures Collect(Keyed(records)).Valid()
    ensures CommonName(records[i]) in Collect(Keyed(records)).items
    ensures Collect(Keyed(records)).items[CommonName(records[i])] == records[i]
  {
    var pairs := Keyed(records);
    assert |pairs| == |records|;
    assert forall j :: i < j < |pairs| ==> pairs[j].0 != pairs[i].0;
    CollectValid(pairs);
    CollectLastWins(pairs, i);
  }

  /** The lines the reference rows leave for the next read come from the rows or the header line. */
  lemma SpecRowsRestFromInput<V>(rows: seq<string>, k: Kind, labels: seq<string>, line: string,
                                 convert: (Converter, string) -> Result<V, string>)
    ensures forall x :: x in SpecRows(rows, k, labels, line, convert).1 ==> x in rows || x == line
  {
    var n := RowCount(rows, |labels|);
    forall x | x in SpecRows(rows, k, labels, line, convert).1 ensures x in rows || x == line {
      if n < |rows| {
        assert x in rows[n..];
      } else if n > 0 {
        assert x == rows[n - 1];
      }
    }
  }

  /** Every line the reference section leaves for the next read is one of its input lines. */
  lemma SpecSectionRestFromInput<V>(P: seq<string>, k: Kind, header: string,
                                    convert: (Converter, string) -> Result<V, string>)
    requires SpecSection(P, k, header, convert).0.Ok?
    ensures forall x :: x in SpecSection(P, k, header, convert).1 ==> x in P
  {
    var j := FirstMatch(P, HeaderPrefix(header)).value;
    var labels := Split(P[j], ListSeparator)[1..];
    SpecSectionAccepts(P, k, header, j, convert);
    SpecRowsRestFromInput(P[j + 1..], k, labels, P[j], convert);
    assert forall x :: x in P[j + 1..] ==> x in P;
  }

  /**
   * When no line left after the client section starts with the routing-table
   * header prefix, `parse()` raises end of input for that header. The lines
   * left include a last line the row loop rolled back at end of input.
   */
  lemma SpecParseRoutingHeaderMissing<V>(P: seq<string>, convert: (Converter, string) -> Result<V, string>)
    requires SpecSection(P, Client, ClientListLabel, convert).0.Ok?
    requires FirstMatch(SpecSection(P, Client, ClientListLabel, convert).1, HeaderPrefix(RoutingTableLabel)).None?
    ensures SpecParse(P, convert) == Err(ParsingError(EndOfInput(Labelled(RoutingTableLabel))))
  {
  }

  /**
   * A log parses only if some line starts with the client-list header prefix
   * and some line starts with the routing-table header prefix.
   */
  lemma SpecParseNeedsBothHeaders<V>(P: seq<string>, convert: (Converter, string) -> Result<V, string>)
    requires SpecParse(P, convert).Ok?
    ensures exists i :: 0 <= i < |P| && StartsWith(P[i], HeaderPrefix(ClientListLabel))
    ensures exists i :: 0 <= i < |P| && StartsWith(P[i], HeaderPrefix(RoutingTableLabel))
  {
    var (c, rest) := SpecSection(P, Client, ClientListLabel, convert);
    var i := FirstMatch(P, HeaderPrefix(ClientListLabel)).value;
    assert StartsWith(P[i], HeaderPrefix(ClientListLabel));
    SpecSectionRestFromInput(P, Client, ClientListLabel, convert);
    var j := FirstMatch(rest, HeaderPrefix(RoutingTableLabel)).value;
    assert rest[j] in P;
    var i' :| 0 <= i' < |P| && P[i'] == rest[j];
    assert StartsWith(P[i'], HeaderPrefix(RoutingTableLabel));
  }
}
