/**
 * The section engine of `LogParser` as functions of the cursor state:
 * `_parse_fields` (column plan, row loop, rollback at the first line that is
 * not a row), `_parse` (the client and routing sections keyed by common name)
 * and `parse` (which rewraps converter failures as `ParsingError`).
 */
module Engine {
  import opened Wrappers
  import opened Text
  import opened Errors
  import opened Cursor
  import opened Expect
  import opened Models
  import opened Ordered

  /**
   * `index_to_name`: each column whose header label is in the label table,
   * mapped to the property with that label; other columns are left out.
   */
  function Plan(table: map<string, Property>, labels: seq<string>): (plan: map<nat, Property>)
    requires forall l :: l in table ==> table[l].columnLabel == l
    ensures forall i: nat :: i in plan <==> i < |labels| && labels[i] in table
    ensures forall i :: i in plan ==> plan[i] in table.Values && plan[i].columnLabel == labels[i]
  {
    map i: nat | i < |labels| && labels[i] in table :: table[labels[i]]
  }

  /** A column tagged with a section label is never assigned: no schema label starts like one. */
  lemma SectionTagIgnored(k: Kind, labels: seq<string>)
    requires labels != []
    requires StartsWith(labels[0], ClientListLabel) || StartsWith(labels[0], RoutingTableLabel)
    ensures labels[0] !in LabelToProperty(k)
  {
    LabelToPropertyContents(k);
    SchemaLabelsUntagged(k);
  }

  /**
   * The labels `expect_header` accepts for either section start with the
   * section tag, so column 0 is left out of the plan and never assigned.
   */
  lemma HeaderTagNotPlanned(lines: seq<string>, st: State, k: Kind, header: string)
    requires Valid(lines, st)
    requires header == ClientListLabel || header == RoutingTableLabel
    ensures var r := Header(lines, st, header).0;
      r.Ok? ==> 0 < |r.value| && 0 !in Plan(LabelToProperty(k), r.value)
  {
    var (r, st') := Header(lines, st, header);
    if r.Ok? {
      HeaderLineTagNotPlanned(k, st'.lastLine.value, header);
    }
  }

  /** The same, for the header line itself. */
  lemma HeaderLineTagNotPlanned(k: Kind, line: string, header: string)
    requires header == ClientListLabel || header == RoutingTableLabel
    requires StartsWith(line, HeaderPrefix(header))
    ensures var labels := Split(line, ListSeparator)[1..];
      0 < |labels| && 0 !in Plan(LabelToProperty(k), labels)
  {
    HeaderLabelsTagged(line, header);
    SectionTagIgnored(k, Split(line, ListSeparator)[1..]);
  }

  /**
   * The descriptor's `__set__`: a property without a converter stores the raw
   * text, one with a converter stores its result or fails with its message.
   */
  function Assign<V>(p: Property, raw: string, convert: (Converter, string) -> Result<V, string>): (r: Result<Field<V>, string>)
    ensures p.converter.None? ==> r == Ok(Text(raw))
    ensures p.converter.Some? ==> (r.Ok? <==> convert(p.converter.value, raw).Ok?)
    ensures p.converter.Some? && convert(p.converter.value, raw).Ok? ==>
      r == Ok(Converted(convert(p.converter.value, raw).value))
    ensures p.converter.Some? && convert(p.converter.value, raw).Err? ==>
      r == Err(convert(p.converter.value, raw).error)
  {
    match p.converter
    case None => Ok(Text(raw))
    case Some(c) =>
      match convert(c, raw)
      case Ok(v) => Ok(Converted(v))
      case Err(m) => Err(m)
  }

  /** The attributes after `setattr` on the planned columns among the first `n`, in column order. */
  function DecodePrefix<V>(plan: map<nat, Property>, values: seq<string>, n: nat,
                           convert: (Converter, string) -> Result<V, string>): (r: Result<map<string, Field<V>>, Error>)
    requires n <= |values|
    ensures r.Err? ==> r.error.AssignmentValueError?
  {
    if n == 0 then Ok(map[])
    else
      match DecodePrefix(plan, values, n - 1, convert)
      case Err(e) => Err(e)
      case Ok(attrs) =>
        if n - 1 !in plan then Ok(attrs)
        else
          match Assign(plan[n - 1], values[n - 1], convert)
          case Err(m) => Err(AssignmentValueError(m))
          case Ok(f) => Ok(attrs[plan[n - 1].name := f])
  }

  /** A fresh instance of the record class with every planned column of the row assigned. */
  function Decode<V>(k: Kind, plan: map<nat, Property>, values: seq<string>,
                     convert: (Converter, string) -> Result<V, string>): (r: Result<Record<V>, Error>)
    ensures r.Err? ==> r.error.AssignmentValueError?
    ensures r.Ok? ==> r.value.kind == k
  {
    match DecodePrefix(plan, values, |values|, convert)
    case Err(e) => Err(e)
    case Ok(attrs) => Ok(Record(k, attrs))
  }

  /**
   * Decoding fails exactly when some planned column is rejected by its
   * converter, and then with the message of the first such column.
   */
  lemma {:induction false} DecodeFailsAtFirstRejected<V>(plan: map<nat, Property>, values: seq<string>, n: nat,
                                                         convert: (Converter, string) -> Result<V, string>)
    requires n <= |values|
    ensures DecodePrefix(plan, values, n, convert).Ok? <==>
      forall i :: 0 <= i < n && i in plan ==> Assign(plan[i], values[i], convert).Ok?
    ensures DecodePrefix(plan, values, n, convert).Err? ==>
      exists i :: 0 <= i < n && i in plan && Assign(plan[i], values[i], convert).Err?
        && DecodePrefix(plan, values, n, convert).error == AssignmentValueError(Assign(plan[i], values[i], convert).error)
        && forall j :: 0 <= j < i && j in plan ==> Assign(plan[j], values[j], convert).Ok?
  {
    if n > 0 {
      DecodeFailsAtFirstRejected(plan, values, n - 1, convert);
    }
  }

  /**
   * Only planned columns are assigned, and an attribute holds the converted
   * value of the last planned column bound to it.
   */
  lemma {:induction false} DecodeAssigns<V>(plan: map<nat, Property>, values: seq<string>, n: nat,
                                            convert: (Converter, string) -> Result<V, string>, name: string)
    requires n <= |values|
    requires DecodePrefix(plan, values, n, convert).Ok?
    ensures var attrs := DecodePrefix(plan, values, n, convert).value;
      name in attrs <==> exists i :: 0 <= i < n && i in plan && plan[i].name == name
    ensures var attrs := DecodePrefix(plan, values, n, convert).value;
      forall i :: 0 <= i < n && i in plan && plan[i].name == name
        && (forall j :: i < j < n && j in plan ==> plan[j].name != name)
        ==> name in attrs && Assign(plan[i], values[i], convert) == Ok(attrs[name])
  {
    if n > 0 {
      DecodeAssigns(plan, values, n - 1, convert, name);
    }
  }

  /**
   * The common name of a decoded row is the text of its last "Common Name"
   * column: that column's property is the raw-text `common_name`, and no
   * later column is bound to the same attribute.
   */
  lemma DecodedCommonName<V>(k: Kind, labels: seq<string>, values: seq<string>,
                             convert: (Converter, string) -> Result<V, string>, i: nat)
    requires |values| == |labels|
    requires Decode(k, Plan(LabelToProperty(k), labels), values, convert).Ok?
    requires i < |labels| && labels[i] == "Common Name"
    requires forall j :: i < j < |labels| ==> labels[j] != "Common Name"
    ensures CommonName(Decode(k, Plan(LabelToProperty(k), labels), values, convert).value) == values[i]
  {
    var plan := Plan(LabelToProperty(k), labels);
    var cn := Property(CommonNameAttribute, "Common Name", None);
    LabelToPropertyContents(k);
    PlannedCommonName(k, labels);
    assert i in plan && plan[i] == cn;
    DecodeAssigns(plan, values, |values|, convert, CommonNameAttribute);
  }

  /** A row decoded under a header without a "Common Name" column has the common name "None". */
  lemma DecodedNoCommonName<V>(k: Kind, labels: seq<string>, values: seq<string>,
                               convert: (Converter, string) -> Result<V, string>)
    requires |values| == |labels|
    requires Decode(k, Plan(LabelToProperty(k), labels), values, convert).Ok?
    requires "Common Name" !in labels
    ensures CommonName(Decode(k, Plan(LabelToProperty(k), labels), values, convert).value) == "None"
  {
    var plan := Plan(LabelToProperty(k), labels);
    PlannedCommonName(k, labels);
    DecodeAssigns(plan, values, |values|, convert, CommonNameAttribute);
  }

  /** A planned column bound to `common_name` is a "Common Name" column. */
  lemma PlannedCommonName(k: Kind, labels: seq<string>)
    ensures var plan := Plan(LabelToProperty(k), labels);
      forall j :: j in plan && plan[j].name == CommonNameAttribute ==>
        labels[j] == "Common Name" && plan[j] == Property(CommonNameAttribute, "Common Name", None)
  {
    var plan := Plan(LabelToProperty(k), labels);
    LabelToPropertyContents(k);
    forall j | j in plan && plan[j].name == CommonNameAttribute
      ensures labels[j] == "Common Name" && plan[j] == Property(CommonNameAttribute, "Common Name", None)
    {
      CommonNameProperty(k, plan[j]);
    }
  }

  /** A single row decodes as its one record. */
  lemma DecodeAllSingle<V>(k: Kind, plan: map<nat, Property>, row: string,
                           convert: (Converter, string) -> Result<V, string>)
    ensures DecodeAll(k, plan, [row], convert) == (
      match Decode(k, plan, Split(row, ListSeparator), convert)
      case Ok(record) => Ok([record])
      case Err(e) => Err(e))
  {
    assert [row][1..] == [];
    assert DecodeAll(k, plan, [], convert) == Ok([]);
    match Decode(k, plan, Split(row, ListSeparator), convert)
    case Ok(record) => assert [record] + [] == [record];
    case Err(e) =>
  }

  /** Once a column is rejected, the rest of the row does not change the error. */
  lemma {:induction false} DecodePrefixStuck<V>(plan: map<nat, Property>, values: seq<string>, i: nat, m: nat,
                                                convert: (Converter, string) -> Result<V, string>)
    requires i <= m <= |values| && DecodePrefix(plan, values, i, convert).Err?
    ensures DecodePrefix(plan, values, m, convert) == DecodePrefix(plan, values, i, convert)
    decreases m - i
  {
    if m > i {
      DecodePrefixStuck(plan, values, i, m - 1, convert);
    }
  }

  /** Every row of `rows` decoded in order; the first failure wins. */
  function DecodeAll<V>(k: Kind, plan: map<nat, Property>, rows: seq<string>,
                        convert: (Converter, string) -> Result<V, string>): (r: Result<seq<Record<V>>, Error>)
    ensures r.Ok? ==> |r.value| == |rows|
    ensures r.Err? ==> r.error.AssignmentValueError?
  {
    if rows == [] then Ok([])
    else
      match Decode(k, plan, Split(rows[0], ListSeparator), convert)
      case Err(e) => Err(e)
      case Ok(rec) =>
        match DecodeAll(k, plan, rows[1..], convert)
        case Err(e) => Err(e)
        case Ok(rest) => Ok([rec] + rest)
  }

  /** A successful decoding holds one record per row, each the row's own decoding. */
  lemma {:induction false} DecodeAllOk<V>(k: Kind, plan: map<nat, Property>, rows: seq<string>,
                                          convert: (Converter, string) -> Result<V, string>, i: nat)
    requires DecodeAll(k, plan, rows, convert).Ok? && i < |rows|
    ensures Decode(k, plan, Split(rows[i], ListSeparator), convert) == Ok(DecodeAll(k, plan, rows, convert).value[i])
  {
    if i > 0 {
      DecodeAllOk(k, plan, rows[1..], convert, i - 1);
      assert rows[1..][i - 1] == rows[i];
    }
  }

  /** A failed decoding reports the error of the first row that fails. */
  lemma {:induction false} DecodeAllErr<V>(k: Kind, plan: map<nat, Property>, rows: seq<string>,
                                           convert: (Converter, string) -> Result<V, string>)
    requires DecodeAll(k, plan, rows, convert).Err?
    ensures exists i ::
              && 0 <= i < |rows|
              && Decode(k, plan, Split(rows[i], ListSeparator), convert) == Err(DecodeAll(k, plan, rows, convert).error)
              && forall j :: 0 <= j < i ==> Decode(k, plan, Split(rows[j], ListSeparator), convert).Ok?
  {
    var e := DecodeAll(k, plan, rows, convert).error;
    if Decode(k, plan, Split(rows[0], ListSeparator), convert).Ok? {
      DecodeAllErr(k, plan, rows[1..], convert);
      var i :| 0 <= i < |rows[1..]| && Decode(k, plan, Split(rows[1..][i], ListSeparator), convert) == Err(e)
        && forall j :: 0 <= j < i ==> Decode(k, plan, Split(rows[1..][j], ListSeparator), convert).Ok?;
      assert rows[1..][i] == rows[i + 1];
      forall j | 0 <= j < i + 1 ensures Decode(k, plan, Split(rows[j], ListSeparator), convert).Ok? {
        if j > 0 {
          assert rows[1..][j - 1] == rows[j];
        }
      }
    }
  }

  /** A line `expect_list` accepts whose field count matches the header's. */
  predicate IsRow(line: string, width: nat)
  {
    ListSeparator in line && |Split(line, ListSeparator)| == width
  }

  /** How many of the leading lines of `ls` are rows of `width` fields. */
  function RowCount(ls: seq<string>, width: nat): (n: nat)
    ensures n <= |ls|
    ensures forall i :: 0 <= i < n ==> IsRow(ls[i], width)
    ensures n < |ls| ==> !IsRow(ls[n], width)
  {
    if ls == [] || !IsRow(ls[0], width) then 0
    else 1 + RowCount(ls[1..], width)
  }

  /**
   * The row loop of `_parse_fields`: read lists while they have as many
   * fields as the header, decoding each into a record; the first line that
   * is not such a list (or the end of input) is rolled back and ends the
   * section. A rejected value aborts the loop.
   */
  function Rows<V>(lines: seq<string>, st: State, k: Kind, width: nat, plan: map<nat, Property>,
                   convert: (Converter, string) -> Result<V, string>): (res: (Result<seq<Record<V>>, Error>, State))
    requires Valid(lines, st)
    ensures Valid(lines, res.1)
    ensures st.lastLine.Some? ==> res.1.lastLine.Some? && res.0 != Err(NoneAttribute)
    ensures res.0.Ok? ==> res.1.rollback
    decreases Measure(lines, st)
  {
    var (r, st1) := List(lines, st);
    match r
    case Err(e) =>
      if e.ParsingError? then (Ok([]), Rollback(st1)) else (Err(e), st1)
    case Ok(values) =>
      if |values| != width then (Ok([]), Rollback(st1))
      else
        match Decode(k, plan, values, convert)
        case Err(e) => (Err(e), st1)
        case Ok(rec) =>
          var (rest, st2) := Rows(lines, st1, k, width, plan, convert);
          match rest
          case Err(e) => (Err(e), st2)
          case Ok(recs) => (Ok([rec] + recs), st2)
  }

  /** The records read so far, ahead of what the rest of the row loop yields. */
  function Prepend<V>(records: seq<Record<V>>, res: (Result<seq<Record<V>>, Error>, State)): (r: (Result<seq<Record<V>>, Error>, State))
    ensures r.1 == res.1 && r.0.Ok? == res.0.Ok?
    ensures records == [] ==> r == res
  {
    match res.0
    case Err(e) => (Err(e), res.1)
    case Ok(rest) =>
      assert records == [] ==> records + rest == rest;
      (Ok(records + rest), res.1)
  }

  lemma PrependTwice<V>(records: seq<Record<V>>, record: Record<V>, res: (Result<seq<Record<V>>, Error>, State))
    ensures Prepend(records, Prepend([record], res)) == Prepend(records + [record], res)
  {
    if res.0.Ok? {
      assert records + ([record] + res.0.value) == records + [record] + res.0.value;
    }
  }

  /** A line that is not a row, or the end of input, is rolled back and ends the row loop. */
  lemma RowsEnd<V>(lines: seq<string>, st: State, k: Kind, width: nat, plan: map<nat, Property>,
                   convert: (Converter, string) -> Result<V, string>)
    requires Valid(lines, st)
    requires var r := List(lines, st).0;
      (r.Err? && r.error.ParsingError?) || (r.Ok? && |r.value| != width)
    ensures Rows(lines, st, k, width, plan, convert) == (Ok([]), Rollback(List(lines, st).1))
  {
  }

  /** Any other failure of `expect_list` escapes the row loop. */
  lemma RowsListFails<V>(lines: seq<string>, st: State, k: Kind, width: nat, plan: map<nat, Property>,
                         convert: (Converter, string) -> Result<V, string>)
    requires Valid(lines, st)
    requires List(lines, st).0.Err? && !List(lines, st).0.error.ParsingError?
    ensures Rows(lines, st, k, width, plan, convert) == (Err(List(lines, st).0.error), List(lines, st).1)
  {
  }

  /** A row whose value a converter rejects aborts the row loop with that error. */
  lemma RowsDecodeFails<V>(lines: seq<string>, st: State, k: Kind, width: nat, plan: map<nat, Property>,
                           convert: (Converter, string) -> Result<V, string>)
    requires Valid(lines, st)
    requires var r := List(lines, st).0;
      r.Ok? && |r.value| == width && Decode(k, plan, r.value, convert).Err?
    ensures Rows(lines, st, k, width, plan, convert)
      == (Err(Decode(k, plan, List(lines, st).0.value, convert).error), List(lines, st).1)
  {
  }

  /** A decoded row is yielded ahead of what the rest of the row loop yields. */
  lemma RowsYields<V>(lines: seq<string>, st: State, k: Kind, width: nat, plan: map<nat, Property>,
                      convert: (Converter, string) -> Result<V, string>)
    requires Valid(lines, st)
    requires var r := List(lines, st).0;
      r.Ok? && |r.value| == width && Decode(k, plan, r.value, convert).Ok?
    ensures Rows(lines, st, k, width, plan, convert)
      == Prepend([Decode(k, plan, List(lines, st).0.value, convert).value], Rows(lines, List(lines, st).1, k, width, plan, convert))
  {
  }

  /** `_parse_fields(cls, labels)`: the records of the rows under a header with `labels`. */
  function Fields<V>(lines: seq<string>, st: State, k: Kind, labels: seq<string>,
                     convert: (Converter, string) -> Result<V, string>): (res: (Result<seq<Record<V>>, Error>, State))
    requires Valid(lines, st)
  {
    Rows(lines, st, k, |labels|, Plan(LabelToProperty(k), labels), convert)
  }

  /** A non-row line, or the end of input, ends the row loop with no records, rolled back. */
  lemma RowsStop<V>(lines: seq<string>, st: State, k: Kind, width: nat,
                    plan: map<nat, Property>, convert: (Converter, string) -> Result<V, string>)
    requires Valid(lines, st) && st.lastLine.Some?
    requires Pending(lines, st) == [] || !IsRow(Pending(lines, st)[0], width)
    ensures var P := Pending(lines, st);
      var (r, st') := Rows(lines, st, k, width, plan, convert);
      && r == Ok([])
      && Pending(lines, st') == (if P == [] then [st.lastLine.value] else P)
      && st'.lastLine == (if P == [] then st.lastLine else Some(P[0]))
  {
    var P := Pending(lines, st);
    ListTakesNextLine(lines, st);
    var (r, st1) := List(lines, st);
    if P == [] {
      AdvancePops(lines, st);
      assert st1 == st.(pos := |lines|);
    } else {
      assert Pending(lines, st1) == Remaining(lines, st1.pos);
    }
  }

  /** A row is read, decoded, and the loop goes on from the next line. */
  lemma RowsStep<V>(lines: seq<string>, st: State, k: Kind, width: nat,
                    plan: map<nat, Property>, convert: (Converter, string) -> Result<V, string>)
    requires Valid(lines, st) && st.lastLine.Some?
    requires Pending(lines, st) != [] && IsRow(Pending(lines, st)[0], width)
    ensures var P := Pending(lines, st);
      var st1 := List(lines, st).1;
      var d := Decode(k, plan, Split(P[0], ListSeparator), convert);
      && Valid(lines, st1) && st1.lastLine == Some(P[0])
      && Pending(lines, st1) == P[1..]
      && (d.Err? ==> Rows(lines, st, k, width, plan, convert).0 == Err(d.error))
      && (d.Ok? ==>
        && Rows(lines, st, k, width, plan, convert).1 == Rows(lines, st1, k, width, plan, convert).1
        && Rows(lines, st, k, width, plan, convert).0 == (
          match Rows(lines, st1, k, width, plan, convert).0
          case Err(e) => Err(e)
          case Ok(recs) => Ok([d.value] + recs)))
  {
    ListTakesNextLine(lines, st);
  }

  /** The row loop decodes exactly the leading rows of the pending lines, in order. */
  lemma {:induction false} RowsDecodeLeadingRows<V>(lines: seq<string>, st: State, k: Kind, width: nat,
                                                    plan: map<nat, Property>, convert: (Converter, string) -> Result<V, string>)
    requires Valid(lines, st) && st.lastLine.Some?
    ensures var P := Pending(lines, st);
      Rows(lines, st, k, width, plan, convert).0 == DecodeAll(k, plan, P[..RowCount(P, width)], convert)
    decreases Measure(lines, st)
  {
    var P := Pending(lines, st);
    var n := RowCount(P, width);
    if P == [] || !IsRow(P[0], width) {
      RowsStop(lines, st, k, width, plan, convert);
    } else {
      RowsStep(lines, st, k, width, plan, convert);
      var st1 := List(lines, st).1;
      RowsDecodeLeadingRows(lines, st1, k, width, plan, convert);
      DecodeLeadingRows(k, plan, P, width, convert);
    }
  }

  /** The leading rows decode as the first row followed by the leading rows after it. */
  lemma DecodeLeadingRows<V>(k: Kind, plan: map<nat, Property>, P: seq<string>, width: nat,
                             convert: (Converter, string) -> Result<V, string>)
    requires P != [] && IsRow(P[0], width)
    ensures var d := Decode(k, plan, Split(P[0], ListSeparator), convert);
      var rest := DecodeAll(k, plan, P[1..][..RowCount(P[1..], width)], convert);
      && (d.Err? ==> DecodeAll(k, plan, P[..RowCount(P, width)], convert) == Err(d.error))
      && (d.Ok? ==>
            DecodeAll(k, plan, P[..RowCount(P, width)], convert) == (
              match rest
              case Err(e) => Err(e)
              case Ok(recs) => Ok([d.value] + recs)))
  {
    var n := RowCount(P, width);
    assert n == 1 + RowCount(P[1..], width);
    assert P[..n][0] == P[0] && P[..n][1..] == P[1..][..n - 1];
  }

  /**
   * After a successful row loop the first non-row line is pending again; at
   * end of input it is the last line read (the header line when there were
   * no rows) that is pending, so the next read returns it once more.
   */
  lemma {:induction false} RowsRollBack<V>(lines: seq<string>, st: State, k: Kind, width: nat,
                                           plan: map<nat, Property>, convert: (Converter, string) -> Result<V, string>)
    requires Valid(lines, st) && st.lastLine.Some?
    requires Rows(lines, st, k, width, plan, convert).0.Ok?
    ensures var P := Pending(lines, st);
      var n := RowCount(P, width);
      var st' := Rows(lines, st, k, width, plan, convert).1;
      && (n < |P| ==> Pending(lines, st') == P[n..])
      && (n == |P| ==> Pending(lines, st') == [st'.lastLine.value])
      && (n == |P| && n > 0 ==> st'.lastLine == Some(P[n - 1]))
      && (n == |P| && n == 0 ==> st'.lastLine == st.lastLine)
    decreases Measure(lines, st)
  {
    var P := Pending(lines, st);
    var n := RowCount(P, width);
    if P == [] || !IsRow(P[0], width) {
      RowsStop(lines, st, k, width, plan, convert);
    } else {
      RowsStep(lines, st, k, width, plan, convert);
      var st1 := List(lines, st).1;
      assert Decode(k, plan, Split(P[0], ListSeparator), convert).Ok?;
      assert Rows(lines, st1, k, width, plan, convert).0.Ok?;
      RowsRollBack(lines, st1, k, width, plan, convert);
      RowCountTail(P, width);
    }
  }

  /** The leading rows are the first line and the leading rows after it. */
  lemma RowCountTail(P: seq<string>, width: nat)
    requires P != [] && IsRow(P[0], width)
    ensures var n := RowCount(P, width);
      var n1 := RowCount(P[1..], width);
      && n == n1 + 1
      && (n1 < |P[1..]| ==> P[1..][n1..] == P[n..])
      && (n1 == |P[1..]| <==> n == |P|)
      && (n1 > 0 ==> P[1..][n1 - 1] == P[n - 1])
      && (n1 == 0 ==> P[0] == P[n - 1])
  {
  }

  /** The `{text_type(c.common_name): c for c in records}` pairs, in row order. */
  function Keyed<V>(records: seq<Record<V>>): (pairs: seq<(string, Record<V>)>)
    ensures |pairs| == |records|
  {
    seq(|records|, i requires 0 <= i < |records| => (CommonName(records[i]), records[i]))
  }

  /** One half of `_parse`: `expect_header(label)`, then `_parse_fields(cls, labels)`. */
  function Section<V>(lines: seq<string>, st: State, k: Kind, header: string,
                      convert: (Converter, string) -> Result<V, string>): (res: (Result<seq<Record<V>>, Error>, State))
    requires Valid(lines, st)
    ensures Valid(lines, res.1)
    ensures Sane(st) ==> res.0 != Err(NoneAttribute) && Sane(res.1)
    ensures res.0.Ok? ==> res.1.lastLine.Some?
  {
    var (h, st1) := Header(lines, st, header);
    match h
    case Err(e) => (Err(e), st1)
    case Ok(labels) => Fields(lines, st1, k, labels, convert)
  }

  /**
   * `_parse`: the client list, then the routing table, each keyed by common
   * name (a later record replaces an earlier one with the same name, which
   * keeps its place). Lines after the routing table are not read.
   */
  function ParseSections<V>(lines: seq<string>, st: State,
                            convert: (Converter, string) -> Result<V, string>): (res: (Result<Status<V>, Error>, State))
    requires Valid(lines, st)
    ensures Valid(lines, res.1)
    ensures Sane(st) ==> res.0 != Err(NoneAttribute)
    ensures res.0.Ok? ==> res.0.value.clientList.Valid() && res.0.value.routingTable.Valid()
  {
    var (c, st1) := Section(lines, st, Client, ClientListLabel, convert);
    match c
    case Err(e) => (Err(e), st1)
    case Ok(clients) =>
      var (r, st2) := Section(lines, st1, Routing, RoutingTableLabel, convert);
      match r
      case Err(e) => (Err(e), st2)
      case Ok(routes) =>
        CollectValid(Keyed(clients));
        CollectValid(Keyed(routes));
        (Ok(Status(Collect(Keyed(clients)), Collect(Keyed(routes)))), st2)
  }

  /**
   * `parse()`: `_parse`, with a converter's `AssignmentValueError` reraised
   * as a `ParsingError` whose message is made ASCII.
   */
  function Parse<V>(lines: seq<string>, st: State,
                    convert: (Converter, string) -> Result<V, string>): (res: (Result<Status<V>, Error>, State))
    requires Valid(lines, st)
    ensures Valid(lines, res.1)
    ensures Sane(st) && res.0.Err? ==> res.0.error.ParsingError?
    ensures res.0.Ok? ==> res.0.value.clientList.Valid() && res.0.value.routingTable.Valid()
  {
    var (r, st1) := ParseSections(lines, st, convert);
    match r
    case Err(e) => (Err(Rewrap(e)), st1)
    case Ok(status) => (Ok(status), st1)
  }

  /** `LogParser.fromstring(content).parse()`. */
  function ParseLog<V>(content: string, convert: (Converter, string) -> Result<V, string>): (r: Result<Status<V>, Error>)
    ensures r.Err? ==> r.error.ParsingError?
  {
    Parse(LogLines(content), Start, convert).0
  }
}
