/**
 * `LogParser` as a class: the line iterator (the lines and how many of them
 * it has handed out), `_last_line` and `_rollback` are fields that its
 * methods update in place. Each method is proved to compute what the
 * functions of `Cursor`, `Expect` and `Engine` say of the state it starts
 * from, so the lemmas proved there hold of the class.
 */
module Parser {
  import opened Wrappers
  import opened Text
  import opened Errors
  import Cursor
  import opened Expect
  import opened Models
  import opened Ordered
  import Engine

  class LogParser {
    /** The lines behind `self.lines`; `pos` of them have been drawn from the iterator. */
    const lines: seq<string>
    var pos: nat
    /** `_last_line`. */
    var lastLine: Option<string>
    /** `_rollback`. */
    var rollback: bool

    /** The cursor state the functional model speaks of. */
    function View(): Cursor.State
      reads this
    {
      Cursor.State(pos, lastLine, rollback)
    }

    ghost predicate Valid()
      reads this
    {
      Cursor.Valid(lines, View())
    }

    /** `LogParser(lines)`. */
    constructor (lines: seq<string>)
      ensures Valid() && this.lines == lines && View() == Cursor.Start
    {
      this.lines := lines;
      pos := 0;
      lastLine := None;
      rollback := false;
    }

    /** `LogParser.fromstring(content)`: the stripped content split on newlines. */
    constructor FromString(content: string)
      ensures Valid() && lines == Cursor.LogLines(content) && View() == Cursor.Start
    {
      lines := Cursor.LogLines(content);
      pos := 0;
      lastLine := None;
      rollback := false;
    }

    /** `__next__`. */
    method Next() returns (r: Cursor.Read)
      requires Valid()
      modifies this
      ensures Valid()
      ensures (r, View()) == Cursor.Advance(lines, old(View()))
    {
      if rollback {
        rollback := false;
        if lastLine.Some? {
          return Cursor.Line(lastLine.value);
        }
        return Cursor.NoneValue;
      }
      while pos < |lines|
        invariant old(pos) <= pos <= |lines|
        invariant lastLine == old(lastLine) && !rollback
        invariant Cursor.FirstNonBlank(lines, pos) == Cursor.FirstNonBlank(lines, old(pos))
        decreases |lines| - pos
      {
        var line := Strip(lines[pos]);
        pos := pos + 1;
        if line != [] {
          lastLine := Some(line);
          return Cursor.Line(line);
        }
      }
      return Cursor.Exhausted;
    }

    /** `rollback()`. */
    method Rollback()
      requires Valid()
      modifies this
      ensures Valid()
      ensures View() == Cursor.Rollback(old(View()))
    {
      rollback := true;
    }

    /** `expect_header(header)`. */
    method ExpectHeader(header: string) returns (r: Result<seq<string>, Error>)
      requires Valid()
      modifies this
      ensures Valid()
      ensures (r, View()) == Header(lines, old(View()), header)
    {
      while true
        invariant Valid()
        invariant Header(lines, View(), header) == Header(lines, old(View()), header)
        decreases Cursor.Measure(lines, View())
      {
        var rd := Next();
        match rd
        case Exhausted =>
          return Err(ParsingError(EndOfInput(Labelled(header))));
        case NoneValue =>
          return Err(NoneAttribute);
        case Line(line) =>
          if StartsWith(line, HeaderPrefix(header)) {
            var labels := Split(line, ListSeparator)[1..];
            if |labels| == 1 {
              return Err(ParsingError(NoLabels(line)));
            }
            return Ok(labels);
          }
      }
    }

    /** `expect_line(content)`. */
    method ExpectLine(content: string) returns (r: Result<(), Error>)
      requires Valid()
      modifies this
      ensures Valid()
      ensures (r, View()) == ExactLine(lines, old(View()), content)
    {
      var rd := Next();
      match rd
      case Exhausted =>
        return Err(ParsingError(EndOfInput(Content(content))));
      case NoneValue =>
        return Err(ParsingError(Mismatch(content, None)));
      case Line(line) =>
        if line != content {
          return Err(ParsingError(Mismatch(content, Some(line))));
        }
        return Ok(());
    }

    /** `expect_list()`. */
    method ExpectList() returns (r: Result<seq<string>, Error>)
      requires Valid()
      modifies this
      ensures Valid()
      ensures (r, View()) == List(lines, old(View()))
    {
      var rd := Next();
      match rd
      case Exhausted =>
        return Err(ParsingError(EndOfInput(AList)));
      case NoneValue =>
        return Err(NoneAttribute);
      case Line(line) =>
        var fields := Split(line, ListSeparator);
        if |fields| == 1 {
          return Err(ParsingError(NotAList(line)));
        }
        return Ok(fields);
    }

    /** `expect_tuple(name)`. */
    method ExpectTuple(name: string) returns (r: Result<string, Error>)
      requires Valid()
      modifies this
      ensures Valid()
      ensures (r, View()) == Tuple(lines, old(View()), name)
    {
      var rd := Next();
      match rd
      case Exhausted =>
        return Err(ParsingError(EndOfInput(ATuple)));
      case NoneValue =>
        return Err(NoneAttribute);
      case Line(line) =>
        var fields := Split(line, ListSeparator);
        if |fields| != 2 {
          return Err(ParsingError(NotATuple(line)));
        }
        if fields[0] != name {
          return Err(ParsingError(WrongTupleName(name)));
        }
        return Ok(fields[1]);
    }

    /** The `index_to_name` loop of `_parse_fields`: the columns whose label the table knows. */
    static method BuildPlan(table: map<string, Property>, labels: seq<string>) returns (plan: map<nat, Property>)
      requires forall l :: l in table ==> table[l].columnLabel == l
      ensures plan == Engine.Plan(table, labels)
    {
      plan := map[];
      for index := 0 to |labels|
        invariant plan == map i: nat | i < index && labels[i] in table :: table[labels[i]]
      {
        if labels[index] in table {
          plan := plan[index := table[labels[index]]];
        }
      }
    }

    /** `instance = cls()` and the `setattr` loop over the planned columns, in column order. */
    static method DecodeRow<V>(k: Kind, plan: map<nat, Property>, values: seq<string>,
                               convert: (Converter, string) -> Result<V, string>) returns (r: Result<Record<V>, Error>)
      ensures r == Engine.Decode(k, plan, values, convert)
    {
      var attrs: map<string, Field<V>> := map[];
      for index := 0 to |values|
        invariant Engine.DecodePrefix(plan, values, index, convert) == Ok(attrs)
      {
        if index in plan {
          var field := Engine.Assign(plan[index], values[index], convert);
          if field.Err? {
            assert Engine.DecodePrefix(plan, values, index + 1, convert) == Err(AssignmentValueError(field.error));
            Engine.DecodePrefixStuck(plan, values, index + 1, |values|, convert);
            return Err(AssignmentValueError(field.error));
          }
          attrs := attrs[plan[index].name := field.value];
        }
      }
      return Ok(Record(k, attrs));
    }

    /**
     * One turn of the `_parse_fields` loop: read a list; end the section
     * (`None`, after a rollback) when it is not a row, else decode it.
     */
    method NextRow<V>(k: Kind, width: nat, plan: map<nat, Property>, convert: (Converter, string) -> Result<V, string>)
      returns (r: Result<Option<Record<V>>, Error>)
      requires Valid()
      modifies this
      ensures Valid()
      ensures r == Ok(None) ==> Engine.Rows(lines, old(View()), k, width, plan, convert) == (Ok([]), View())
      ensures r.Err? ==> Engine.Rows(lines, old(View()), k, width, plan, convert) == (Err(r.error), View())
      ensures r.Ok? && r.value.Some? ==>
        && View() == List(lines, old(View())).1
        && List(lines, old(View())).0.Ok?
        && Engine.Decode(k, plan, List(lines, old(View())).0.value, convert) == Ok(r.value.value)
        && Cursor.Measure(lines, View()) < Cursor.Measure(lines, old(View()))
        && Engine.Rows(lines, old(View()), k, width, plan, convert)
          == Engine.Prepend([r.value.value], Engine.Rows(lines, View(), k, width, plan, convert))
    {
      ghost var before := View();
      var values := ExpectList();
      if values.Err? {
        if values.error.ParsingError? {
          Engine.RowsEnd(lines, before, k, width, plan, convert);
          Rollback();
          return Ok(None);
        }
        Engine.RowsListFails(lines, before, k, width, plan, convert);
        return Err(values.error);
      }
      if |values.value| != width {
        Engine.RowsEnd(lines, before, k, width, plan, convert);
        Rollback();
        return Ok(None);
      }
      var record := DecodeRow(k, plan, values.value, convert);
      if record.Err? {
        Engine.RowsDecodeFails(lines, before, k, width, plan, convert);
        return Err(record.error);
      }
      Engine.RowsYields(lines, before, k, width, plan, convert);
      return Ok(Some(record.value));
    }

    /**
     * `_parse_fields(cls, labels)`, with the records it yields collected in
     * order: build the column plan, then read rows until one does not fit.
     */
    method ParseFields<V>(k: Kind, labels: seq<string>, convert: (Converter, string) -> Result<V, string>)
      returns (r: Result<seq<Record<V>>, Error>)
      requires Valid()
      modifies this
      ensures Valid()
      ensures (r, View()) == Engine.Fields(lines, old(View()), k, labels, convert)
    {
      var plan := BuildPlan(LabelToProperty(k), labels);
      r := ReadRows(k, |labels|, plan, convert);
    }

    /** The `while True` loop of `_parse_fields`: the records of the rows read, in order. */
    method ReadRows<V>(k: Kind, width: nat, plan: map<nat, Property>, convert: (Converter, string) -> Result<V, string>)
      returns (r: Result<seq<Record<V>>, Error>)
      requires Valid()
      modifies this
      ensures Valid()
      ensures (r, View()) == Engine.Rows(lines, old(View()), k, width, plan, convert)
    {
      var records: seq<Record<V>> := [];
      while true
        invariant Valid()
        invariant Engine.Rows(lines, old(View()), k, width, plan, convert)
          == Engine.Prepend(records, Engine.Rows(lines, View(), k, width, plan, convert))
        decreases Cursor.Measure(lines, View())
      {
        var row := NextRow(k, width, plan, convert);
        match row
        case Err(e) =>
          return Err(e);
        case Ok(None) =>
          assert records + [] == records;
          return Ok(records);
        case Ok(Some(record)) =>
          Engine.PrependTwice(records, record, Engine.Rows(lines, View(), k, width, plan, convert));
          records := records + [record];
      }
    }

    /** The `{text_type(c.common_name): c ...}` update of an empty section table. */
    static method Tabulate<V>(records: seq<Record<V>>) returns (d: OrderedDict<Record<V>>)
      ensures d == Collect(Engine.Keyed(records))
    {
      var pairs := Engine.Keyed(records);
      d := Empty();
      for i := 0 to |pairs|
        invariant d == Collect(pairs[..i])
      {
        CollectSnoc(pairs, i);
        d := Put(d, pairs[i].0, pairs[i].1);
      }
      assert pairs[..|pairs|] == pairs;
    }

    /** `_parse`: the client list, then the routing table. */
    method ParseSections<V>(convert: (Converter, string) -> Result<V, string>) returns (r: Result<Status<V>, Error>)
      requires Valid()
      modifies this
      ensures Valid()
      ensures (r, View()) == Engine.ParseSections(lines, old(View()), convert)
    {
      var clientLabels := ExpectHeader(ClientListLabel);
      if clientLabels.Err? {
        return Err(clientLabels.error);
      }
      var clients := ParseFields(Client, clientLabels.value, convert);
      if clients.Err? {
        return Err(clients.error);
      }
      var clientList := Tabulate(clients.value);
      var routingLabels := ExpectHeader(RoutingTableLabel);
      if routingLabels.Err? {
        return Err(routingLabels.error);
      }
      var routes := ParseFields(Routing, routingLabels.value, convert);
      if routes.Err? {
        return Err(routes.error);
      }
      var routingTable := Tabulate(routes.value);
      return Ok(Status(clientList, routingTable));
    }

    /** `parse()`. */
    method Parse<V>(convert: (Converter, string) -> Result<V, string>) returns (r: Result<Status<V>, Error>)
      requires Valid()
      modifies this
      ensures Valid()
      ensures (r, View()) == Engine.Parse(lines, old(View()), convert)
    {
      r := ParseSections(convert);
      if r.Err? {
        r := Err(Rewrap(r.error));
      }
    }
  }
}
