/**
 * Concrete logs that show how `LogParser` reads its input as written: a
 * header line that carries no label is refused, a header is matched by
 * prefix, and at the end of the input the rollback hands out the last line
 * again, so a line read as a row can be read a second time as a header.
 */
module Scenarios {
  import opened Wrappers
  import opened Text
  import opened Errors
  import opened Cursor
  import opened Expect
  import opened Models
  import opened Ordered
  import opened Engine
  import opened Reference

  const TagOnly := "HEADER,CLIENT_LIST"

  lemma TagOnlyFields()
    ensures Split(TagOnly, ListSeparator) == ["HEADER", "CLIENT_LIST"]
  {
    var parts := ["HEADER", "CLIENT_LIST"];
    assert Join(parts, ListSeparator) == TagOnly;
    SplitJoin(parts, ListSeparator);
  }

  lemma TagOnlyIsClientHeader()
    ensures FirstMatch([TagOnly], HeaderPrefix(ClientListLabel)) == Some(0)
  {
    assert TagOnly[..|HeaderPrefix(ClientListLabel)|] == HeaderPrefix(ClientListLabel);
  }

  /** `HEADER,CLIENT_LIST` alone leaves one label, the section tag, and is refused. */
  lemma HeaderWithOnlyTagRefused<V>(convert: (Converter, string) -> Result<V, string>)
    ensures SpecParse([TagOnly], convert) == Err(ParsingError(NoLabels(TagOnly)))
  {
    TagOnlyFields();
    TagOnlyIsClientHeader();
  }

  /**
   * A routing-table header placed last, with as many fields as there are
   * client labels, passes as a client row: the client row loop reads it and
   * decodes it as a client, meets the end of the input and rolls back; the
   * rollback hands the same line out again, and it is accepted as the
   * routing-table header, with no rows under it. The line is read twice.
   */
  lemma LastLineReadTwice<V>(header: string, last: string, record: Record<V>,
                             convert: (Converter, string) -> Result<V, string>)
    requires StartsWith(header, HeaderPrefix(ClientListLabel))
    requires StartsWith(last, HeaderPrefix(RoutingTableLabel))
    requires |Split(last, ListSeparator)| == |Split(header, ListSeparator)| - 1 >= 3
    requires Decode(Client, Plan(LabelToProperty(Client), Split(header, ListSeparator)[1..]),
                    Split(last, ListSeparator), convert) == Ok(record)
    ensures SpecSection([header, last], Client, ClientListLabel, convert) == (Ok([record]), [last])
    ensures SpecParse([header, last], convert) == Ok(Status(Collect(Keyed([record])), Collect(Keyed([]))))
  {
    RowThenHeader(header, last, Client, ClientListLabel, Routing, RoutingTableLabel, record, convert);
  }

  /**
   * Under a header of `n + 1` fields, a last line of `n` fields is read as a
   * row and left for the next read; a section whose header it is then finds
   * no rows under it.
   */
  lemma RowThenHeader<V>(header: string, last: string, k1: Kind, h1: string, k2: Kind, h2: string,
                         record: Record<V>, convert: (Converter, string) -> Result<V, string>)
    requires StartsWith(header, HeaderPrefix(h1))
    requires StartsWith(last, HeaderPrefix(h2))
    requires |Split(last, ListSeparator)| == |Split(header, ListSeparator)| - 1 >= 3
    requires Decode(k1, Plan(LabelToProperty(k1), Split(header, ListSeparator)[1..]),
                    Split(last, ListSeparator), convert) == Ok(record)
    ensures SpecSection([header, last], k1, h1, convert) == (Ok([record]), [last])
    ensures SpecSection([last], k2, h2, convert) == (Ok([]), [last])
  {
    LastLineReadAsRow(header, last, k1, h1, record, convert);
    var rows := [last];
    assert FirstMatch(rows, HeaderPrefix(h2)) == Some(0);
    SpecSectionAccepts(rows, k2, h2, 0, convert);
    assert rows[1..] == [];
    SpecRowsNone(k2, Split(last, ListSeparator)[1..], last, convert);
  }

  /** The row loop under `header` reads `last` as a row, then leaves it for the next read. */
  lemma LastLineReadAsRow<V>(header: string, last: string, k: Kind, h: string, record: Record<V>,
                             convert: (Converter, string) -> Result<V, string>)
    requires StartsWith(header, HeaderPrefix(h))
    requires |Split(last, ListSeparator)| == |Split(header, ListSeparator)| - 1 >= 3
    requires Decode(k, Plan(LabelToProperty(k), Split(header, ListSeparator)[1..]),
                    Split(last, ListSeparator), convert) == Ok(record)
    ensures SpecSection([header, last], k, h, convert) == (Ok([record]), [last])
  {
    var P := [header, last];
    var labels := Split(header, ListSeparator)[1..];
    var rows := [last];
    assert FirstMatch(P, HeaderPrefix(h)) == Some(0);
    SpecSectionAccepts(P, k, h, 0, convert);
    assert P[1..] == rows;
    assert ListSeparator in last by {
      assert Count(last, ListSeparator) != 0;
    }
    assert IsRow(last, |labels|);
    assert RowCount(rows, |labels|) == 1;
    DecodeAllSingle(k, Plan(LabelToProperty(k), labels), last, convert);
    SpecRowsToEnd(rows, k, labels, header, convert, [record]);
  }
}
