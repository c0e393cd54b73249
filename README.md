# openvpn-status log parser, modelled in Dafny

This project models the parser of the `openvpn-status` library. The parser
reads an OpenVPN status log and builds a `Status`, which holds two ordered
tables keyed by common name: the client list and the routing table.

`LogParser` is a stateful line cursor over the log:

- `__next__` returns the next non-blank line, stripped. After `rollback()` it
  returns the last line once more.
- Four line checkers read from the cursor:
  - `expect_header` skips to the first line that starts with `HEADER,<label>` and returns its labels;
  - `expect_line` checks that the next line is a given text;
  - `expect_list` splits the next line on commas;
  - `expect_tuple` reads a `name,value` line.
- `_parse_fields` maps the header's column labels to the schema's properties. It then reads rows until a
  line does not have as many fields as the header, and rolls that line back.
- `_parse` reads the client list, then the routing table. Each table is keyed by common name.
- `parse` turns a converter failure into a `ParsingError` whose message has its non-ASCII characters escaped.

`models.py` supplies the schemas: each record class has a list of labelled
properties, and some properties have a converter.

The model has two layers:

- **A functional model.** Modules `Cursor`, `Expect` and `Engine` treat each operation as a function of
  `(lines, State)`. `State` holds:
  - how many lines the iterator has handed out;
  - `_last_line`;
  - `_rollback`.

  Each function returns its result and the new state. Python exceptions are `Err` values of the `Error`
  datatype. The lemmas are stated over `Pending(lines, st)`, the list of lines the cursor will still
  return.
- **The class `Parser.LogParser`.** It has fields for the same state, one method per Python method,
  plus one method per loop of `_parse_fields` and `_parse` (and one for a single turn of the row loop).
  The methods use the source's loops. Each method is proved to return, and leave the object in, exactly
  what the functional model gives for the starting state.

The module `Reference` restates the whole parse over the pending lines, with no
cursor at all. `ParseMatchesReference` proves that the cursor-level parse equals it.

## Model

| member | source | states |
|---|---|---|
| Text.StripFacts | openvpn_status/parser.py:30 | `str.strip()`: the result is a slice of the input. It is empty exactly when the input is all whitespace, and otherwise neither end is whitespace. |
| Text.TrimStartSpec | openvpn_status/parser.py:30 | Leading whitespace is removed up to the first non-space character, and nothing more. |
| Text.TrimEndSpec | openvpn_status/parser.py:30 | Trailing whitespace is removed back to the last non-space character, and nothing more. |
| Text.StripIdempotent | openvpn_status/parser.py:30 | A stripped line strips to itself. |
| Text.Count | openvpn_status/parser.py:73-74 | The number of occurrences is zero exactly when the character is absent. |
| Text.Split | openvpn_status/parser.py:55 | `str.split(sep)` gives one more piece than there are separators, and no piece holds the separator. |
| Text.JoinSplit | openvpn_status/parser.py:73 | Joining the pieces of a split gives back the line. |
| Text.SplitJoin | openvpn_status/parser.py:73 | Splitting separator-free pieces joined by the separator gives back the pieces. |
| Text.SplitPiece | openvpn_status/parser.py:73-75 | A line without a comma splits into itself alone, which `expect_list` rejects. |
| Text.SplitPrefixed | openvpn_status/parser.py:83-88 | A separator-free first field splits off as the first piece. |
| Text.SplitFirstPiece | openvpn_status/parser.py:54-55 | The first piece of a split starts with any separator-free prefix of the line. |
| Text.PrefixSeparator | openvpn_status/parser.py:54-55 | A line starting with `HEADER,` splits into at least two fields, so `labels` is never empty. |
| Errors.Escape | openvpn_status/parser.py:99-101 | `backslashreplace` of one character: the result is ASCII, and an ASCII character is left as it is. |
| Errors.EscapeNamesCodePoint | openvpn_status/parser.py:99-101 | The escape of a non-ASCII character is a backslash, then `x`, `u` or `U` for a code point below 0x100, below 0x10000 or above, then two, four or eight lower-case hex digits that read back as the code point. |
| Errors.ReadHexHex | openvpn_status/parser.py:99-101 | The hex digits written in an escape read back as the code point. |
| Errors.Sanitize | openvpn_status/parser.py:99-101 | The rewrapped message is ASCII and no shorter than the original. |
| Errors.SanitizeAscii | openvpn_status/parser.py:99-101 | An ASCII message is left unchanged. |
| Errors.Rewrap | openvpn_status/parser.py:96-102 | An `AssignmentValueError` becomes `ParsingError('expected valid format: …')` carrying the converter's message, sanitised to ASCII. Any other error passes through unchanged. |
| Ordered.Put | openvpn_status/parser.py:107-109 | Setting a key in an `OrderedDict` stores the value. Other keys keep their values, the existing key order is kept, and an existing key keeps its place. |
| Ordered.CollectValid | openvpn_status/parser.py:107-109 | The table built from the pairs has distinct keys, and its key list is its domain. |
| Ordered.CollectKeys | openvpn_status/parser.py:107-109 | A key is in the table exactly when some pair carries it. |
| Ordered.CollectLastWins | openvpn_status/parser.py:107-109 | The value under a key is that of the last pair with the key. |
| Ordered.CollectKeysGrow | openvpn_status/parser.py:107-109 | Later pairs never reorder the keys that earlier pairs inserted. |
| Models.Properties | openvpn_status/models.py:16-34 | The descriptors of `Client` and `Routing`, in declaration order. Each schema has `common_name` labelled `Common Name` with no converter. |
| Models.SchemaWellFormed | openvpn_status/models.py:16-34 | Within each schema, labels and attribute names are distinct. |
| Models.CommonNameProperty | openvpn_status/models.py:16-34 | The only property bound to `common_name` is the raw-text `Common Name` column. |
| Models.SchemaLabelsUntagged | openvpn_status/models.py:9-34 | No schema label starts with a section tag, `CLIENT_LIST` or `ROUTING_TABLE`. |
| Models.LabelIndex | openvpn_status/parser.py:121-123 | `{descriptor.label: name …}`: every entry bears its own label. |
| Models.LabelIndexEntries | openvpn_status/parser.py:121-123 | The keys are exactly the labels of the properties read so far, and each maps to one of them. |
| Models.LabelIndexLastWins | openvpn_status/parser.py:121-123 | A label's entry is the last property that bears it. |
| Models.LabelToProperty | openvpn_status/parser.py:121-123 | `label_to_name`: every entry bears its own label. |
| Models.CommonName | openvpn_status/parser.py:108 | `text_type(c.common_name)`: a name other than "None" is the raw text stored under `common_name`. |
| Models.LabelToPropertyContents | openvpn_status/parser.py:121-123 | `label_to_name` for a schema maps each property's label to that property, and holds nothing else. |
| Cursor.LogLines | openvpn_status/parser.py:35-42 | `fromstring` gives at least one line. No line holds a newline, and joining the lines with newlines gives the stripped content. |
| Cursor.FirstNonBlank | openvpn_status/parser.py:29-33 | The first line at or after a position that is not blank once stripped. All lines before it are blank. |
| Cursor.Advance | openvpn_status/parser.py:25-33 | After a rollback, `__next__` returns `_last_line` (or `None` if nothing has been read) and clears the flag. Otherwise a line it returns is non-empty and becomes `_last_line`. At the end of the input it changes nothing but the position. |
| Cursor.AdvanceSkipsBlank | openvpn_status/parser.py:29-33 | Without a rollback, a read passes over blank lines only. It returns the first non-blank line, stripped, or reports end of input when only blank lines are left. |
| Cursor.Rollback | openvpn_status/parser.py:44-45 | `rollback()` raises the flag and changes nothing else. |
| Cursor.RollbackPushesBack | openvpn_status/parser.py:44-45 | After a read, `rollback()` puts the line just read back in front of the pending lines; the next read returns it and restores the state. |
| Cursor.RemainingFrom | openvpn_status/parser.py:29-33 | Skipping to the first non-blank line drops only blank lines. |
| Cursor.RemainingBlank | openvpn_status/parser.py:29-33 | With no non-blank line left, no line remains to be returned. |
| Cursor.AdvancePops | openvpn_status/parser.py:25-33 | Each read takes the head of the pending lines. It reports end of input exactly when none are left, and never returns `None` from a reachable state. |
| Expect.FirstMatch | openvpn_status/parser.py:48-54 | The index of the first line starting with the prefix. No earlier line starts with it. |
| Expect.Header | openvpn_status/parser.py:47-58 | On success, the last line read starts with `HEADER,<header>`. The labels are every field after `HEADER`, and there are at least two. A reachable state never yields `AttributeError`. |
| Expect.HeaderLabelsTagged | openvpn_status/parser.py:54-55 | For a comma-free header, the first label of an accepted header line starts with the header itself. |
| Expect.HeaderFindsFirstMatch | openvpn_status/parser.py:47-58 | `expect_header` consumes the pending lines up to the first one with the prefix. It refuses that line exactly when it has a single label. |
| Expect.HeaderMissing | openvpn_status/parser.py:51-52 | With no matching line, `expect_header` reads to the end and raises "end of input". |
| Expect.ExactLine | openvpn_status/parser.py:60-66 | `expect_line(content)` performs one read and succeeds exactly when it returns `content`. Every failure is a `ParsingError`, including a `None` read. |
| Expect.ExactLineTakesNextLine | openvpn_status/parser.py:60-66 | `expect_line` takes exactly the next pending line and succeeds exactly when it is `content`; with no line left it raises "end of input". |
| Expect.List | openvpn_status/parser.py:68-76 | On success there are at least two fields, and they join back to the line read. A refused line has no comma. |
| Expect.ListTakesNextLine | openvpn_status/parser.py:68-76 | `expect_list` takes exactly the next pending line. It returns its fields when the line has a comma, raises otherwise, and raises "end of input" when none is left. |
| Expect.Tuple | openvpn_status/parser.py:78-88 | `expect_tuple` performs one read. On success, the line read was `name,value`, and the value has no comma. From a reachable state every failure is a `ParsingError`. |
| Expect.TupleTakesNextLine | openvpn_status/parser.py:78-88 | `expect_tuple` takes exactly the next pending line. It succeeds exactly when that line has exactly two fields and the first is `name`, and then returns the second field. With no line left it raises "end of input". |
| Engine.Plan | openvpn_status/parser.py:125-128 | `index_to_name` holds exactly the columns whose label the table knows. Each maps to the property with that label. |
| Engine.SectionTagIgnored | openvpn_status/parser.py:126-128 | A label starting with a section tag is no key of either schema's label table. |
| Engine.HeaderLineTagNotPlanned | openvpn_status/parser.py:54-55 | A line starting with `HEADER,CLIENT_LIST` or `HEADER,ROUTING_TABLE` has labels whose column 0 is left out of `index_to_name`. |
| Engine.HeaderTagNotPlanned | openvpn_status/parser.py:54-55 | For the labels `expect_header` accepts for either section, column 0 (the section tag) is left out of `index_to_name`, so it is never assigned. |
| Engine.Assign | openvpn_status/parser.py:145-146 | A property without a converter stores the raw text. One with a converter stores the converter's value when it succeeds, and fails with the converter's message when it does not. |
| Engine.DecodePrefix | openvpn_status/parser.py:145-146 | The `setattr` loop over the first columns fails only with a converter failure. |
| Engine.Decode | openvpn_status/parser.py:144-146 | `instance = cls()` and its `setattr` loop give a record of the class, or a converter failure. |
| Engine.DecodeFailsAtFirstRejected | openvpn_status/parser.py:144-146 | A row decodes exactly when every planned column is accepted. Otherwise the error is the first rejected column's. |
| Engine.DecodeAssigns | openvpn_status/parser.py:144-146 | Only planned columns set attributes, and an attribute holds the value of the last planned column bound to it. |
| Engine.DecodedCommonName | openvpn_status/parser.py:107-109 | A decoded row's common name is the text of its last `Common Name` column. |
| Engine.DecodedNoCommonName | openvpn_status/parser.py:107-109 | A row decoded under a header without a `Common Name` column has the common name "None". |
| Engine.DecodePrefixStuck | openvpn_status/parser.py:144-146 | Once a column is rejected, the rest of the row leaves the error unchanged. |
| Engine.DecodeAllSingle | openvpn_status/parser.py:144-148 | A single row yields its one record, or its error. |
| Engine.DecodeAll | openvpn_status/parser.py:130-148 | Decoding rows in order yields one record per row on success. A failure is always a converter failure. |
| Engine.DecodeAllOk | openvpn_status/parser.py:130-148 | On success, each record is its own row's decoding, in row order. |
| Engine.DecodeAllErr | openvpn_status/parser.py:130-148 | On failure, the error is that of the first row that fails. Every row before it decodes. |
| Engine.RowCount | openvpn_status/parser.py:130-142 | The longest run of leading lines that have a comma and as many fields as the header. |
| Engine.Rows | openvpn_status/parser.py:130-148 | The row loop keeps the state valid and never raises `AttributeError` once a line has been read. On success it ends with a rollback pending. |
| Engine.RowsStop | openvpn_status/parser.py:136-142 | A non-row line, or the end of input, ends the loop with no records. The non-row line is pending again; at end of input the last line read is. |
| Engine.RowsStep | openvpn_status/parser.py:130-148 | A row is consumed and decoded, and the loop continues from the next line. |
| Engine.RowsDecodeLeadingRows | openvpn_status/parser.py:130-148 | The row loop's result is the decoding of exactly the leading rows of the pending lines. |
| Engine.RowsRollBack | openvpn_status/parser.py:136-142 | After the loop, the first non-row line is pending again. At end of input, the last line read is pending instead: the header line if there were no rows, otherwise the last row. |
| Engine.Prepend | openvpn_status/parser.py:144-148 | Putting records ahead of a loop result keeps its state and its success. |
| Engine.PrependTwice | openvpn_status/parser.py:144-148 | Records yielded one at a time accumulate in order. |
| Engine.Keyed | openvpn_status/parser.py:107-109 | The `(text_type(c.common_name), c)` pairs of the comprehension, one per record in row order; `Reference.KeyedNames` and `Reference.KeyedLastWins` give the table they build. |
| Engine.Section | openvpn_status/parser.py:106-109 | A section (a header, then its rows) keeps the state valid and never raises `AttributeError` from a reachable state. |
| Engine.ParseSections | openvpn_status/parser.py:104-117 | `_parse` never raises `AttributeError` from a reachable state. Both tables it builds have distinct keys. |
| Engine.Parse | openvpn_status/parser.py:90-102 | From a reachable state, every error `parse()` raises is a `ParsingError`. |
| Engine.ParseLog | openvpn_status/parser.py:35-42 | `LogParser.fromstring(content).parse()` raises only `ParsingError`. |
| Reference.SpecRows | openvpn_status/parser.py:130-148 | The reference row reading: a failure is a converter failure, and success leaves at least one line for the next read. |
| Reference.SpecSection | openvpn_status/parser.py:104-114 | The reference section reading: it fails with a `ParsingError` or a converter failure, and success leaves a line for the next read. |
| Reference.SpecParse | openvpn_status/parser.py:90-117 | The reference parse fails only with `ParsingError`, and both tables have distinct keys. |
| Reference.RowsMatchSpecRows | openvpn_status/parser.py:130-148 | The cursor-level row loop agrees with the reference rows: the same records, and the same lines left. |
| Reference.RowsMatchReference | openvpn_status/parser.py:104-114 | After an accepted header, the cursor-level section equals the reference section. |
| Reference.SectionMatchesReference | openvpn_status/parser.py:104-114 | From any reachable state, a section read through the cursor equals the reference section of the pending lines. |
| Reference.ParseMatchesReference | openvpn_status/parser.py:90-117 | From any reachable state, `parse()` equals the reference parse of the pending lines. |
| Reference.ParseLogMatchesReference | openvpn_status/parser.py:35-42 | `fromstring(content).parse()` equals the reference parse of the stripped, non-blank lines of the content. |
| Reference.KeyedNames | openvpn_status/parser.py:107-109 | A section table's keys are exactly the common names (`text_type`) of its records. |
| Reference.KeyedLastWins | openvpn_status/parser.py:107-109 | Under each common name, the table holds the last record that carries it. |
| Reference.SpecSectionRestFromInput | openvpn_status/parser.py:136-142 | Every line a section leaves for the next read is a line of its input. |
| Reference.SpecParseRoutingHeaderMissing | openvpn_status/parser.py:111 | With no `HEADER,ROUTING_TABLE` line among the lines left after the client section (a rolled-back last line included), `parse()` raises "expected 'ROUTING_TABLE' but got end of input". |
| Reference.SpecParseNeedsBothHeaders | openvpn_status/parser.py:106-111 | A log parses only if some line starts with `HEADER,CLIENT_LIST` and some line starts with `HEADER,ROUTING_TABLE`. |
| Scenarios.HeaderWithOnlyTagRefused | openvpn_status/parser.py:55-57 | A header line carrying only the section tag is refused with "expected list of label". |
| Scenarios.LastLineReadTwice | openvpn_status/parser.py:25-28 | Suppose a routing header comes last and has as many fields as the client header has labels, one fewer than the client header line. It is first decoded as a client row. Then the rollback at end of input hands it out again, and it is accepted as the routing header. |
| Parser.LogParser.constructor | openvpn_status/parser.py:20-23 | A new parser starts at the first line, with no last line and no rollback. |
| Parser.LogParser.FromString | openvpn_status/parser.py:35-42 | `fromstring` builds a parser over the stripped content split on newlines. |
| Parser.LogParser.Next | openvpn_status/parser.py:25-33 | The `__next__` loop returns, and leaves the fields in, what `Cursor.Advance` gives for the old state. |
| Parser.LogParser.Rollback | openvpn_status/parser.py:44-45 | `rollback()` keeps the object valid and leaves it in `Cursor.Rollback` of the old state: only the flag changes. |
| Parser.LogParser.ExpectHeader | openvpn_status/parser.py:47-58 | The `expect_header` loop computes `Expect.Header` of the old state. |
| Parser.LogParser.ExpectLine | openvpn_status/parser.py:60-66 | `expect_line` computes `Expect.ExactLine` of the old state. |
| Parser.LogParser.ExpectList | openvpn_status/parser.py:68-76 | `expect_list` computes `Expect.List` of the old state. |
| Parser.LogParser.ExpectTuple | openvpn_status/parser.py:78-88 | `expect_tuple` computes `Expect.Tuple` of the old state. |
| Parser.LogParser.BuildPlan | openvpn_status/parser.py:125-128 | The `index_to_name` loop builds `Engine.Plan`. |
| Parser.LogParser.DecodeRow | openvpn_status/parser.py:144-146 | The `setattr` loop builds the record `Engine.Decode` gives, or stops at the first rejected value. |
| Parser.LogParser.ParseFields | openvpn_status/parser.py:119-148 | `_parse_fields` computes `Engine.Fields` of the old state: the row loop under the header width, with the plan built from the schema's label table. |
| Parser.LogParser.ReadRows | openvpn_status/parser.py:130-148 | The `while True` loop collects, in order, what `Engine.Rows` gives for the old state. |
| Parser.LogParser.NextRow | openvpn_status/parser.py:130-148 | One turn of the loop. It ends the loop with a rollback, or fails, or yields the decoding of the list just read, leaving the state `expect_list` leaves; that record comes ahead of the rest of `Engine.Rows`, and fewer reads are left. |
| Parser.LogParser.Tabulate | openvpn_status/parser.py:107-109 | The `update` of an empty `OrderedDict` from the records builds the table keyed by common name. |
| Parser.LogParser.ParseSections | openvpn_status/parser.py:104-117 | `_parse` computes `Engine.ParseSections` of the old state. |
| Parser.LogParser.Parse | openvpn_status/parser.py:90-102 | `parse()` computes `Engine.Parse` of the old state. |

## Left out

- The converters `parse_peer`, `parse_filesize`, `parse_time` and `parse_vaddr` (`utils.py`) are not part of this model.
  - Every operation takes them as a parameter `convert`, which returns a value or a failure message.
  - `Models.Converter` names which converter a property uses.
- `descriptors.py` is not part of this model. Its effects are written out directly:
  - `LabelProperty.__set__` is `Engine.Assign`.
  - A converter failure is `Error.AssignmentValueError`.
  - An attribute that was never assigned reads as `None`, so its common name is the text "None" (`Models.CommonName`).
- Error messages are kept as `Reason` values, one alternative per raise site. The `%r` rendering of the message text is not modelled.
- The `except ParsingError as line_error` branch of `_parse_fields` (lines 139-140) is not modelled. `rollback()` cannot raise, so the branch never runs.
- `_parse_fields` is a generator, consumed at once by the dict comprehension in `_parse`. The model returns the list of records it yields. Laziness makes no observable difference here, because every exception ends `parse()`.
- `Status`, `Client` and `Routing` instances are modelled as values: `Models.Record` holds the assigned attributes. Object identity and aliasing are not modelled.
- The `END` terminator check is commented out in the source, so `expect_line` is modelled but `parse()` does not call it.

What the code does on four points a reader might expect otherwise, as modelled:

- A header needs only two labels after the leading `HEADER` field, the first being the section tag. Only a header with exactly one label is refused.
- A header is matched by prefix, so `HEADER,CLIENT_LISTING,…` opens the client list.
- End of input inside a section ends the section normally.
- The message rewrap escapes only non-ASCII characters.
