/**
 * The parser's error taxonomy. `ParsingError` is the only exception `parse()`
 * lets escape on a malformed log; `AssignmentValueError` is what a field
 * converter raises inside the engine before `parse()` rewraps it; `NoneAttribute`
 * is the `AttributeError` Python raises when a line check receives `None`.
 */
module Errors {
  import opened Wrappers

  /** What a checker expected when the input ran out. */
  datatype Expectation =
    | Labelled(header: string)   // expect_header(header)
    | Content(content: string)   // expect_line(content)
    | AList                      // expect_list()
    | ATuple                     // expect_tuple(name)

  /** The reason carried by a `ParsingError`, one alternative per raise site. */
  datatype Reason =
    | EndOfInput(expected: Expectation)            // "expected ... but got end of input"
    | NoLabels(line: string)                       // "expected list of label but got %r"
    | Mismatch(content: string, got: Option<string>) // "expected %r but got %r"
    | NotAList(line: string)                       // "expected list but got %r"
    | NotATuple(line: string)                      // "expected 2-tuple but got %r"
    | WrongTupleName(name: string)                 // "expected 2-tuple starting with %r"
    | InvalidFormat(message: string)               // "expected valid format: %s"

  datatype Error =
    | ParsingError(reason: Reason)
    | AssignmentValueError(message: string)
    | NoneAttribute

  predicate IsAscii(s: string)
  {
    forall i :: 0 <= i < |s| ==> s[i] as int < 0x80
  }

  predicate IsHexDigit(c: char)
  {
    '0' <= c <= '9' || 'a' <= c <= 'f'
  }

  function Pow16(width: nat): (p: nat)
    ensures p >= 1
  {
    if width == 0 then 1 else 16 * Pow16(width - 1)
  }

  /** The `width` lowest hexadecimal digits of `n`, lower case, most significant first. */
  function Hex(n: nat, width: nat): (r: string)
    ensures |r| == width
    ensures forall i :: 0 <= i < |r| ==> IsHexDigit(r[i])
  {
    if width == 0 then []
    else Hex(n / 16, width - 1) + ["0123456789abcdef"[n % 16]]
  }

  function HexValue(d: char): nat
  {
    if '0' <= d <= '9' then d as int - '0' as int
    else if 'a' <= d <= 'f' then d as int - 'a' as int + 10
    else 0
  }

  /** The number a string of hexadecimal digits denotes. */
  function ReadHex(s: string): nat
  {
    if s == [] then 0 else 16 * ReadHex(s[..|s| - 1]) + HexValue(s[|s| - 1])
  }

  /** `Hex` loses nothing when the number fits in the width. */
  lemma {:induction false} ReadHexHex(n: nat, width: nat)
    requires n < Pow16(width)
    ensures ReadHex(Hex(n, width)) == n
  {
    if width > 0 {
      var h := Hex(n, width);
      assert h[..width - 1] == Hex(n / 16, width - 1);
      ReadHexHex(n / 16, width - 1);
    }
  }

  /**
   * Python's `backslashreplace` error handler for the ASCII codec applied to
   * one character: ASCII stays, anything else becomes `\xhh`, `\uhhhh` or
   * `\Uhhhhhhhh`.
   */
  function Escape(c: char): (r: string)
    ensures IsAscii(r)
    ensures c as int < 0x80 <==> r == [c]
  {
    var n := c as int;
    if n < 0x80 then [c]
    else if n < 0x100 then "\\x" + Hex(n, 2)
    else if n < 0x10000 then "\\u" + Hex(n, 4)
    else "\\U" + Hex(n, 8)
  }

  /** `s.encode('ascii', 'backslashreplace').decode('ascii')`. */
  function Sanitize(s: string): (r: string)
    ensures IsAscii(r)
    ensures |r| >= |s|
  {
    if s == [] then [] else Escape(s[0]) + Sanitize(s[1..])
  }

  /** An ASCII message passes through unchanged. */
  lemma {:induction false} SanitizeAscii(s: string)
    requires IsAscii(s)
    ensures Sanitize(s) == s
  {
    if s != [] {
      SanitizeAscii(s[1..]);
      assert [s[0]] + s[1..] == s;
    }
  }

  /**
   * The escape of a non-ASCII character is a backslash, the letter `x`, `u`
   * or `U` for two, four or eight digits, and lower-case hexadecimal digits
   * that name its code point.
   */
  lemma EscapeNamesCodePoint(c: char)
    requires c as int >= 0x80
    ensures var r := Escape(c);
      && |r| >= 4 && r[0] == '\\' && r[1] in "xuU"
      && (r[1] == 'x' <==> c as int < 0x100)
      && (r[1] == 'u' <==> 0x100 <= c as int < 0x10000)
      && |r| == 2 + (if r[1] == 'x' then 2 else if r[1] == 'u' then 4 else 8)
      && (forall i :: 2 <= i < |r| ==> IsHexDigit(r[i]))
      && ReadHex(r[2..]) == c as int
  {
    var n := c as int;
    var r := Escape(c);
    if n < 0x100 {
      assert r[2..] == Hex(n, 2);
      assert Pow16(2) == 0x100;
      ReadHexHex(n, 2);
    } else if n < 0x10000 {
      assert r[2..] == Hex(n, 4);
      assert Pow16(4) == 0x10000;
      ReadHexHex(n, 4);
    } else {
      assert r[2..] == Hex(n, 8);
      assert Pow16(8) == 0x1_0000_0000;
      ReadHexHex(n, 8);
    }
  }

  /**
   * What `parse()` does with an exception from the engine: an
   * `AssignmentValueError` becomes a `ParsingError` with a sanitised message,
   * anything else passes through.
   */
  function Rewrap(e: Error): (r: Error)
    ensures e.AssignmentValueError? ==>
      && r.ParsingError? && r.reason.InvalidFormat?
      && r.reason.message == Sanitize(e.message) && IsAscii(r.reason.message)
    ensures !e.AssignmentValueError? ==> r == e
  {
    match e
    case AssignmentValueError(m) => ParsingError(InvalidFormat(Sanitize(m)))
    case _ => e
  }
}
