/**
 The CSV text of the export buttons (legacy/web/api.ts) and a reader that follows
 section 2 of RFC 4180, taking any character but comma, quote, CR and LF as text.
 */
module Csv {
  import opened Wrappers

  // ---- Printing

  /** The characters `\s` and `\uFEFF` match. */
  predicate IsSpace(c: char) {
    || '\t' <= c <= '\r' || c == ' ' || c == '\U{00A0}' || c == '\U{1680}'
    || '\U{2000}' <= c <= '\U{200A}' || c == '\U{2028}' || c == '\U{2029}'
    || c == '\U{202F}' || c == '\U{205F}' || c == '\U{3000}' || c == '\U{FEFF}'
  }

  /** The text starts, after any white space, with a character that makes a spreadsheet compute. */
  predicate StartsFormula(s: string) {
    s != "" && (s[0] in "=+@-" || (IsSpace(s[0]) && StartsFormula(s[1..])))
  }

  predicate NeedsGuard(s: string) {
    StartsFormula(s) || (s != "" && s[0] in "\t\r\n")
  }

  function Guarded(s: string): string {
    if NeedsGuard(s) then "'" + s else s
  }

  /** `replaceAll('"', '""')`. */
  function Doubled(s: string): string {
    if s == "" then ""
    else (if s[0] == '"' then "\"\"" else [s[0]]) + Doubled(s[1..])
  }

  function CsvCell(s: string): string {
    "\"" + Doubled(Guarded(s)) + "\""
  }

  function Join(parts: seq<string>, separator: string): string {
    if parts == [] then ""
    else if |parts| == 1 then parts[0]
    else parts[0] + separator + Join(parts[1..], separator)
  }

  function Cells(row: seq<string>): seq<string> {
    seq(|row|, i requires 0 <= i < |row| => CsvCell(row[i]))
  }

  function Lines(rows: seq<seq<string>>): seq<string> {
    seq(|rows|, i requires 0 <= i < |rows| => Join(Cells(rows[i]), ","))
  }

  function CsvText(headers: seq<string>, rows: seq<seq<string>>): string {
    Join(Lines([headers] + rows), "\r\n")
  }

  // ---- Reading: each reader returns what it read and the text left over

  /** Inside quotes: a doubled quote is a quote, a single one ends the field. */
  function ReadQuoted(s: string): (r: Option<(string, string)>)
    ensures r.Some? ==> |r.value.1| < |s|
  {
    if s == "" then None
    else if s[0] != '"' then
      match ReadQuoted(s[1..])
      case None => None
      case Some((field, rest)) => Some(([s[0]] + field, rest))
    else if |s| > 1 && s[1] == '"' then
      match ReadQuoted(s[2..])
      case None => None
      case Some((field, rest)) => Some(("\"" + field, rest))
    else Some(("", s[1..]))
  }

  function ReadBare(s: string): (r: (string, string))
    ensures |r.1| <= |s|
  {
    if s == "" || s[0] in ",\"\r\n" then ("", s)
    else
      var (field, rest) := ReadBare(s[1..]);
      ([s[0]] + field, rest)
  }

  function ReadField(s: string): (r: Option<(string, string)>)
    ensures r.Some? ==> |r.value.1| <= |s|
  {
    if s != "" && s[0] == '"' then ReadQuoted(s[1..]) else Some(ReadBare(s))
  }

  function ReadRecord(s: string): (r: Option<(seq<string>, string)>)
    ensures r.Some? ==> |r.value.1| <= |s|
    decreases |s|
  {
    match ReadField(s)
    case None => None
    case Some((field, rest)) =>
      if rest == "" || rest[0] != ',' then Some(([field], rest))
      else
        match ReadRecord(rest[1..])
        case None => None
        case Some((fields, more)) => Some(([field] + fields, more))
  }

  /** Records separated by CRLF, the last of which may or may not be ended by one. */
  function ReadFile(s: string): Option<seq<seq<string>>>
    decreases |s|
  {
    match ReadRecord(s)
    case None => None
    case Some((record, rest)) =>
      if rest == "" || rest == "\r\n" then Some([record])
      else if |rest| > 2 && rest[..2] == "\r\n" then
        match ReadFile(rest[2..])
        case None => None
        case Some(records) => Some([record] + records)
      else None
  }

  /** The reader also takes fields without quotes, up to a comma or a line break. */
  lemma {:induction false} ReadBareText(t: string, rest: string)
    requires forall i :: 0 <= i < |t| ==> t[i] != ',' && t[i] != '"' && t[i] != '\r' && t[i] != '\n'
    requires rest == "" || rest[0] == ',' || rest[0] == '\r' || rest[0] == '\n'
    ensures ReadField(t + rest) == Some((t, rest))
  {
    if t == "" {
      assert t + rest == rest;
    } else {
      ReadBareText(t[1..], rest);
      assert (t + rest)[1..] == t[1..] + rest;
      assert t[0] !in ",\"\r\n" && (t + rest)[0] == t[0];
      assert ReadBare(t[1..] + rest) == (t[1..], rest);
      assert [t[0]] + t[1..] == t;
    }
  }

  // ---- The guard

  /** The white space of ECMAScript: its white space and line terminators, by code point. */
  lemma SpaceExact(c: char)
    ensures IsSpace(c)
       <==> c as int in {0x09, 0x0A, 0x0B, 0x0C, 0x0D, 0x20, 0xA0, 0x1680, 0x2000, 0x2001, 0x2002, 0x2003, 0x2004, 0x2005,
                         0x2006, 0x2007, 0x2008, 0x2009, 0x200A, 0x2028, 0x2029, 0x202F, 0x205F, 0x3000, 0xFEFF}
  {
  }

  /** One of the four characters that start a formula stands at k, behind white space only. */
  ghost predicate FormulaAt(s: string, k: int) {
    && 0 <= k < |s| && (s[k] == '=' || s[k] == '+' || s[k] == '@' || s[k] == '-')
    && forall j :: 0 <= j < k ==> IsSpace(s[j])
  }

  ghost predicate ControlStart(s: string) {
    s != "" && (s[0] == '\t' || s[0] == '\r' || s[0] == '\n')
  }

  /**
   What the guard catches: a tab, CR or LF in front, or one of the four characters
   behind white space.  Such a cell is printed behind an apostrophe, any other as
   it is.
   */
  lemma GuardExact(s: string)
    ensures NeedsGuard(s) <==> ControlStart(s) || exists k :: FormulaAt(s, k)
    ensures Guarded(s) == (if ControlStart(s) || exists k :: FormulaAt(s, k) then "'" + s else s)
  {
    FormulaExact(s);
  }

  lemma {:induction false} FormulaExact(s: string)
    ensures StartsFormula(s) <==> exists k :: FormulaAt(s, k)
  {
    hide IsSpace;
    if s != "" {
      FormulaExact(s[1..]);
      if s[0] in "=+@-" {
        assert FormulaAt(s, 0);
      } else if IsSpace(s[0]) && StartsFormula(s[1..]) {
        var k :| FormulaAt(s[1..], k);
        assert FormulaAt(s, k + 1);
      }
      if k :| FormulaAt(s, k) {
        if k > 0 {
          assert FormulaAt(s[1..], k - 1);
        }
      }
    }
  }

  /** A guarded cell never starts a formula, so guarding again changes nothing. */
  lemma GuardIdempotent(s: string)
    ensures !NeedsGuard(Guarded(s)) && Guarded(Guarded(s)) == Guarded(s)
  {
  }

  /** Two cells print alike exactly when they are equal or one is the other behind the guard's apostrophe. */
  lemma GuardCollisions(a: string, b: string)
    ensures Guarded(a) == Guarded(b)
       <==> a == b || (NeedsGuard(a) && b == "'" + a) || (NeedsGuard(b) && a == "'" + b)
  {
    GuardIdempotent(a);
    GuardIdempotent(b);
    if NeedsGuard(a) && NeedsGuard(b) && Guarded(a) == Guarded(b) {
      assert a == Guarded(a)[1..] == Guarded(b)[1..] == b;
    }
  }

  // ---- Reading inverts printing

  lemma {:induction false} ReadDoubled(s: string, rest: string)
    requires rest == "" || rest[0] != '"'
    ensures ReadQuoted(Doubled(s) + "\"" + rest) == Some((s, rest))
  {
    var text := Doubled(s) + "\"" + rest;
    if s == "" {
      assert text == "\"" + rest && text[1..] == rest;
    } else {
      ReadDoubled(s[1..], rest);
      var tail := Doubled(s[1..]) + "\"" + rest;
      if s[0] == '"' {
        assert text == "\"\"" + tail && text[2..] == tail;
      } else {
        assert text == [s[0]] + tail && text[1..] == tail;
      }
      assert s == [s[0]] + s[1..];
    }
  }

  lemma ReadCell(s: string, rest: string)
    requires rest == "" || rest[0] != '"'
    ensures ReadField(CsvCell(s) + rest) == Some((Guarded(s), rest))
  {
    var body := Doubled(Guarded(s)) + "\"" + rest;
    assert CsvCell(s) + rest == "\"" + body && ("\"" + body)[1..] == body;
    ReadDoubled(Guarded(s), rest);
  }

  function GuardedRow(row: seq<string>): seq<string> {
    seq(|row|, i requires 0 <= i < |row| => Guarded(row[i]))
  }

  lemma {:induction false} ReadRow(row: seq<string>, rest: string)
    requires row != [] && (rest == "" || rest[0] == '\r')
    ensures ReadRecord(Join(Cells(row), ",") + rest) == Some((GuardedRow(row), rest))
  {
    hide CsvCell, Guarded, ReadField;
    var cells := Cells(row);
    if |row| == 1 {
      ReadCell(row[0], rest);
      assert GuardedRow(row) == [Guarded(row[0])];
    } else {
      var tail := Join(cells[1..], ",") + rest;
      assert Join(cells, ",") + rest == CsvCell(row[0]) + ("," + tail);
      ReadCell(row[0], "," + tail);
      assert ("," + tail)[1..] == tail;
      assert cells[1..] == Cells(row[1..]);
      ReadRow(row[1..], rest);
      assert GuardedRow(row) == [Guarded(row[0])] + GuardedRow(row[1..]);
    }
  }

  function GuardedRows(rows: seq<seq<string>>): seq<seq<string>> {
    seq(|rows|, i requires 0 <= i < |rows| => GuardedRow(rows[i]))
  }

  lemma {:induction false} ReadLines(rows: seq<seq<string>>)
    requires rows != [] && forall i :: 0 <= i < |rows| ==> rows[i] != []
    ensures ReadFile(Join(Lines(rows), "\r\n")) == Some(GuardedRows(rows))
    ensures Join(Lines(rows), "\r\n") != "" && Join(Lines(rows), "\r\n")[0] == '"'
  {
    hide Cells, GuardedRow, ReadRecord;
    var lines := Lines(rows);
    LineStart(rows[0]);
    if |rows| == 1 {
      ReadRow(rows[0], "");
      assert lines[0] + "" == lines[0];
      assert GuardedRows(rows) == [GuardedRow(rows[0])];
    } else {
      var tail := Join(lines[1..], "\r\n");
      assert Join(lines, "\r\n") == lines[0] + ("\r\n" + tail);
      assert lines[1..] == Lines(rows[1..]);
      ReadLines(rows[1..]);
      ReadRow(rows[0], "\r\n" + tail);
      assert ("\r\n" + tail)[2..] == tail && ("\r\n" + tail)[..2] == "\r\n";
      assert GuardedRows(rows) == [GuardedRow(rows[0])] + GuardedRows(rows[1..]);
    }
  }

  lemma LineStart(row: seq<string>)
    requires row != []
    ensures Join(Cells(row), ",") != "" && Join(Cells(row), ",")[0] == '"'
  {
    assert Cells(row)[0] == CsvCell(row[0]);
  }

  /**
   The export round trip: a reader of RFC 4180 gets exactly the guarded cells
   back, whatever commas, quotes and line breaks they hold.
   */
  lemma CsvRoundTrip(headers: seq<string>, rows: seq<seq<string>>)
    requires headers != [] && forall i :: 0 <= i < |rows| ==> rows[i] != []
    ensures ReadFile(CsvText(headers, rows)) == Some(GuardedRows([headers] + rows))
  {
    var table := [headers] + rows;
    ReadLines(table);
  }

  /** No cell that a reader gets from an export starts with a control character or, after white space, a formula. */
  lemma ExportsNoFormula(headers: seq<string>, rows: seq<seq<string>>, i: nat, j: nat, k: int)
    requires headers != [] && forall i :: 0 <= i < |rows| ==> rows[i] != []
    ensures var read := ReadFile(CsvText(headers, rows));
            read.Some? && (i < |read.value| && j < |read.value[i]|
                           ==> !ControlStart(read.value[i][j]) && !FormulaAt(read.value[i][j], k))
  {
    CsvRoundTrip(headers, rows);
    var table := [headers] + rows;
    if i < |table| && j < |table[i]| {
      GuardIdempotent(table[i][j]);
      GuardExact(Guarded(table[i][j]));
    }
  }

  /** Two tables export as the same text exactly when their guarded cells are the same. */
  lemma CsvTextInjective(headers: seq<string>, rows: seq<seq<string>>, headers': seq<string>, rows': seq<seq<string>>)
    requires headers != [] && forall i :: 0 <= i < |rows| ==> rows[i] != []
    requires headers' != [] && forall i :: 0 <= i < |rows'| ==> rows'[i] != []
    ensures CsvText(headers, rows) == CsvText(headers', rows')
       <==> GuardedRows([headers] + rows) == GuardedRows([headers'] + rows')
  {
    CsvRoundTrip(headers, rows);
    CsvRoundTrip(headers', rows');
    var t, t' := [headers] + rows, [headers'] + rows';
    if GuardedRows(t) == GuardedRows(t') {
      assert |GuardedRows(t)| == |GuardedRows(t')|;
      forall i | 0 <= i < |t|
        ensures Lines(t)[i] == Lines(t')[i]
      {
        assert GuardedRows(t)[i] == GuardedRows(t')[i];
        SameCells(t[i], t'[i]);
      }
      assert Lines(t) == Lines(t');
    }
  }

  lemma SameCells(a: seq<string>, b: seq<string>)
    requires GuardedRow(a) == GuardedRow(b)
    ensures Cells(a) == Cells(b)
  {
    assert |GuardedRow(a)| == |GuardedRow(b)|;
    forall i | 0 <= i < |a|
      ensures Cells(a)[i] == Cells(b)[i]
    {
      assert GuardedRow(a)[i] == GuardedRow(b)[i];
    }
  }
}
