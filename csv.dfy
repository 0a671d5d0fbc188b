/** `convertToCsvBuffer` of src/common/csv.ts: the CSV text is built line by
    line and then handed to an external byte encoder (iconv-lite). The text
    is built with plain `join(",")`: no field is quoted or escaped, so a field
    holding a comma or a line break is not recoverable from the output. */
module Csv {
  import opened Wrappers
  import opened Errors

  datatype Eol = LF | CRLF
  datatype Encoding = Utf8 | ShiftJis | Cp932
  datatype Options = Options(eol: Option<Eol>, encoding: Option<Encoding>)

  /** A value of a record row, as `Array.prototype.join` sees it: `Text(s)`
      is a string value. Other values (numbers, booleans, objects, symbols)
      are not part of this model. */
  datatype Cell = Text(s: string) | Null | Undefined

  /** A row is either an array of fields or a record keyed by header names. */
  datatype Row = Fields(fields: seq<string>) | Record(entries: map<string, Cell>)

  datatype CsvObject = CsvObject(header: seq<string>, rows: seq<Row>)

  /** `iconv.encode(text, encoding)`: the bytes, or the error it throws. */
  type Encoder = (string, Encoding) -> Result<seq<bv8>, JsError>

  const ConvertMessage := "failed to convert to csv string"

  function EolText(eol: Eol): string {
    match eol
    case LF => "\n"
    case CRLF => "\r\n"
  }

  /** `options?.eol ?? "\n"` */
  function LineEnd(options: Option<Options>): (eol: string)
    ensures eol == "\n" || eol == "\r\n"
    ensures options.None? || options.value.eol.None? ==> eol == "\n"
    ensures options.Some? && options.value.eol == Some(CRLF) ==> eol == "\r\n"
    ensures options.Some? && options.value.eol == Some(LF) ==> eol == "\n"
  {
    if options.Some? && options.value.eol.Some? then EolText(options.value.eol.value) else "\n"
  }

  /** `options?.encoding ?? "utf8"` */
  function TextEncoding(options: Option<Options>): Encoding {
    if options.Some? && options.value.encoding.Some? then options.value.encoding.value else Utf8
  }

  /** `parts.join(sep)` */
  function Join(parts: seq<string>, sep: string): string {
    if |parts| == 0 then ""
    else if |parts| == 1 then parts[0]
    else parts[0] + sep + Join(parts[1..], sep)
  }

  /** `join` renders null and undefined as the empty string. */
  function CellText(c: Cell): string {
    match c
    case Text(s) => s
    case Null => ""
    case Undefined => ""
  }

  /** `row[h]` on a record of own keys: a missing key reads as undefined. */
  function Lookup(entries: map<string, Cell>, h: string): Cell {
    if h in entries then entries[h] else Undefined
  }

  /** The texts a row contributes, in order: an array row's own fields, or a
      record's values projected in header order. */
  function RowFields(header: seq<string>, row: Row): (fields: seq<string>)
    ensures row.Record? ==> |fields| == |header|
  {
    match row
    case Fields(fs) => fs
    case Record(entries) => seq(|header|, j requires 0 <= j < |header| => CellText(Lookup(entries, header[j])))
  }

  function RowLine(header: seq<string>, row: Row): string {
    Join(RowFields(header, row), ",")
  }

  /** The lines of the given rows, each ended by eol. */
  function RowsText(header: seq<string>, rows: seq<Row>, eol: string): string {
    if rows == [] then "" else RowLine(header, rows[0]) + eol + RowsText(header, rows[1..], eol)
  }

  /** The whole CSV text: the header line, then one line per row. */
  function CsvText(csv: CsvObject, eol: string): string {
    Join(csv.header, ",") + eol + RowsText(csv.header, csv.rows, eol)
  }

  /** convertToCsvBuffer: builds the text with a loop over the rows and
      encodes it; anything the encoder throws is rethrown as a CsvError
      with the original error as cause. */
  method ConvertToCsvBuffer(csv: CsvObject, options: Option<Options>, encode: Encoder)
    returns (r: Result<seq<bv8>, JsError>)
    ensures r == Rewrap(encode(CsvText(csv, LineEnd(options)), TextEncoding(options)), CsvError, ConvertMessage)
  {
    var eol := LineEnd(options);
    var encoding := TextEncoding(options);
    var result := Join(csv.header, ",") + eol;
    ghost var headLine := result;
    for i := 0 to |csv.rows|
      invariant result == headLine + RowsText(csv.header, csv.rows[..i], eol)
    {
      var row := csv.rows[i];
      var line;
      if row.Fields? {
        line := Join(row.fields, ",");
      } else {
        var projected := seq(|csv.header|, j requires 0 <= j < |csv.header| =>
          CellText(Lookup(row.entries, csv.header[j])));
        assert projected == RowFields(csv.header, row);
        line := Join(projected, ",");
      }
      assert csv.rows[..i + 1] == csv.rows[..i] + [row];
      AppendRow(csv.header, csv.rows[..i], row, eol);
      Associate(headLine, RowsText(csv.header, csv.rows[..i], eol), line, eol);
      result := result + line + eol;
    }
    assert csv.rows[..|csv.rows|] == csv.rows;
    r := Rewrap(encode(result, encoding), CsvError, ConvertMessage);
  }

  /** The text starts with the header joined by commas and one eol. */
  lemma StartsWithHeaderLine(csv: CsvObject, eol: string)
    ensures |Join(csv.header, ",") + eol| <= |CsvText(csv, eol)|
    ensures CsvText(csv, eol)[..|Join(csv.header, ",") + eol|] == Join(csv.header, ",") + eol
  {
  }

  /** With no rows the text is exactly the header line. */
  lemma NoRowsIsHeaderLine(header: seq<string>, eol: string)
    ensures CsvText(CsvObject(header, []), eol) == Join(header, ",") + eol
  {
  }

  /** The text always ends with eol: that of the last row, or of the header. */
  lemma EndsWithEol(csv: CsvObject, eol: string)
    ensures |eol| <= |CsvText(csv, eol)|
    ensures CsvText(csv, eol)[|CsvText(csv, eol)| - |eol|..] == eol
  {
    var t := CsvText(csv, eol);
    if csv.rows == [] {
      assert t == Join(csv.header, ",") + eol;
    } else {
      var n := |csv.rows|;
      var init, last := csv.rows[..n - 1], csv.rows[n - 1];
      assert csv.rows == init + [last];
      AppendRow(csv.header, init, last, eol);
      assert t == (Join(csv.header, ",") + eol + RowsText(csv.header, init, eol) + RowLine(csv.header, last)) + eol;
    }
  }

  /** Rows keep their order: the text of rows1 + rows2 is the text of rows1
      followed by that of rows2. */
  lemma {:induction false} RowsInOrder(header: seq<string>, rows1: seq<Row>, rows2: seq<Row>, eol: string)
    ensures RowsText(header, rows1 + rows2, eol) == RowsText(header, rows1, eol) + RowsText(header, rows2, eol)
    decreases |rows1|
  {
    if rows1 == [] {
      assert rows1 + rows2 == rows2;
    } else {
      var all := rows1 + rows2;
      assert all[0] == rows1[0] && all[1..] == rows1[1..] + rows2;
      RowsInOrder(header, rows1[1..], rows2, eol);
    }
  }

  lemma Associate(a: string, b: string, c: string, d: string)
    ensures a + b + c + d == a + (b + c + d)
  {
  }

  lemma AppendRow(header: seq<string>, rows: seq<Row>, row: Row, eol: string)
    ensures RowsText(header, rows + [row], eol) == RowsText(header, rows, eol) + RowLine(header, row) + eol
  {
    RowsInOrder(header, rows, [row], eol);
    assert [row][1..] == [];
  }

  /** A record row is projected in header order: it gives the same line as
      the array row holding its values in that order. */
  lemma RecordMatchesArray(header: seq<string>, entries: map<string, Cell>, fields: seq<string>)
    requires |fields| == |header|
    requires forall j :: 0 <= j < |header| ==> header[j] in entries && entries[header[j]] == Text(fields[j])
    ensures RowLine(header, Record(entries)) == RowLine(header, Fields(fields))
  {
    assert RowFields(header, Record(entries)) == fields;
  }

  /** Nothing is quoted: a field holding a comma gives the same line as two
      fields, so the output is not CSV in the sense of RFC 4180, section 2. */
  lemma NoQuoting(header: seq<string>)
    ensures RowLine(header, Fields(["a,b"])) == RowLine(header, Fields(["a", "b"]))
  {
  }

  lemma JoinThree(a: string, b: string, c: string)
    ensures Join([a, b, c], ",") == a + "," + b + "," + c
  {
    assert [a, b, c][1..] == [b, c];
    assert [b, c][1..] == [c];
    assert Join([b, c], ",") == b + "," + c;
    assert Join([a, b, c], ",") == a + "," + (b + "," + c);
  }

  lemma TwoRows(header: seq<string>, first: Row, second: Row, eol: string)
    ensures RowsText(header, [first, second], eol)
      == RowLine(header, first) + eol + (RowLine(header, second) + eol)
  {
    assert [first, second][1..] == [second];
    assert RowsText(header, [second], eol) == RowLine(header, second) + eol + "";
  }

  /** The first example of the library's tests, under the default eol. */
  lemma ArrayRowsExample()
    ensures CsvText(CsvObject(["Name", "Age", "Country"],
        [Fields(["Alice", "30", "USA"]), Fields(["Bob", "25", "Canada"])]), LineEnd(None))
      == "Name,Age,Country" + "\n" + ("Alice,30,USA" + "\n" + ("Bob,25,Canada" + "\n"))
  {
    var header := ["Name", "Age", "Country"];
    var alice, bob := Fields(["Alice", "30", "USA"]), Fields(["Bob", "25", "Canada"]);
    JoinExample("Name", "Age", "Country", "Name,Age,Country");
    JoinExample("Alice", "30", "USA", "Alice,30,USA");
    JoinExample("Bob", "25", "Canada", "Bob,25,Canada");
    TwoRows(header, alice, bob, "\n");
  }

  lemma JoinExample(a: string, b: string, c: string, joined: string)
    requires joined == a + "," + b + "," + c
    ensures Join([a, b, c], ",") == joined
  {
    JoinThree(a, b, c);
  }

  /** The record row of the library's tests gives the line of its array row. */
  lemma RecordRowExample()
    ensures RowLine(["Name", "Age", "Country"],
        Record(map["Name" := Text("Alice"), "Age" := Text("30"), "Country" := Text("USA")]))
      == RowLine(["Name", "Age", "Country"], Fields(["Alice", "30", "USA"]))
  {
  }

  /** The number of occurrences of c in s. */
  function Count(s: string, c: char): nat {
    if s == [] then 0 else (if s[0] == c then 1 else 0) + Count(s[1..], c)
  }

  lemma {:induction false} CountAppend(s: string, t: string, c: char)
    ensures Count(s + t, c) == Count(s, c) + Count(t, c)
    decreases |s|
  {
    if s != [] {
      CountAppend(s[1..], t, c);
      assert (s + t)[1..] == s[1..] + t;
    } else {
      assert s + t == t;
    }
  }

  /** Joining with "," adds no line feed. */
  lemma {:induction false} JoinHasNoLineFeed(parts: seq<string>)
    requires forall k :: 0 <= k < |parts| ==> Count(parts[k], '\n') == 0
    ensures Count(Join(parts, ","), '\n') == 0
    decreases |parts|
  {
    if |parts| > 1 {
      JoinHasNoLineFeed(parts[1..]);
      CountAppend(parts[0], ",", '\n');
      CountAppend(parts[0] + ",", Join(parts[1..], ","), '\n');
    }
  }

  predicate NoLineFeedIn(fields: seq<string>) {
    forall k :: 0 <= k < |fields| ==> Count(fields[k], '\n') == 0
  }

  /** One line per row: when no header name and no field holds a line feed,
      the text has exactly |rows| + 1 line feeds, whichever eol is used. */
  lemma {:induction false} OneLinePerRow(header: seq<string>, rows: seq<Row>, eol: Eol)
    requires NoLineFeedIn(header)
    requires forall i :: 0 <= i < |rows| ==> NoLineFeedIn(RowFields(header, rows[i]))
    ensures Count(CsvText(CsvObject(header, rows), EolText(eol)), '\n') == |rows| + 1
    decreases |rows|
  {
    var e := EolText(eol);
    assert Count(e, '\n') == 1 by {
      assert Count("\n", '\n') == 1 + Count("", '\n');
      assert "\r\n"[1..] == "\n";
    }
    JoinHasNoLineFeed(header);
    var head := Join(header, ",") + e;
    CountAppend(Join(header, ","), e, '\n');
    RowsLineFeeds(header, rows, e);
    CountAppend(head, RowsText(header, rows, e), '\n');
  }

  lemma {:induction false} RowsLineFeeds(header: seq<string>, rows: seq<Row>, e: string)
    requires Count(e, '\n') == 1
    requires forall i :: 0 <= i < |rows| ==> NoLineFeedIn(RowFields(header, rows[i]))
    ensures Count(RowsText(header, rows, e), '\n') == |rows|
    decreases |rows|
  {
    if rows != [] {
      RowsLineFeeds(header, rows[1..], e);
      JoinHasNoLineFeed(RowFields(header, rows[0]));
      CountAppend(RowLine(header, rows[0]), e, '\n');
      CountAppend(RowLine(header, rows[0]) + e, RowsText(header, rows[1..], e), '\n');
    }
  }
}
