/**
 * The CSV body of an export, read back by the grammar of section 2 of RFC 4180.
 * Characters that the grammar does not name count as text.
 */
module CsvExport {
  import opened Basics

  datatype CellValue = Null | Number(text: string) | Text(text: string)

  const FIELDS: seq<string> := [
    "id", "memo", "status", "amount", "assetCode", "assetIssuer", "description",
    "createdAt", "expiresAt", "paidAt", "paymentTxHash"
  ]

  // ---------- Printing ----------

  /** Spreadsheets run a cell that starts with one of these as a formula. */
  predicate IsTrigger(c: char) {
    c == '=' || c == '+' || c == '-' || c == '@' || c == '\t' || c == '\r'
  }

  predicate StartsFormula(s: string) {
    s != "" && IsTrigger(s[0])
  }

  /** What a cell says: text that would start a formula is disarmed by an apostrophe. */
  function Neutral(v: CellValue): (r: string)
    ensures v.Text? && v.text != "" && v.text[0] in {'=', '+', '-', '@', '\t', '\r'} ==> r == "'" + v.text
    ensures v.Text? && !(v.text != "" && v.text[0] in {'=', '+', '-', '@', '\t', '\r'}) ==> r == v.text
    ensures v.Number? ==> r == v.text
    ensures v.Null? ==> r == ""
  {
    match v
    case Null => ""
    case Number(text) => text
    case Text(text) => if StartsFormula(text) then "'" + text else text
  }

  predicate IsSpecial(c: char) {
    c == '"' || c == ',' || c == '\r' || c == '\n'
  }

  predicate HasSpecial(s: string) {
    exists i :: 0 <= i < |s| && IsSpecial(s[i])
  }

  function DoubleQuotes(s: string): string {
    if s == "" then "" else (if s[0] == '"' then "\"\"" else [s[0]]) + DoubleQuotes(s[1..])
  }

  function Quoted(s: string): string {
    if HasSpecial(s) then "\"" + DoubleQuotes(s) + "\"" else s
  }

  function CsvCell(v: CellValue): string {
    Quoted(Neutral(v))
  }

  /** Array.prototype.join. */
  function Join(separator: string, parts: seq<string>): string {
    if parts == [] then ""
    else if |parts| == 1 then parts[0]
    else parts[0] + separator + Join(separator, parts[1..])
  }

  function Cells(row: seq<CellValue>): (r: seq<string>)
    ensures |r| == |row| && forall i :: 0 <= i < |r| ==> r[i] == CsvCell(row[i])
  {
    seq(|row|, i requires 0 <= i < |row| => CsvCell(row[i]))
  }

  function Rows(records: seq<seq<CellValue>>): (r: seq<string>)
    ensures |r| == |records| && forall i :: 0 <= i < |r| ==> r[i] == Join(",", Cells(records[i]))
  {
    seq(|records|, i requires 0 <= i < |records| => Join(",", Cells(records[i])))
  }

  function Render(header: seq<string>, records: seq<seq<CellValue>>): string {
    Join("\r\n", [Join(",", header)] + Rows(records)) + "\r\n"
  }

  function RenderCsv(records: seq<seq<CellValue>>): string {
    Render(FIELDS, records)
  }

  /** A cell is quoted only where it has to be. */
  lemma CellExactly(v: CellValue)
    ensures (forall c :: c in {'\"', ',', '\r', '\n'} ==> c !in Neutral(v)) ==> CsvCell(v) == Neutral(v)
    ensures (exists c :: c in {'\"', ',', '\r', '\n'} && c in Neutral(v)) ==> CsvCell(v) == ['\"'] + DoubleQuotes(Neutral(v)) + ['\"']
  {
    var s := Neutral(v);
    if HasSpecial(s) {
      var i :| 0 <= i < |s| && IsSpecial(s[i]);
      assert s[i] in s;
    }
    if c :| c in {'\"', ',', '\r', '\n'} && c in s {
      var i :| 0 <= i < |s| && s[i] == c;
      assert IsSpecial(s[i]);
    }
  }

  // ---------- Reading, by RFC 4180 ----------

  /** The rest of an escaped field, after its opening quote. */
  function ReadEscaped(s: string): Option<(string, string)> {
    if s == "" then None
    else if s[0] == '"' && (|s| == 1 || s[1] != '"') then Some(("", s[1..]))
    else
      var step := if s[0] == '"' then 2 else 1;
      var rest := ReadEscaped(s[step..]);
      if rest.None? then None else Some(([s[0]] + rest.value.0, rest.value.1))
  }

  /** An unescaped field ends before the first special character. */
  function ReadPlain(s: string): (r: (string, string))
    ensures |r.1| <= |s|
  {
    if s == "" || IsSpecial(s[0]) then ("", s)
    else
      var rest := ReadPlain(s[1..]);
      ([s[0]] + rest.0, rest.1)
  }

  lemma {:induction false} ReadEscapedShorter(s: string)
    ensures ReadEscaped(s).Some? ==> |ReadEscaped(s).value.1| < |s|
  {
    if s != "" && !(s[0] == '"' && (|s| == 1 || s[1] != '"')) {
      ReadEscapedShorter(s[if s[0] == '"' then 2 else 1..]);
    }
  }

  function ReadField(s: string): (r: Option<(string, string)>)
    ensures r.Some? ==> |r.value.1| <= |s|
  {
    if s != "" && s[0] == '"' then
      ReadEscapedShorter(s[1..]);
      ReadEscaped(s[1..])
    else Some(ReadPlain(s))
  }

  /** Fields separated by commas. */
  function ReadRecord(s: string): (r: Option<(seq<string>, string)>)
    ensures r.Some? ==> |r.value.1| <= |s|
    decreases |s|
  {
    var field := ReadField(s);
    if field.None? then None
    else if field.value.1 == "" || field.value.1[0] != ',' then Some(([field.value.0], field.value.1))
    else
      var rest := ReadRecord(field.value.1[1..]);
      if rest.None? then None else Some(([field.value.0] + rest.value.0, rest.value.1))
  }

  /** Records separated by line breaks; the last one may have a line break too. */
  function ReadFile(s: string): Option<seq<seq<string>>>
    decreases |s|
  {
    var record := ReadRecord(s);
    if record.None? then None
    else
      var rest := record.value.1;
      if rest == "" then Some([record.value.0])
      else if |rest| < 2 || rest[..2] != "\r\n" then None
      else if |rest| == 2 then Some([record.value.0])
      else
        var others := ReadFile(rest[2..]);
        if others.None? then None else Some([record.value.0] + others.value)
  }

  // ---------- Round trip ----------

  /** What may follow a field: nothing, a comma or a line break. */
  predicate Delimited(k: string) {
    k == "" || k[0] == ',' || k[0] == '\r'
  }

  lemma {:induction false} EscapedRoundTrip(s: string, k: string)
    requires Delimited(k)
    ensures ReadEscaped(DoubleQuotes(s) + "\"" + k) == Some((s, k))
  {
    var text := DoubleQuotes(s) + "\"" + k;
    if s == "" {
      assert text == "\"" + k && text[1..] == k;
    } else {
      EscapedRoundTrip(s[1..], k);
      var step := if s[0] == '"' then 2 else 1;
      assert text[step..] == DoubleQuotes(s[1..]) + "\"" + k;
      assert text[0] == s[0] && (step == 2 ==> text[1] == '"');
      assert s == [s[0]] + s[1..];
    }
  }

  lemma {:induction false} PlainRoundTrip(s: string, k: string)
    requires !HasSpecial(s) && Delimited(k)
    ensures ReadPlain(s + k) == (s, k)
  {
    if s == "" {
      assert s + k == k;
    } else {
      assert !IsSpecial(s[0]);
      assert forall i :: 0 <= i < |s[1..]| ==> s[1..][i] == s[i + 1];
      assert (s + k)[1..] == s[1..] + k && (s + k)[0] == s[0];
      PlainRoundTrip(s[1..], k);
      assert s == [s[0]] + s[1..];
    }
  }

  lemma SpecialRoundTrip(s: string, k: string)
    requires HasSpecial(s) && Delimited(k)
    ensures ReadField(Quoted(s) + k) == Some((s, k))
  {
    EscapedRoundTrip(s, k);
    var rest := DoubleQuotes(s) + "\"" + k;
    assert Quoted(s) + k == "\"" + rest;
    assert ("\"" + rest)[1..] == rest;
  }

  lemma FieldRoundTrip(s: string, k: string)
    requires Delimited(k)
    ensures ReadField(Quoted(s) + k) == Some((s, k))
  {
    if HasSpecial(s) {
      SpecialRoundTrip(s, k);
    } else {
      PlainRoundTrip(s, k);
      assert s != "" ==> !IsSpecial(s[0]) && (s + k)[0] == s[0];
    }
  }

  function QuotedAll(values: seq<string>): (r: seq<string>)
    ensures |r| == |values| && forall i :: 0 <= i < |r| ==> r[i] == Quoted(values[i])
  {
    seq(|values|, i requires 0 <= i < |values| => Quoted(values[i]))
  }

  lemma {:induction false} RecordRoundTrip(values: seq<string>, k: string)
    requires values != [] && (k == "" || k[0] == '\r')
    ensures ReadRecord(Join(",", QuotedAll(values)) + k) == Some((values, k))
  {
    var cells := QuotedAll(values);
    if |values| == 1 {
      assert values == [values[0]] && Join(",", cells) == Quoted(values[0]);
      FieldRoundTrip(values[0], k);
    } else {
      var tail := Join(",", QuotedAll(values[1..])) + k;
      assert cells[1..] == QuotedAll(values[1..]);
      assert Join(",", cells) + k == Quoted(values[0]) + ("," + tail);
      FieldRoundTrip(values[0], "," + tail);
      RecordRoundTrip(values[1..], k);
      assert ("," + tail)[1..] == tail;
      assert values == [values[0]] + values[1..];
    }
  }

  function Lines(rows: seq<seq<string>>): (r: seq<string>)
    ensures |r| == |rows| && forall i :: 0 <= i < |r| ==> r[i] == Join(",", QuotedAll(rows[i]))
  {
    seq(|rows|, i requires 0 <= i < |rows| => Join(",", QuotedAll(rows[i])))
  }

  lemma {:induction false} FileRoundTrip(rows: seq<seq<string>>)
    requires rows != [] && forall i :: 0 <= i < |rows| ==> rows[i] != []
    ensures ReadFile(Join("\r\n", Lines(rows)) + "\r\n") == Some(rows)
  {
    var first := Join(",", QuotedAll(rows[0]));
    if |rows| == 1 {
      assert rows == [rows[0]] && Join("\r\n", Lines(rows)) == first;
      LastLine(rows[0]);
    } else {
      var tail := Join("\r\n", Lines(rows[1..])) + "\r\n";
      assert Lines(rows)[1..] == Lines(rows[1..]);
      assert Join("\r\n", Lines(rows)) + "\r\n" == first + ("\r\n" + tail);
      FileRoundTrip(rows[1..]);
      LineBefore(rows[0], tail);
      assert rows == [rows[0]] + rows[1..];
    }
  }

  lemma LastLine(values: seq<string>)
    requires values != []
    ensures ReadFile(Join(",", QuotedAll(values)) + "\r\n") == Some([values])
  {
    RecordRoundTrip(values, "\r\n");
  }

  lemma LineBefore(values: seq<string>, tail: string)
    requires values != [] && tail != ""
    ensures ReadFile(Join(",", QuotedAll(values)) + ("\r\n" + tail)) ==
      if ReadFile(tail).None? then None else Some([values] + ReadFile(tail).value)
  {
    RecordRoundTrip(values, "\r\n" + tail);
    assert ("\r\n" + tail)[2..] == tail && ("\r\n" + tail)[..2] == "\r\n";
  }

  // ---------- The export ----------

  function Says(row: seq<CellValue>): (r: seq<string>)
    ensures |r| == |row| && forall i :: 0 <= i < |r| ==> r[i] == Neutral(row[i])
  {
    seq(|row|, i requires 0 <= i < |row| => Neutral(row[i]))
  }

  function SaysAll(records: seq<seq<CellValue>>): (r: seq<seq<string>>)
    ensures |r| == |records| && forall i :: 0 <= i < |r| ==> r[i] == Says(records[i])
  {
    seq(|records|, i requires 0 <= i < |records| => Says(records[i]))
  }

  lemma HeaderIsPlain()
    ensures QuotedAll(FIELDS) == FIELDS
  {
    forall i | 0 <= i < |FIELDS| ensures !HasSpecial(FIELDS[i]) {
      FieldNameIsPlain(i);
    }
  }

  lemma FieldNameIsPlain(i: nat)
    requires i < |FIELDS|
    ensures !HasSpecial(FIELDS[i])
  {
  }

  /**
   * Reading a rendered export gives the header and, for every record, one cell per export
   * field with its neutralised value, whatever quotes, commas or line breaks it holds.
   */
  lemma CsvRoundTrip(records: seq<seq<CellValue>>)
    requires forall r :: r in records ==> |r| == |FIELDS|
    ensures ReadFile(RenderCsv(records)) == Some([["id", "memo", "status", "amount", "assetCode", "assetIssuer", "description",
      "createdAt", "expiresAt", "paidAt", "paymentTxHash"]] + SaysAll(records))
  {
    HeaderIsPlain();
    assert |FIELDS| > 0;
    RenderRoundTrip(FIELDS, records);
  }

  lemma RowsAreLines(records: seq<seq<CellValue>>)
    ensures Rows(records) == Lines(SaysAll(records))
  {
    forall i | 0 <= i < |records| ensures Rows(records)[i] == Lines(SaysAll(records))[i] {
      assert Cells(records[i]) == QuotedAll(Says(records[i]));
    }
  }

  lemma HeadedLines(header: seq<string>, rows: seq<seq<string>>)
    ensures Lines([header] + rows) == [Join(",", QuotedAll(header))] + Lines(rows)
  {
  }

  lemma RenderRoundTrip(header: seq<string>, records: seq<seq<CellValue>>)
    requires header != [] && QuotedAll(header) == header
    requires forall r :: r in records ==> |r| == |header|
    ensures ReadFile(Render(header, records)) == Some([header] + SaysAll(records))
  {
    RowsAreLines(records);
    HeadedLines(header, SaysAll(records));
    forall i | 0 <= i < |records| ensures SaysAll(records)[i] != [] {
      assert records[i] in records;
    }
    FileRoundTrip([header] + SaysAll(records));
  }
}
