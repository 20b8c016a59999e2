/** The CSV exporter of csvDownloader.ts (`convertToCSV`), its specification as
    functions on the record list, and a reference reader for the format it
    writes (quoted fields in the manner of section 2 of RFC 4180, records
    separated by a single line feed) that recovers exactly the exported
    fields. */
module Csv {
  import opened Courses

  /** The header names, `["course", "credit", "grade"]`. */
  const Headers: seq<string> := ["course", "credit", "grade"]

  /** The exported columns: `Columns[k]` reads the key named `Headers[k]`. */
  datatype Column = CourseColumn | CreditColumn | GradeColumn

  const Columns: seq<Column> := [CourseColumn, CreditColumn, GradeColumn]

  /** `parts.join(sep)`. */
  function Join(parts: seq<string>, sep: string): string
  {
    if |parts| == 0 then ""
    else if |parts| == 1 then parts[0]
    else parts[0] + sep + Join(parts[1..], sep)
  }

  /** `row.selected` is truthy. */
  predicate IsSelected(row: Course)
  {
    row.selected == Some(true)
  }

  /** The records that are exported: the selected ones, in input order. */
  function Selected(data: seq<Course>): (r: seq<Course>)
    ensures |r| <= |data|
  {
    if data == [] then []
    else (if IsSelected(data[0]) then [data[0]] else []) + Selected(data[1..])
  }

  /** Exactly the selected records are exported: an exported record is a
      selected input record, every selected input record is exported, and
      with none selected nothing is. */
  lemma {:induction false} SelectedMembers(data: seq<Course>)
    ensures forall c :: c in Selected(data) ==> c in data && IsSelected(c)
    ensures forall c :: c in data && IsSelected(c) ==> c in Selected(data)
    ensures (forall c :: c in data ==> !IsSelected(c)) <==> Selected(data) == []
  {
    if data != [] {
      SelectedMembers(data[1..]);
      assert data == [data[0]] + data[1..];
    }
  }

  /** `s.replace(/"/g, '""')`: every double quote doubled. */
  function Escape(s: string): string
  {
    if s == "" then ""
    else (if s[0] == '"' then "\"\"" else [s[0]]) + Escape(s[1..])
  }

  /** A field written between double quotes. */
  function Quote(s: string): string
  {
    "\"" + Escape(s) + "\""
  }

  /** One exported cell: `row[header] ?? ""`, escaped and quoted. */
  function QuoteField(v: Option<string>): (r: string)
    ensures v == None ==> r == "\"\""
  {
    match v
    case None => Quote("")
    case Some(s) => Quote(s)
  }

  /** `row[header]`, as text. Every column is a key of a course record, so the
      value is never missing here; `QuoteField` still models the `?? ""` arm. */
  function FieldValue(row: Course, col: Column): Option<string>
  {
    match col
    case CourseColumn => Some(row.course)
    case CreditColumn => Some(IntToString(row.credit))
    case GradeColumn => Some(GradeText(row.grade))
  }

  /** `headers.map(...)`: the quoted cell of each column, in column order. */
  function Cells(row: Course, cols: seq<Column>): (r: seq<string>)
    ensures |r| == |cols|
  {
    if cols == [] then [] else [QuoteField(FieldValue(row, cols[0]))] + Cells(row, cols[1..])
  }

  /** One data record: the quoted values of the columns, joined by ",". */
  function EncodeRow(row: Course): string
  {
    Join(Cells(row, Columns), ",")
  }

  function EncodeRows(rows: seq<Course>): (r: seq<string>)
    ensures |r| == |rows|
  {
    if rows == [] then [] else [EncodeRow(rows[0])] + EncodeRows(rows[1..])
  }

  /** The records the exporter collects: nothing for an empty list, otherwise
      the header followed by one record per selected course. */
  function CsvRecords(data: seq<Course>): seq<string>
  {
    if |data| == 0 then [] else [Join(Headers, ",")] + EncodeRows(Selected(data))
  }

  /** The exported text. */
  function CsvText(data: seq<Course>): string
  {
    Join(CsvRecords(data), "\n")
  }

  /** `convertToCSV`: collects the header and the selected rows by a loop over
      the input, then joins them with line feeds. */
  method ConvertToCsv(data: seq<Course>) returns (csv: string)
    ensures csv == CsvText(data)
  {
    if |data| == 0 {
      return "";
    }
    var header := Join(Headers, ",");
    var csvRows := [header];
    var i := 0;
    while i < |data|
      invariant 0 <= i <= |data|
      invariant csvRows == [header] + EncodeRows(Selected(data[..i]))
    {
      var row := data[i];
      ExportStep(data, i);
      if IsSelected(row) {
        csvRows := csvRows + [EncodeRow(row)];
      }
      i := i + 1;
    }
    assert data[..i] == data;
    csv := Join(csvRows, "\n");
  }

  // ---------------------------------------------------------------------
  // Reading the format back

  /** The characters after an opening quote: up to the closing quote, with a
      doubled quote standing for one. Returns the value and what follows the
      closing quote; `None` for an unterminated field. */
  function ParseQuotedBody(t: string): (r: Option<(string, string)>)
    ensures r.Some? ==> |r.value.1| < |t|
    decreases |t|
  {
    if t == "" then None
    else if t[0] == '"' then
      if |t| > 1 && t[1] == '"' then
        match ParseQuotedBody(t[2..])
        case None => None
        case Some((s, rest)) => Some(("\"" + s, rest))
      else Some(("", t[1..]))
    else
      match ParseQuotedBody(t[1..])
      case None => None
      case Some((s, rest)) => Some(([t[0]] + s, rest))
  }

  /** An unquoted field: everything up to the next "," or line feed. */
  function ParseUnquoted(t: string): (r: (string, string))
    ensures r.0 + r.1 == t
    decreases |t|
  {
    if t == "" || t[0] == ',' || t[0] == '\n' then ("", t)
    else
      var (f, rest) := ParseUnquoted(t[1..]);
      ([t[0]] + f, rest)
  }

  function ParseField(t: string): (r: Option<(string, string)>)
    ensures r.Some? ==> |r.value.1| <= |t|
  {
    if |t| > 0 && t[0] == '"' then ParseQuotedBody(t[1..]) else Some(ParseUnquoted(t))
  }

  /** One record: fields separated by ",", ended by a line feed (left in the
      remainder) or by the end of the text. */
  function ParseRecord(t: string): (r: Option<(seq<string>, string)>)
    ensures r.Some? ==> |r.value.1| <= |t|
    decreases |t|
  {
    match ParseField(t)
    case None => None
    case Some((f, rest)) =>
      if rest == "" || rest[0] == '\n' then Some(([f], rest))
      else if rest[0] == ',' then
        match ParseRecord(rest[1..])
        case None => None
        case Some((fs, rest')) => Some(([f] + fs, rest'))
      else None
  }

  /** Records separated by single line feeds, up to the end of the text. */
  function ParseRecords(t: string): Option<seq<seq<string>>>
    decreases |t|
  {
    match ParseRecord(t)
    case None => None
    case Some((fields, rest)) =>
      if rest == "" then Some([fields])
      else if rest[0] == '\n' then
        match ParseRecords(rest[1..])
        case None => None
        case Some(more) => Some([fields] + more)
      else None
  }

  function ParseCsv(t: string): Option<seq<seq<string>>>
  {
    if t == "" then Some([]) else ParseRecords(t)
  }

  /** The values of one exported record. */
  function RowFields(row: Course): seq<string>
  {
    [row.course, IntToString(row.credit), GradeText(row.grade)]
  }

  function RowsFields(rows: seq<Course>): (r: seq<seq<string>>)
    ensures |r| == |rows|
  {
    if rows == [] then [] else [RowFields(rows[0])] + RowsFields(rows[1..])
  }

  /** What an export holds, field by field. */
  function Table(data: seq<Course>): seq<seq<string>>
  {
    if |data| == 0 then [] else [Headers] + RowsFields(Selected(data))
  }

  /** Turns a record of the three exported columns back into a course; the
      `selected` key is not exported, so it comes back absent. */
  function DecodeCourse(fields: seq<string>): Option<Course>
  {
    if |fields| != 3 then None
    else match (ParseInt(fields[1]), GradeFromText(fields[2]))
      case (Some(credit), Some(grade)) => Some(Course(fields[0], credit, grade, None))
      case _ => None
  }

  // ---------------------------------------------------------------------
  // Lemmas

  lemma {:induction false} EncodeRowsConcat(a: seq<Course>, b: seq<Course>)
    ensures EncodeRows(a + b) == EncodeRows(a) + EncodeRows(b)
  {
    if a == [] {
      assert a + b == b;
    } else {
      assert (a + b)[0] == a[0];
      assert (a + b)[1..] == a[1..] + b;
      EncodeRowsConcat(a[1..], b);
    }
  }

  /** One turn of the export loop: row `i` adds its record exactly when it is
      selected. */
  lemma ExportStep(data: seq<Course>, i: nat)
    requires i < |data|
    ensures EncodeRows(Selected(data[..i + 1]))
         == EncodeRows(Selected(data[..i])) + (if IsSelected(data[i]) then [EncodeRow(data[i])] else [])
  {
    assert data[..i + 1] == data[..i] + [data[i]];
    SelectedConcat(data[..i], [data[i]]);
    assert [data[i]][1..] == [];
    assert Selected([data[i]]) == if IsSelected(data[i]) then [data[i]] else [];
    EncodeRowsConcat(Selected(data[..i]), Selected([data[i]]));
  }

  /** Filtering keeps the input order: it distributes over concatenation. */
  lemma {:induction false} SelectedConcat(a: seq<Course>, b: seq<Course>)
    ensures Selected(a + b) == Selected(a) + Selected(b)
  {
    if a == [] {
      assert a + b == b;
    } else {
      var head := if IsSelected(a[0]) then [a[0]] else [];
      assert (a + b)[0] == a[0];
      assert (a + b)[1..] == a[1..] + b;
      assert Selected(a + b) == head + Selected(a[1..] + b);
      SelectedConcat(a[1..], b);
      assert head + (Selected(a[1..]) + Selected(b)) == (head + Selected(a[1..])) + Selected(b);
    }
  }

  /** Escaping is a global replacement: it works character by character. */
  lemma {:induction false} EscapeConcat(a: string, b: string)
    ensures Escape(a + b) == Escape(a) + Escape(b)
  {
    if a == "" {
      assert a + b == b;
    } else {
      assert (a + b)[0] == a[0];
      assert (a + b)[1..] == a[1..] + b;
      EscapeConcat(a[1..], b);
    }
  }

  /** A value with no double quote is written unchanged between the quotes. */
  lemma {:induction false} EscapeWithoutQuotes(s: string)
    requires forall k :: 0 <= k < |s| ==> s[k] != '"'
    ensures Escape(s) == s
  {
    if s != "" {
      EscapeWithoutQuotes(s[1..]);
    }
  }

  /** Reading an escaped value up to its closing quote gives the value back. */
  lemma {:induction false} EscapeRoundTrip(s: string, rest: string)
    requires rest == "" || rest[0] != '"'
    ensures ParseQuotedBody(Escape(s) + "\"" + rest) == Some((s, rest))
  {
    var t := Escape(s) + "\"" + rest;
    if s == "" {
      assert t == "\"" + rest;
      assert t[1..] == rest;
    } else {
      var tail := Escape(s[1..]) + "\"" + rest;
      EscapeRoundTrip(s[1..], rest);
      if s[0] == '"' {
        assert t == "\"\"" + tail;
        assert t[2..] == tail;
        assert "\"" + s[1..] == s;
      } else {
        assert t == [s[0]] + tail;
        assert t[1..] == tail;
        assert [s[0]] + s[1..] == s;
      }
    }
  }

  lemma QuotedFieldRoundTrip(s: string, rest: string)
    requires rest == "" || rest[0] != '"'
    ensures ParseField(Quote(s) + rest) == Some((s, rest))
  {
    var t := Quote(s) + rest;
    assert t[1..] == Escape(s) + "\"" + rest;
    EscapeRoundTrip(s, rest);
  }

  lemma {:induction false} UnquotedRoundTrip(w: string, rest: string)
    requires forall k :: 0 <= k < |w| ==> w[k] != ',' && w[k] != '\n'
    requires rest == "" || rest[0] == ',' || rest[0] == '\n'
    ensures ParseUnquoted(w + rest) == (w, rest)
  {
    if w == "" {
      assert w + rest == rest;
    } else {
      assert (w + rest)[1..] == w[1..] + rest;
      UnquotedRoundTrip(w[1..], rest);
      assert [w[0]] + w[1..] == w;
    }
  }

  /** The header line is the three column names, unquoted. */
  lemma HeaderLineText()
    ensures Join(Headers, ",") == "course" + ("," + ("credit" + ("," + "grade")))
    ensures Join(Headers, ",") == "course,credit,grade"
  {
    assert Headers[1..] == ["credit", "grade"];
    assert Headers[1..][1..] == ["grade"];
  }

  /** Each data record is exactly three quoted fields, course, credit and grade. */
  lemma EncodeRowText(row: Course)
    ensures EncodeRow(row) == Quote(row.course) + ("," + (Quote(IntToString(row.credit)) + ("," + Quote(GradeText(row.grade)))))
  {
    var cells := Cells(row, Columns);
    assert Columns[1..] == [CreditColumn, GradeColumn];
    assert Columns[1..][1..] == [GradeColumn];
    assert Columns[1..][1..][1..] == [];
    assert Cells(row, [GradeColumn]) == [Quote(GradeText(row.grade))];
    assert Cells(row, [CreditColumn, GradeColumn]) == [Quote(IntToString(row.credit)), Quote(GradeText(row.grade))];
    assert cells == [Quote(row.course), Quote(IntToString(row.credit)), Quote(GradeText(row.grade))];
    var q1, q2, q3 := Quote(row.course), Quote(IntToString(row.credit)), Quote(GradeText(row.grade));
    assert cells[1..] == [q2, q3];
    assert cells[1..][1..] == [q3];
    assert Join([q3], ",") == q3;
    assert Join([q2, q3], ",") == q2 + "," + q3;
    assert Join(cells, ",") == q1 + ("," + (q2 + ("," + q3)));
  }

  /** A record whose first field is followed by "," goes on with the rest. */
  lemma RecordCons(t: string, f: string, u: string, fs: seq<string>, rest: string)
    requires ParseField(t) == Some((f, "," + u))
    requires ParseRecord(u) == Some((fs, rest))
    ensures ParseRecord(t) == Some(([f] + fs, rest))
  {
    assert ("," + u)[1..] == u;
  }

  /** A field followed by a line feed or the end of the text ends its record. */
  lemma RecordLast(t: string, f: string, rest: string)
    requires rest == "" || rest[0] == '\n'
    requires ParseField(t) == Some((f, rest))
    ensures ParseRecord(t) == Some(([f], rest))
  {
  }

  lemma BareFieldRoundTrip(w: string, rest: string)
    requires |w| > 0 && w[0] != '"'
    requires forall k :: 0 <= k < |w| ==> w[k] != ',' && w[k] != '\n'
    requires rest == "" || rest[0] == ',' || rest[0] == '\n'
    ensures ParseField(w + rest) == Some((w, rest))
  {
    UnquotedRoundTrip(w, rest);
  }

  /** Regrouping a record's text with what follows it. */
  lemma Regroup(a: string, b: string, c: string, d: string, e: string, rest: string)
    ensures (a + (b + (c + (d + e)))) + rest == a + (b + (c + (d + (e + rest))))
  {
  }

  /** Three quoted fields followed by a line end or the end of the text read
      back as a record of the three unquoted values. */
  lemma QuotedRecord(f1: string, f2: string, f3: string, rest: string)
    requires rest == "" || rest[0] == '\n'
    ensures ParseRecord(Quote(f1) + ("," + (Quote(f2) + ("," + (Quote(f3) + rest))))) == Some(([f1, f2, f3], rest))
  {
    var u := Quote(f3) + rest;
    var w := Quote(f2) + ("," + u);
    QuotedFieldRoundTrip(f3, rest);
    RecordLast(u, f3, rest);
    QuotedFieldRoundTrip(f2, "," + u);
    RecordCons(w, f2, u, [f3], rest);
    assert [f2] + [f3] == [f2, f3];
    QuotedFieldRoundTrip(f1, "," + w);
    RecordCons(Quote(f1) + ("," + w), f1, w, [f2, f3], rest);
    assert [f1] + [f2, f3] == [f1, f2, f3];
  }

  lemma HeaderRecordRoundTrip(rest: string)
    requires rest == "" || rest[0] == '\n'
    ensures ParseRecord(Join(Headers, ",") + rest) == Some((Headers, rest))
  {
    HeaderLineText();
    var u := "grade" + rest;
    var w := "credit" + ("," + u);
    BareFieldRoundTrip("grade", rest);
    RecordLast(u, "grade", rest);
    BareFieldRoundTrip("credit", "," + u);
    RecordCons(w, "credit", u, ["grade"], rest);
    assert ["credit"] + ["grade"] == ["credit", "grade"];
    BareFieldRoundTrip("course", "," + w);
    RecordCons("course" + ("," + w), "course", w, ["credit", "grade"], rest);
    assert ["course"] + ["credit", "grade"] == Headers;
    Regroup("course", ",", "credit", ",", "grade", rest);
  }

  lemma RowRecordRoundTrip(row: Course, rest: string)
    requires rest == "" || rest[0] == '\n'
    ensures ParseRecord(EncodeRow(row) + rest) == Some((RowFields(row), rest))
  {
    var f1, f2, f3 := row.course, IntToString(row.credit), GradeText(row.grade);
    EncodeRowText(row);
    QuotedRecord(f1, f2, f3, rest);
    Regroup(Quote(f1), ",", Quote(f2), ",", Quote(f3), rest);
  }

  lemma JoinCons(x: string, ys: seq<string>, sep: string)
    requires ys != []
    ensures Join([x] + ys, sep) == x + (sep + Join(ys, sep))
  {
    assert ([x] + ys)[1..] == ys;
  }

  lemma {:induction false} RowsRoundTrip(rows: seq<Course>)
    requires rows != []
    ensures ParseRecords(Join(EncodeRows(rows), "\n")) == Some(RowsFields(rows))
  {
    if |rows| == 1 {
      RowRecordRoundTrip(rows[0], "");
      assert EncodeRows(rows) == [EncodeRow(rows[0])];
      assert EncodeRow(rows[0]) + "" == EncodeRow(rows[0]);
      assert RowsFields(rows) == [RowFields(rows[0])];
    } else {
      var tail := Join(EncodeRows(rows[1..]), "\n");
      JoinCons(EncodeRow(rows[0]), EncodeRows(rows[1..]), "\n");
      RowRecordRoundTrip(rows[0], "\n" + tail);
      RowsRoundTrip(rows[1..]);
      RecordsCons(EncodeRow(rows[0]) + ("\n" + tail), RowFields(rows[0]), tail, RowsFields(rows[1..]));
    }
  }

  /** A record followed by a line feed is followed by further records. */
  lemma RecordsCons(t: string, fields: seq<string>, u: string, more: seq<seq<string>>)
    requires ParseRecord(t) == Some((fields, "\n" + u))
    requires ParseRecords(u) == Some(more)
    ensures ParseRecords(t) == Some([fields] + more)
  {
    assert ("\n" + u)[1..] == u;
  }

  /** Reading an export gives back the header and, per selected course in input
      order, its course code, credit and grade: the quoting and the line feeds
      never split or merge fields, whatever the course code holds. */
  lemma CsvRoundTrip(data: seq<Course>)
    ensures ParseCsv(CsvText(data)) == Some(Table(data))
  {
    if |data| > 0 {
      var header := Join(Headers, ",");
      var rows := Selected(data);
      HeaderLineText();
      if rows == [] {
        assert CsvRecords(data) == [header];
        HeaderRecordRoundTrip("");
        assert header + "" == header;
        assert Table(data) == [Headers];
      } else {
        var tail := Join(EncodeRows(rows), "\n");
        JoinCons(header, EncodeRows(rows), "\n");
        assert CsvText(data) == header + ("\n" + tail);
        HeaderRecordRoundTrip("\n" + tail);
        RowsRoundTrip(rows);
        RecordsCons(header + ("\n" + tail), Headers, tail, RowsFields(rows));
      }
    }
  }

  /** For a non-empty input the text starts with the header line; with no
      selected course it is the header line alone. */
  lemma HeaderFirst(data: seq<Course>)
    requires |data| > 0
    ensures "course,credit,grade" <= CsvText(data)
    ensures (forall c :: c in data ==> !IsSelected(c)) ==> CsvText(data) == "course,credit,grade"
  {
    HeaderLineText();
    SelectedMembers(data);
    var header := Join(Headers, ",");
    var rows := Selected(data);
    if rows == [] {
      assert CsvRecords(data) == [header];
    } else {
      JoinCons(header, EncodeRows(rows), "\n");
    }
  }

  /** An export has one record more than there are selected courses (the
      header), and it is empty exactly when the input is. */
  lemma CsvRecordCount(data: seq<Course>)
    ensures |Table(data)| == if |data| == 0 then 0 else 1 + |Selected(data)|
    ensures CsvText(data) == "" <==> |data| == 0
  {
    if |data| > 0 {
      HeaderFirst(data);
    }
  }

  lemma {:induction false} JoinLast(parts: seq<string>, sep: string)
    requires |parts| > 0 && |parts[|parts| - 1]| > 0
    ensures |Join(parts, sep)| > 0
    ensures Join(parts, sep)[|Join(parts, sep)| - 1] == parts[|parts| - 1][|parts[|parts| - 1]| - 1]
  {
    if |parts| > 1 {
      JoinLast(parts[1..], sep);
    }
  }

  lemma {:induction false} EncodeRowsAt(rows: seq<Course>, k: nat)
    requires k < |rows|
    ensures EncodeRows(rows)[k] == EncodeRow(rows[k])
  {
    if k > 0 {
      EncodeRowsAt(rows[1..], k - 1);
    }
  }

  /** The records are joined without a trailing line feed. */
  lemma NoTrailingNewline(data: seq<Course>)
    ensures CsvText(data) == "" || CsvText(data)[|CsvText(data)| - 1] != '\n'
  {
    if |data| > 0 {
      HeaderLineText();
      var recs := CsvRecords(data);
      var rows := Selected(data);
      if rows != [] {
        EncodeRowText(rows[|rows| - 1]);
        EncodeRowsAt(rows, |rows| - 1);
        assert recs[|recs| - 1] == EncodeRows(rows)[|rows| - 1];
      }
      JoinLast(recs, "\n");
    }
  }

  lemma {:induction false} RowsFieldsAt(rows: seq<Course>, k: nat)
    requires k < |rows|
    ensures RowsFields(rows)[k] == RowFields(rows[k])
  {
    if k > 0 {
      RowsFieldsAt(rows[1..], k - 1);
    }
  }

  /** Re-reading an exported data record gives back the course it came from,
      with the `selected` key absent. */
  lemma ExportedRowReimports(data: seq<Course>, k: nat)
    requires k < |Selected(data)|
    ensures |Table(data)| > k + 1
    ensures DecodeCourse(Table(data)[k + 1]) == Some(Selected(data)[k].(selected := None))
  {
    var row := Selected(data)[k];
    RowsFieldsAt(Selected(data), k);
    IntToStringRoundTrip(row.credit);
    GradeTextRoundTrip(row.grade);
  }

}
