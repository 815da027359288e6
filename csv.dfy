/** CSV export (`exportToCSV` in src/services/report.service.ts), and a
    reader for the same dialect (quoted fields with doubled quotes, as in
    section 2 of RFC 4180) that says what the export means. */
module CsvExport {
  import opened Optional
  import opened PettyCashTypes

  /** How the source turns dates and numbers into text:
      `toISOString().split('T')[0]` for the expense date, `toISOString()` for
      the two timestamps and JavaScript's number-to-string for the amount.
      The model leaves them uninterpreted. */
  datatype Formatter = Formatter(dateText: Time -> string, amountText: int -> string, instantText: Time -> string)

  /** One field as written: in quotes with inner quotes doubled, or bare. */
  datatype Cell = Quoted(text: string) | Bare(text: string)

  /** `s.replace(/"/g, '""')`. */
  function Escape(s: string): string
    decreases |s|
  {
    if s == [] then [] else (if s[0] == '"' then "\"\"" else [s[0]]) + Escape(s[1..])
  }

  function Render(c: Cell): string {
    match c
    case Quoted(t) => "\"" + Escape(t) + "\""
    case Bare(t) => t
  }

  function RenderCells(cells: seq<Cell>): (r: seq<string>)
    ensures |r| == |cells|
    ensures forall i :: 0 <= i < |cells| ==> r[i] == Render(cells[i])
    decreases |cells|
  {
    if cells == [] then [] else [Render(cells[0])] + RenderCells(cells[1..])
  }

  /** `parts.join(sep)`. */
  function Join(parts: seq<string>, sep: string): string
    decreases |parts|
  {
    if parts == [] then ""
    else if |parts| == 1 then parts[0]
    else parts[0] + sep + Join(parts[1..], sep)
  }

  /** One CSV line. */
  function Line(cells: seq<Cell>): string {
    Join(RenderCells(cells), ",")
  }

  function Lines(records: seq<seq<Cell>>): (r: seq<string>)
    ensures |r| == |records|
    ensures forall i :: 0 <= i < |records| ==> r[i] == Line(records[i])
    decreases |records|
  {
    if records == [] then [] else [Line(records[0])] + Lines(records[1..])
  }

  /** The status's name; no two statuses share one, and none needs quoting. */
  function StatusText(s: Status): (r: string)
    ensures Plain(r) && r != ""
  {
    match s
    case Pending => "pending"
    case Approved => "approved"
    case Rejected => "rejected"
    case Completed => "completed"
  }

  /** The eleven column names, in order. */
  const HeaderNames: seq<string> := [
    "ID", "Date", "Amount", "Description", "Category", "Requester", "Department", "Status",
    "Notes", "Created At", "Updated At"]

  /** Names written as unquoted fields. */
  function BareCells(names: seq<string>): seq<Cell> {
    seq(|names|, i requires 0 <= i < |names| => Bare(names[i]))
  }

  /** The header line's fields: the column names, written bare. */
  const HeaderCells: seq<Cell> := BareCells(HeaderNames)

  /** `entry.notes ? quoted : ''`: an absent or empty note is an empty bare field. */
  function NotesCell(notes: Option<string>): (r: Cell)
    ensures r.text == notes.GetOr("")
    ensures Writable(r)
    ensures notes.None? || notes.value == "" ==> r == Bare("")
  {
    if notes.Some? && notes.value != "" then Quoted(notes.value) else Bare("")
  }

  /** The eleven fields of one entry's line, one per column; their texts are
      the entry's field values, and the line reads back when the unquoted
      ones are plain. */
  function EntryCells(e: Entry, fmt: Formatter): (r: seq<Cell>)
    ensures |r| == |HeaderNames|
    ensures Texts(r) == FieldValues(e, fmt)
    ensures PlainFields(e, fmt) ==> WritableRecord(r)
  {
    [Bare(e.id), Bare(fmt.dateText(e.date)), Bare(fmt.amountText(e.amount)),
     Quoted(e.description), Quoted(e.category.name), Quoted(e.requester.name),
     Quoted(e.requester.department), Bare(StatusText(e.status)), NotesCell(e.notes),
     Bare(fmt.instantText(e.createdAt)), Bare(fmt.instantText(e.updatedAt))]
  }

  function Records(entries: seq<Entry>, fmt: Formatter): (r: seq<seq<Cell>>)
    ensures |r| == |entries|
    ensures forall i :: 0 <= i < |entries| ==> r[i] == EntryCells(entries[i], fmt)
    decreases |entries|
  {
    if entries == [] then [] else [EntryCells(entries[0], fmt)] + Records(entries[1..], fmt)
  }

  /** `exportToCSV`: the header line, then one line per entry, joined by newlines. */
  function ExportToCsv(entries: seq<Entry>, fmt: Formatter): (r: string)
    ensures Line(HeaderCells) <= r
    ensures entries != [] ==> var last := Line(EntryCells(entries[|entries| - 1], fmt));
      |last| <= |r| && r[|r| - |last|..] == last
  {
    var records := [HeaderCells] + Records(entries, fmt);
    JoinEnds(Lines(records), "\n");
    Join(Lines(records), "\n")
  }

  // ---------------------------------------------------------------------
  // A reader for the same dialect.

  /** Reads the rest of a quoted field after its opening quote: the field's
      value and the text after the closing quote. */
  function ParseQuoted(t: string): (r: Option<(string, string)>)
    ensures r.Some? ==> |r.value.1| < |t|
    decreases |t|
  {
    if t == [] then None
    else if t[0] == '"' then
      if |t| > 1 && t[1] == '"' then
        match ParseQuoted(t[2..])
        case None => None
        case Some((v, rest)) => Some(("\"" + v, rest))
      else Some(("", t[1..]))
    else
      match ParseQuoted(t[1..])
      case None => None
      case Some((v, rest)) => Some(([t[0]] + v, rest))
  }

  /** Reads a bare field: everything up to the next comma or newline. */
  function ParseBare(t: string): (r: (string, string))
    ensures r.0 + r.1 == t
    decreases |t|
  {
    if t == [] || t[0] == ',' || t[0] == '\n' then ("", t)
    else
      var (v, rest) := ParseBare(t[1..]);
      ([t[0]] + v, rest)
  }

  function ParseField(t: string): (r: Option<(string, string)>)
    ensures r.Some? ==> |r.value.1| <= |t|
  {
    if |t| > 0 && t[0] == '"' then ParseQuoted(t[1..]) else Some(ParseBare(t))
  }

  /** Reads the comma-separated fields of one line; what is left is empty or
      starts with the newline that ends the line. */
  function ParseRecord(t: string): (r: Option<(seq<string>, string)>)
    ensures r.Some? ==> |r.value.1| <= |t|
    decreases |t|
  {
    match ParseField(t)
    case None => None
    case Some((v, rest)) =>
      if rest == [] || rest[0] == '\n' then Some(([v], rest))
      else if rest[0] == ',' then
        match ParseRecord(rest[1..])
        case None => None
        case Some((vs, rest')) => Some(([v] + vs, rest'))
      else None
  }

  /** Reads newline-separated lines until the text is used up. */
  function ParseDocument(t: string): Option<seq<seq<string>>>
    decreases |t|
  {
    match ParseRecord(t)
    case None => None
    case Some((fields, rest)) =>
      if rest == [] then Some([fields])
      else
        match ParseDocument(rest[1..])
        case None => None
        case Some(more) => Some([fields] + more)
  }

  // ---------------------------------------------------------------------
  // What the export means.

  /** Text that can stand in a bare field without changing how the line reads. */
  predicate Plain(s: string) {
    forall i :: 0 <= i < |s| ==> s[i] != ',' && s[i] != '"' && s[i] != '\n'
  }

  predicate Writable(c: Cell) {
    c.Quoted? || Plain(c.text)
  }

  predicate WritableRecord(cells: seq<Cell>) {
    |cells| > 0 && forall i :: 0 <= i < |cells| ==> Writable(cells[i])
  }

  function Texts(cells: seq<Cell>): seq<string> {
    seq(|cells|, i requires 0 <= i < |cells| => cells[i].text)
  }

  function TextRecords(records: seq<seq<Cell>>): (r: seq<seq<string>>)
    ensures |r| == |records|
    ensures forall i :: 0 <= i < |records| ==> r[i] == Texts(records[i])
    decreases |records|
  {
    if records == [] then [] else [Texts(records[0])] + TextRecords(records[1..])
  }

  lemma ParseQuotedEnd(rest: string)
    requires rest == [] || rest[0] != '"'
    ensures ParseQuoted("\"" + rest) == Some(("", rest))
  {
    assert ("\"" + rest)[1..] == rest;
  }

  lemma ParseQuotedPair(u: string, v: string, rest: string)
    requires ParseQuoted(u) == Some((v, rest))
    ensures ParseQuoted("\"\"" + u) == Some(("\"" + v, rest))
  {
    assert ("\"\"" + u)[2..] == u;
  }

  lemma ParseQuotedChar(c: char, u: string, v: string, rest: string)
    requires c != '"'
    requires ParseQuoted(u) == Some((v, rest))
    ensures ParseQuoted([c] + u) == Some(([c] + v, rest))
  {
    assert ([c] + u)[1..] == u;
  }

  /** Un-escaping a quoted field gives back the original text. */
  lemma {:induction false} QuotedRoundTrip(s: string, rest: string)
    requires rest == [] || rest[0] != '"'
    ensures ParseQuoted(Escape(s) + "\"" + rest) == Some((s, rest))
    decreases |s|
  {
    if s == [] {
      assert Escape(s) + "\"" + rest == "\"" + rest;
      ParseQuotedEnd(rest);
    } else {
      var u := Escape(s[1..]) + "\"" + rest;
      QuotedRoundTrip(s[1..], rest);
      if s[0] == '"' {
        assert Escape(s) + "\"" + rest == "\"\"" + u;
        ParseQuotedPair(u, s[1..], rest);
        assert "\"" + s[1..] == s;
      } else {
        assert Escape(s) + "\"" + rest == [s[0]] + u;
        ParseQuotedChar(s[0], u, s[1..], rest);
        assert [s[0]] + s[1..] == s;
      }
    }
  }

  lemma {:induction false} BareRoundTrip(s: string, rest: string)
    requires Plain(s)
    requires rest == [] || rest[0] == ',' || rest[0] == '\n'
    ensures ParseBare(s + rest) == (s, rest)
    decreases |s|
  {
    if s == [] {
      assert s + rest == rest;
    } else {
      assert (s + rest)[1..] == s[1..] + rest;
      BareRoundTrip(s[1..], rest);
      assert [s[0]] + s[1..] == s;
    }
  }

  /** A written field reads back as its text, leaving the separator that follows. */
  lemma FieldRoundTrip(c: Cell, rest: string)
    requires Writable(c)
    requires rest == [] || rest[0] == ',' || rest[0] == '\n'
    ensures ParseField(Render(c) + rest) == Some((c.text, rest))
  {
    match c
    case Quoted(s) =>
      var t := Render(c) + rest;
      assert t == "\"" + (Escape(s) + "\"" + rest);
      assert t[1..] == Escape(s) + "\"" + rest;
      QuotedRoundTrip(s, rest);
    case Bare(s) =>
      BareRoundTrip(s, rest);
      if |s| > 0 {
        assert (s + rest)[0] == s[0];
      } else {
        assert s + rest == rest;
      }
  }

  lemma WritableTail(cells: seq<Cell>)
    requires WritableRecord(cells) && |cells| > 1
    ensures WritableRecord(cells[1..])
  {
    forall i | 0 <= i < |cells| - 1 ensures Writable(cells[1..][i]) {
      assert cells[1..][i] == cells[i + 1];
    }
  }

  /** A written line reads back as the texts of its fields. */
  lemma {:induction false} RecordRoundTrip(cells: seq<Cell>, rest: string)
    requires WritableRecord(cells)
    requires rest == [] || rest[0] == '\n'
    ensures ParseRecord(Line(cells) + rest) == Some((Texts(cells), rest))
    decreases |cells|
  {
    var parts := RenderCells(cells);
    assert parts[0] == Render(cells[0]);
    if |cells| == 1 {
      assert Line(cells) == Render(cells[0]);
      FieldRoundTrip(cells[0], rest);
      assert Texts(cells) == [cells[0].text];
    } else {
      var tail := cells[1..];
      assert parts[1..] == RenderCells(tail);
      WritableTail(cells);
      var after := "," + (Line(tail) + rest);
      assert Line(cells) + rest == Render(cells[0]) + after;
      FieldRoundTrip(cells[0], after);
      assert after[1..] == Line(tail) + rest;
      RecordRoundTrip(tail, rest);
      assert Texts(cells) == [cells[0].text] + Texts(tail);
    }
  }

  /** A written document reads back as the texts of all its lines. */
  lemma {:induction false} DocumentRoundTrip(records: seq<seq<Cell>>)
    requires |records| > 0
    requires forall i :: 0 <= i < |records| ==> WritableRecord(records[i])
    ensures ParseDocument(Join(Lines(records), "\n")) == Some(TextRecords(records))
    decreases |records|
  {
    var lines := Lines(records);
    assert lines[0] == Line(records[0]);
    if |records| == 1 {
      assert Join(lines, "\n") == Line(records[0]) + "";
      RecordRoundTrip(records[0], "");
      assert records[1..] == [];
      assert TextRecords(records) == [Texts(records[0])];
    } else {
      var tail := records[1..];
      assert lines[1..] == Lines(tail);
      var after := "\n" + Join(Lines(tail), "\n");
      assert Join(lines, "\n") == Line(records[0]) + after;
      RecordRoundTrip(records[0], after);
      assert after[1..] == Join(Lines(tail), "\n");
      assert forall i :: 0 <= i < |tail| ==> tail[i] == records[i + 1];
      DocumentRoundTrip(tail);
    }
  }

  /** Ids, dates, amounts and timestamps that render as plain text. */
  predicate PlainFields(e: Entry, fmt: Formatter) {
    && Plain(e.id)
    && Plain(fmt.dateText(e.date))
    && Plain(fmt.amountText(e.amount))
    && Plain(fmt.instantText(e.createdAt))
    && Plain(fmt.instantText(e.updatedAt))
  }

  /** What a reader recovers from one entry's line. */
  function FieldValues(e: Entry, fmt: Formatter): seq<string> {
    [e.id, fmt.dateText(e.date), fmt.amountText(e.amount), e.description, e.category.name,
     e.requester.name, e.requester.department, StatusText(e.status), e.notes.GetOr(""),
     fmt.instantText(e.createdAt), fmt.instantText(e.updatedAt)]
  }

  function AllFieldValues(entries: seq<Entry>, fmt: Formatter): (r: seq<seq<string>>)
    ensures |r| == |entries|
    ensures forall i :: 0 <= i < |entries| ==> r[i] == FieldValues(entries[i], fmt)
    decreases |entries|
  {
    if entries == [] then [] else [FieldValues(entries[0], fmt)] + AllFieldValues(entries[1..], fmt)
  }

  lemma {:induction false} RecordsRoundTrip(entries: seq<Entry>, fmt: Formatter)
    requires forall i :: 0 <= i < |entries| ==> PlainFields(entries[i], fmt)
    ensures forall i :: 0 <= i < |entries| ==> WritableRecord(Records(entries, fmt)[i])
    ensures TextRecords(Records(entries, fmt)) == AllFieldValues(entries, fmt)
    decreases |entries|
  {
    if entries != [] {
      RecordsRoundTrip(entries[1..], fmt);
      var rs := Records(entries, fmt);
      assert rs[1..] == Records(entries[1..], fmt);
      forall i | 0 <= i < |entries| ensures WritableRecord(rs[i]) {
        if i > 0 {
          assert rs[i] == Records(entries[1..], fmt)[i - 1];
        }
      }
    }
  }

  /** The header and entry records are all writable, and their texts are
      the header names, then each entry's field values. */
  lemma ExportRecords(entries: seq<Entry>, fmt: Formatter)
    requires forall i :: 0 <= i < |entries| ==> PlainFields(entries[i], fmt)
    ensures var records := [HeaderCells] + Records(entries, fmt);
      && (forall i :: 0 <= i < |records| ==> WritableRecord(records[i]))
      && TextRecords(records) == [HeaderNames] + AllFieldValues(entries, fmt)
  {
    var body := Records(entries, fmt);
    var records := [HeaderCells] + body;
    RecordsRoundTrip(entries, fmt);
    HeaderRoundTrip();
    forall i | 0 <= i < |records| ensures WritableRecord(records[i]) {
      if i > 0 {
        assert records[i] == body[i - 1];
      }
    }
    assert records[1..] == body;
    assert Texts(HeaderCells) == HeaderNames;
  }

  /** Reading the export back gives the header names, then, for every entry
      in order, the text of each of its eleven columns; the quoted columns
      come back exactly, and an absent note reads as an empty field. */
  lemma ExportRoundTrip(entries: seq<Entry>, fmt: Formatter)
    requires forall i :: 0 <= i < |entries| ==> PlainFields(entries[i], fmt)
    ensures ParseDocument(ExportToCsv(entries, fmt)) == Some([HeaderNames] + AllFieldValues(entries, fmt))
  {
    var records := [HeaderCells] + Records(entries, fmt);
    ExportRecords(entries, fmt);
    DocumentRoundTrip(records);
    assert ExportToCsv(entries, fmt) == Join(Lines(records), "\n");
  }

  /** A joined text begins with the first part and ends with the last. */
  lemma {:induction false} JoinEnds(parts: seq<string>, sep: string)
    requires parts != []
    ensures parts[0] <= Join(parts, sep)
    ensures var last := parts[|parts| - 1]; var r := Join(parts, sep);
      |last| <= |r| && r[|r| - |last|..] == last
    decreases |parts|
  {
    if |parts| > 1 {
      JoinEnds(parts[1..], sep);
      var r := Join(parts, sep);
      var t := Join(parts[1..], sep);
      assert r == parts[0] + sep + t;
      assert r[|r| - |t|..] == t;
    }
  }

  lemma {:induction false} JoinSnoc(parts: seq<string>, x: string, sep: string)
    requires parts != []
    ensures Join(parts + [x], sep) == Join(parts, sep) + sep + x
    decreases |parts|
  {
    if |parts| == 1 {
      assert (parts + [x])[1..] == [x];
    } else {
      assert (parts + [x])[1..] == parts[1..] + [x];
      JoinSnoc(parts[1..], x, sep);
    }
  }

  lemma {:induction false} RecordsSnoc(entries: seq<Entry>, e: Entry, fmt: Formatter)
    ensures Records(entries + [e], fmt) == Records(entries, fmt) + [EntryCells(e, fmt)]
    decreases |entries|
  {
    if entries == [] {
      assert entries + [e] == [e];
    } else {
      assert (entries + [e])[1..] == entries[1..] + [e];
      RecordsSnoc(entries[1..], e, fmt);
    }
  }

  lemma {:induction false} LinesSnoc(records: seq<seq<Cell>>, r: seq<Cell>)
    ensures Lines(records + [r]) == Lines(records) + [Line(r)]
    decreases |records|
  {
    if records == [] {
      assert records + [r] == [r];
    } else {
      assert (records + [r])[1..] == records[1..] + [r];
      LinesSnoc(records[1..], r);
    }
  }

  /** The header line reads back as the eleven column names. */
  lemma HeaderRoundTrip()
    ensures WritableRecord(HeaderCells)
    ensures ParseRecord(Line(HeaderCells)) == Some((HeaderNames, ""))
  {
    HeaderNamesPlain();
    BareCellsRoundTrip(HeaderNames);
    assert Line(HeaderCells) + "" == Line(HeaderCells);
    RecordRoundTrip(HeaderCells, "");
  }

  lemma HeaderNamesPlain()
    ensures forall i :: 0 <= i < |HeaderNames| ==> Plain(HeaderNames[i])
  {
    assert Plain("ID") && Plain("Date") && Plain("Amount") && Plain("Description");
    assert Plain("Category") && Plain("Requester") && Plain("Department") && Plain("Status");
    assert Plain("Notes") && Plain("Created At") && Plain("Updated At");
  }

  /** Plain names written bare form a writable line of the same texts. */
  lemma BareCellsRoundTrip(names: seq<string>)
    requires |names| > 0
    requires forall i :: 0 <= i < |names| ==> Plain(names[i])
    ensures WritableRecord(BareCells(names))
    ensures Texts(BareCells(names)) == names
  {
  }

  /** With no entries the export is exactly the header line. */
  lemma ExportNoEntries(fmt: Formatter)
    ensures ExportToCsv([], fmt) == Line(HeaderCells)
  {
    assert [HeaderCells] + Records([], fmt) == [HeaderCells];
    assert Lines([HeaderCells]) == [Line(HeaderCells)];
  }

  /** Each further entry adds a newline and its own line at the end. */
  lemma ExportAppend(entries: seq<Entry>, e: Entry, fmt: Formatter)
    ensures ExportToCsv(entries + [e], fmt) == ExportToCsv(entries, fmt) + "\n" + Line(EntryCells(e, fmt))
  {
    RecordsSnoc(entries, e, fmt);
    var records := [HeaderCells] + Records(entries, fmt);
    assert [HeaderCells] + Records(entries + [e], fmt) == records + [EntryCells(e, fmt)];
    LinesSnoc(records, EntryCells(e, fmt));
    JoinSnoc(Lines(records), Line(EntryCells(e, fmt)), "\n");
  }

  /** Escaping adds exactly one character per quote. */
  lemma {:induction false} EscapeLength(s: string)
    ensures |Escape(s)| == |s| + multiset(s)['"']
    decreases |s|
  {
    if s != [] {
      EscapeLength(s[1..]);
      assert s == [s[0]] + s[1..];
    }
  }

  /** Escaping leaves a text unchanged exactly when it has no quotes. */
  lemma {:induction false} EscapeUnchanged(s: string)
    ensures Escape(s) == s <==> forall i :: 0 <= i < |s| ==> s[i] != '"'
    decreases |s|
  {
    EscapeLength(s);
    if s != [] {
      EscapeUnchanged(s[1..]);
      assert s == [s[0]] + s[1..];
      if Escape(s) == s {
        assert multiset(s)['"'] == 0;
        forall i | 0 <= i < |s| ensures s[i] != '"' {
          assert s[i] in multiset(s);
        }
      }
    }
  }

  /** No two statuses are written the same way. */
  lemma StatusTextDistinct(s: Status, t: Status)
    requires s != t
    ensures StatusText(s) != StatusText(t)
  {
    assert StatusText(s)[0] != StatusText(t)[0] || |StatusText(s)| != |StatusText(t)|;
  }

  lemma {:induction false} EscapeAppend(a: string, b: string)
    ensures Escape(a + b) == Escape(a) + Escape(b)
    decreases |a|
  {
    if a == [] {
      assert a + b == b;
    } else {
      assert (a + b)[1..] == a[1..] + b;
      EscapeAppend(a[1..], b);
    }
  }

  /** A quote between two quote-free texts is written doubled. */
  lemma QuoteDoubled(a: string, b: string)
    requires forall i :: 0 <= i < |a| ==> a[i] != '"'
    requires forall i :: 0 <= i < |b| ==> b[i] != '"'
    ensures Escape(a + "\"" + b) == a + "\"\"" + b
  {
    EscapeAppend(a + "\"", b);
    EscapeAppend(a, "\"");
    EscapeUnchanged(a);
    EscapeUnchanged(b);
    assert "\""[1..] == [];
    assert Escape("\"") == "\"\"";
  }
}
