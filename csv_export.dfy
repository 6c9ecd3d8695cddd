/**
 * CSV export of canvassing notes, as written out in
 * tests/integration/csv-export.test.ts: a fixed header, one row of six
 * fields per note, quoting with doubled quotes, newlines in the notes
 * flattened to spaces, and file names reduced to `[A-Za-z0-9_]`.
 *
 * The round-trip partner of the encoder is a reader for the quoted-field
 * grammar of RFC 4180 (section 2, rules 5 to 7): a field either has no
 * comma, or is enclosed in double quotes with every inner quote doubled.
 */
module CsvExport {
  import opened Wrappers
  import opened JsStrings

  // ---------------------------------------------------------------------------
  // header

  const Columns: seq<string> :=
    ["Contact Name", "Contact Email", "Notes", "Created By", "Created Date", "Updated Date"]

  /** The header line: the six column names joined by `,`. */
  function Header(): string {
    Join(Columns, ',')
  }

  /** The header splits back into the six column names, in order. */
  lemma HeaderColumns()
    ensures Split(Header(), ',') == Columns
    ensures |Split(Header(), ',')| == 6
  {
    forall i | 0 <= i < |Columns| ensures ',' !in Columns[i] {
    }
    SplitJoin(Columns, ',');
  }

  lemma HeaderHasNoNewline()
    ensures '\n' !in Header()
  {
    forall i | 0 <= i < |Columns| ensures '\n' !in Columns[i] {
    }
    JoinChars(Columns, ',', '\n');
  }

  // ---------------------------------------------------------------------------
  // field encoding

  /** `s.replace(/"/g, '""')`: every double quote doubled. */
  function EscapeQuotes(s: string): (r: string)
    ensures '"' !in s ==> r == s
    ensures |r| >= |s|
  {
    if s == [] then []
    else (if s[0] == '"' then "\"\"" else [s[0]]) + EscapeQuotes(s[1..])
  }

  /** `"${s.replace(/"/g, '""')}"`: the quoted form of a field. */
  function Quote(s: string): (r: string)
    ensures |r| >= |s| + 2 && r[0] == '"' && r[|r| - 1] == '"'
  {
    "\"" + EscapeQuotes(s) + "\""
  }

  /** `s.replace(/\n/g, " ")`: every line feed becomes a space. */
  function FlattenNewlines(s: string): (r: string)
    ensures |r| == |s| && '\n' !in r
    ensures forall i :: 0 <= i < |s| && s[i] != '\n' ==> r[i] == s[i]
    ensures forall i :: 0 <= i < |s| && s[i] == '\n' ==> r[i] == ' '
  {
    seq(|s|, i requires 0 <= i < |s| => if s[i] == '\n' then ' ' else s[i])
  }

  lemma {:induction false} EscapeAppend(a: string, b: string)
    ensures EscapeQuotes(a + b) == EscapeQuotes(a) + EscapeQuotes(b)
    decreases |a|
  {
    if a == [] {
      assert a + b == b;
    } else {
      assert (a + b)[0] == a[0] && (a + b)[1..] == a[1..] + b;
      EscapeAppend(a[1..], b);
    }
  }

  /** Doubling quotes adds only quotes: any other character occurs before iff after. */
  lemma {:induction false} EscapeKeepsOtherChars(s: string, c: char)
    requires c != '"'
    ensures c in EscapeQuotes(s) <==> c in s
  {
    if s != [] {
      EscapeKeepsOtherChars(s[1..], c);
      assert s == [s[0]] + s[1..];
    }
  }

  /** The two rewrites commute on a single character. */
  lemma FlattenEscapeChar(c: char)
    ensures FlattenNewlines(if c == '"' then "\"\"" else [c]) == EscapeQuotes(FlattenNewlines([c]))
  {
    assert FlattenNewlines([c])[1..] == [];
  }

  lemma FlattenCons(s: string)
    requires s != []
    ensures FlattenNewlines(s) == FlattenNewlines([s[0]]) + FlattenNewlines(s[1..])
  {
    assert s == [s[0]] + s[1..];
    FlattenAppend([s[0]], s[1..]);
  }

  /** Flattening newlines and doubling quotes can be done in either order. */
  lemma {:induction false} FlattenEscapeCommute(s: string)
    ensures FlattenNewlines(EscapeQuotes(s)) == EscapeQuotes(FlattenNewlines(s))
  {
    if s != [] {
      FlattenEscapeCommute(s[1..]);
      var head := if s[0] == '"' then "\"\"" else [s[0]];
      assert EscapeQuotes(s) == head + EscapeQuotes(s[1..]);
      FlattenAppend(head, EscapeQuotes(s[1..]));
      FlattenEscapeChar(s[0]);
      FlattenCons(s);
      EscapeAppend(FlattenNewlines([s[0]]), FlattenNewlines(s[1..]));
    }
  }

  lemma FlattenAppend(a: string, b: string)
    ensures FlattenNewlines(a + b) == FlattenNewlines(a) + FlattenNewlines(b)
  {
  }

  /** The contact-email field: quoted when present and non-empty, else an empty field. */
  function EmailField(email: Option<string>): (r: string)
    ensures email == None ==> r == ""
  {
    match email
    case Some(e) => if e != "" then Quote(e) else ""
    case None => ""
  }

  /** The notes field: quotes doubled, then line feeds flattened, then enclosed in quotes. */
  function NotesField(notes: string): (r: string)
    ensures '\n' !in r
  {
    "\"" + FlattenNewlines(EscapeQuotes(notes)) + "\""
  }

  /** The notes field is the quoted form of the flattened notes. */
  lemma NotesFieldIsQuote(notes: string)
    ensures NotesField(notes) == Quote(FlattenNewlines(notes))
  {
    FlattenEscapeCommute(notes);
  }

  // ---------------------------------------------------------------------------
  // rows and content

  /**
   * One note as exported. The creator is the author's name (the test puts
   * the literal `Test User` there); the two dates are already formatted.
   */
  datatype NoteExport = NoteExport(
    contactName: string,
    contactEmail: Option<string>,
    notes: string,
    createdBy: string,
    createdDate: string,
    updatedDate: string)

  function RowFields(n: NoteExport): (fields: seq<string>)
    ensures |fields| == 6
  {
    [Quote(n.contactName), EmailField(n.contactEmail), NotesField(n.notes),
     Quote(n.createdBy), n.createdDate, n.updatedDate]
  }

  /** `row.join(",")` */
  function Row(n: NoteExport): string {
    Join(RowFields(n), ',')
  }

  function Rows(notes: seq<NoteExport>): (rows: seq<string>)
    ensures |rows| == |notes|
  {
    seq(|notes|, i requires 0 <= i < |notes| => Row(notes[i]))
  }

  /** One more note gives one more row, at the end. */
  lemma RowsSnoc(notes: seq<NoteExport>, i: nat)
    requires i < |notes|
    ensures Rows(notes[..i + 1]) == Rows(notes[..i]) + [Row(notes[i])]
  {
  }

  /** `csvRows.join("\n")` with the header first and one row per note. */
  function CsvContent(notes: seq<NoteExport>): string {
    Join([Header()] + Rows(notes), '\n')
  }

  /** The loop of the test: push the header, push each row, join with line feeds. */
  method BuildCsvContent(notes: seq<NoteExport>) returns (content: string)
    ensures content == CsvContent(notes)
  {
    var csvRows := [Header()];
    for i := 0 to |notes|
      invariant csvRows == [Header()] + Rows(notes[..i])
    {
      RowsSnoc(notes, i);
      csvRows := csvRows + [Row(notes[i])];
    }
    assert notes[..|notes|] == notes;
    content := Join(csvRows, '\n');
  }

  // ---------------------------------------------------------------------------
  // line structure

  /** The fields of a note that are not flattened carry no line feed. */
  predicate LineSafe(n: NoteExport) {
    && '\n' !in n.contactName
    && (n.contactEmail.Some? ==> '\n' !in n.contactEmail.value)
    && '\n' !in n.createdBy
    && '\n' !in n.createdDate
    && '\n' !in n.updatedDate
  }

  lemma QuoteKeepsChars(s: string, c: char)
    requires c != '"'
    ensures c in Quote(s) <==> c in s
  {
    EscapeKeepsOtherChars(s, c);
  }

  /** A row is a single line exactly when its unflattened fields have no line feed. */
  lemma RowIsOneLine(n: NoteExport)
    ensures '\n' !in Row(n) <==> LineSafe(n)
  {
    var fields := RowFields(n);
    JoinChars(fields, ',', '\n');
    QuoteKeepsChars(n.contactName, '\n');
    QuoteKeepsChars(n.createdBy, '\n');
    assert '\n' in fields[1] <==> n.contactEmail.Some? && '\n' in n.contactEmail.value by {
      if n.contactEmail.Some? {
        QuoteKeepsChars(n.contactEmail.value, '\n');
      }
    }
    assert '\n' !in fields[2];
    assert (exists i :: 0 <= i < |fields| && '\n' in fields[i]) <==>
      '\n' in fields[0] || '\n' in fields[1] || '\n' in fields[3] || '\n' in fields[4] || '\n' in fields[5];
  }

  /**
   * With line-safe notes the content splits at line feeds into the header
   * followed by the rows, so it has one line more than there are notes.
   */
  lemma ContentLines(notes: seq<NoteExport>)
    requires forall i :: 0 <= i < |notes| ==> LineSafe(notes[i])
    ensures Split(CsvContent(notes), '\n') == [Header()] + Rows(notes)
    ensures |Split(CsvContent(notes), '\n')| == |notes| + 1
  {
    LinesHaveNoNewline(notes);
    SplitJoin([Header()] + Rows(notes), '\n');
  }

  lemma LinesHaveNoNewline(notes: seq<NoteExport>)
    requires forall i :: 0 <= i < |notes| ==> LineSafe(notes[i])
    ensures forall i :: 0 <= i < |notes| + 1 ==> '\n' !in ([Header()] + Rows(notes))[i]
  {
    var lines := [Header()] + Rows(notes);
    forall i | 0 <= i < |lines| ensures '\n' !in lines[i] {
      if i == 0 {
        HeaderHasNoNewline();
      } else {
        RowIsOneLine(notes[i - 1]);
      }
    }
  }

  lemma {:induction false} JoinInfix(parts: seq<string>, sep: char, k: nat) returns (before: string, after: string)
    requires k < |parts|
    ensures Join(parts, sep) == before + parts[k] + after
  {
    if |parts| == 1 {
      before, after := [], [];
    } else if k == 0 {
      before, after := [], [sep] + Join(parts[1..], sep);
    } else {
      var b, a := JoinInfix(parts[1..], sep, k - 1);
      assert parts[1..][k - 1] == parts[k];
      assert Join(parts, sep) == parts[0] + [sep] + Join(parts[1..], sep);
      RegroupInfix(parts[0] + [sep], b, parts[k], a);
      before, after := parts[0] + [sep] + b, a;
    }
  }

  lemma RegroupInfix(x: string, b: string, p: string, a: string)
    ensures x + (b + p + a) == (x + b) + p + a
  {
  }

  /** A contact name without quotes appears verbatim in the content. */
  lemma ContentContainsName(notes: seq<NoteExport>, k: nat)
    requires k < |notes| && '"' !in notes[k].contactName
    ensures Contains(CsvContent(notes), notes[k].contactName)
  {
    var name := notes[k].contactName;
    var row := Row(notes[k]);
    var b1, a1 := JoinInfix([Header()] + Rows(notes), '\n', k + 1);
    var b2, a2 := JoinInfix(RowFields(notes[k]), ',', 0);
    ContainsInfix(b1, row, a1);
    ContainsInfix(b2, Quote(name), a2);
    ContainsInfix("\"", name, "\"");
    ContainsWithin(row, Quote(name), name);
    ContainsWithin(CsvContent(notes), row, name);
  }

  // ---------------------------------------------------------------------------
  // reading a record back (RFC 4180, section 2)

  datatype Parsed = Parsed(value: string, rest: string)

  /** The body of a quoted field, after its opening quote, up to the closing quote. */
  function ParseQuotedBody(s: string): (r: Option<Parsed>)
    ensures r.Some? ==> |r.value.rest| < |s|
  {
    if s == [] then None
    else if s[0] == '"' then
      if |s| >= 2 && s[1] == '"' then
        match ParseQuotedBody(s[2..])
        case None => None
        case Some(p) => Some(Parsed("\"" + p.value, p.rest))
      else Some(Parsed([], s[1..]))
    else
      match ParseQuotedBody(s[1..])
      case None => None
      case Some(p) => Some(Parsed([s[0]] + p.value, p.rest))
  }

  /** An unquoted field: everything up to the next comma. */
  function ParseUnquoted(s: string): (p: Parsed)
    ensures |p.rest| <= |s|
  {
    if s == [] || s[0] == ',' then Parsed([], s)
    else
      var p := ParseUnquoted(s[1..]);
      Parsed([s[0]] + p.value, p.rest)
  }

  function ParseField(s: string): (r: Option<Parsed>)
    ensures r.Some? ==> |r.value.rest| <= |s|
  {
    if s != [] && s[0] == '"' then ParseQuotedBody(s[1..]) else Some(ParseUnquoted(s))
  }

  /** The fields of one line, separated by commas. */
  function ParseRecord(s: string): Option<seq<string>>
    decreases |s|
  {
    match ParseField(s)
    case None => None
    case Some(p) =>
      if p.rest == [] then Some([p.value])
      else if p.rest[0] == ',' then
        match ParseRecord(p.rest[1..])
        case None => None
        case Some(values) => Some([p.value] + values)
      else None
  }

  /** `field` reads back as `value` wherever it is followed by a comma or the line end. */
  ghost predicate Encodes(field: string, value: string) {
    forall tail :: tail == [] || tail[0] == ',' ==> ParseField(field + tail) == Some(Parsed(value, tail))
  }

  lemma QuotedBodyPair(x: string, p: Parsed)
    requires ParseQuotedBody(x) == Some(p)
    ensures ParseQuotedBody("\"\"" + x) == Some(Parsed("\"" + p.value, p.rest))
  {
    assert ("\"\"" + x)[2..] == x;
  }

  lemma QuotedBodyCons(c: char, x: string, p: Parsed)
    requires c != '"' && ParseQuotedBody(x) == Some(p)
    ensures ParseQuotedBody([c] + x) == Some(Parsed([c] + p.value, p.rest))
  {
    assert ([c] + x)[1..] == x;
  }

  /** The escape of a quote followed by `t`, split at its first character. */
  lemma EscapeHeadAppend(v: string, t: string)
    requires v != []
    ensures v[0] == '"' ==> EscapeQuotes(v) + t == "\"\"" + (EscapeQuotes(v[1..]) + t)
    ensures v[0] != '"' ==> EscapeQuotes(v) + t == [v[0]] + (EscapeQuotes(v[1..]) + t)
  {
    var head := if v[0] == '"' then "\"\"" else [v[0]];
    assert EscapeQuotes(v) == head + EscapeQuotes(v[1..]);
    AppendAssoc(head, EscapeQuotes(v[1..]), t);
  }

  lemma AppendAssoc(a: string, b: string, c: string)
    ensures (a + b) + c == a + (b + c)
  {
  }

  /** One escaped character in front of a readable quoted body reads as that character in front. */
  lemma QuotedBodyStep(v: string, t: string, rest: string)
    requires v != [] && ParseQuotedBody(EscapeQuotes(v[1..]) + t) == Some(Parsed(v[1..], rest))
    ensures ParseQuotedBody(EscapeQuotes(v) + t) == Some(Parsed(v, rest))
  {
    var x := EscapeQuotes(v[1..]) + t;
    EscapeHeadAppend(v, t);
    if v[0] == '"' {
      QuotedBodyPair(x, Parsed(v[1..], rest));
      assert "\"" + v[1..] == v;
    } else {
      QuotedBodyCons(v[0], x, Parsed(v[1..], rest));
      assert [v[0]] + v[1..] == v;
    }
  }

  /** A quote that is not doubled closes the body at once. */
  lemma QuotedBodyClose(t: string)
    requires t != [] && t[0] == '"' && (|t| == 1 || t[1] != '"')
    ensures ParseQuotedBody(EscapeQuotes([]) + t) == Some(Parsed([], t[1..]))
  {
    assert EscapeQuotes([]) + t == t;
  }

  /** The quoted body of a field is read back up to the first closing quote that is not doubled. */
  lemma {:induction false} QuotedBodyOfEscape(v: string, t: string)
    requires t != [] && t[0] == '"' && (|t| == 1 || t[1] != '"')
    ensures ParseQuotedBody(EscapeQuotes(v) + t) == Some(Parsed(v, t[1..]))
    decreases |v|
  {
    if v == [] {
      QuotedBodyClose(t);
    } else {
      QuotedBodyOfEscape(v[1..], t);
      QuotedBodyStep(v, t, t[1..]);
    }
  }

  /** A quoted field reads back as the original text, whatever it contains. */
  lemma QuoteEncodes(v: string)
    ensures Encodes(Quote(v), v)
  {
    forall tail | tail == [] || tail[0] == ','
      ensures ParseField(Quote(v) + tail) == Some(Parsed(v, tail))
    {
      assert Quote(v) + tail == "\"" + (EscapeQuotes(v) + ("\"" + tail));
      QuotedBodyOfEscape(v, "\"" + tail);
    }
  }

  lemma {:induction false} UnquotedPrefix(u: string, tail: string)
    requires ',' !in u
    requires tail == [] || tail[0] == ','
    ensures ParseUnquoted(u + tail) == Parsed(u, tail)
    decreases |u|
  {
    if u == [] {
      assert u + tail == tail;
    } else {
      assert (u + tail)[0] == u[0] && (u + tail)[1..] == u[1..] + tail;
      assert ',' !in u[1..] by { forall i | 0 <= i < |u| - 1 ensures u[1..][i] != ',' { assert u[1..][i] == u[i + 1]; } }
      UnquotedPrefix(u[1..], tail);
      assert u == [u[0]] + u[1..];
    }
  }

  /** Text with no comma that does not open with a quote reads back unchanged. */
  lemma PlainEncodes(u: string)
    requires ',' !in u && (u == [] || u[0] != '"')
    ensures Encodes(u, u)
  {
    forall tail | tail == [] || tail[0] == ','
      ensures ParseField(u + tail) == Some(Parsed(u, tail))
    {
      UnquotedPrefix(u, tail);
    }
  }

  /** A field followed by a comma and a readable record reads as one more value in front. */
  lemma ParseRecordStep(field: string, value: string, rest: string, values: seq<string>)
    requires Encodes(field, value) && ParseRecord(rest) == Some(values)
    ensures ParseRecord(field + ([','] + rest)) == Some([value] + values)
  {
    var tail := [','] + rest;
    assert ParseField(field + tail) == Some(Parsed(value, tail));
    assert tail[1..] == rest;
  }

  lemma JoinCons(parts: seq<string>, sep: char)
    requires |parts| >= 2
    ensures Join(parts, sep) == parts[0] + ([sep] + Join(parts[1..], sep))
  {
    AppendAssoc(parts[0], [sep], Join(parts[1..], sep));
  }

  /** Joining encoded fields with commas gives a record that reads back as their values. */
  lemma {:induction false} ParseJoined(fields: seq<string>, values: seq<string>)
    requires |fields| == |values| >= 1
    requires forall i :: 0 <= i < |fields| ==> Encodes(fields[i], values[i])
    ensures ParseRecord(Join(fields, ',')) == Some(values)
  {
    if |fields| == 1 {
      assert fields[0] + [] == fields[0];
      assert ParseField(fields[0] + []) == Some(Parsed(values[0], []));
      assert Join(fields, ',') == fields[0];
      assert values == [values[0]];
    } else {
      ParseJoined(fields[1..], values[1..]);
      JoinCons(fields, ',');
      ParseRecordStep(fields[0], values[0], Join(fields[1..], ','), values[1..]);
      assert values == [values[0]] + values[1..];
    }
  }

  /** A formatted date that reads back as itself. */
  predicate PlainText(s: string) {
    ',' !in s && (s == [] || s[0] != '"')
  }

  /** What a reader recovers from a row: the note's fields, the notes flattened. */
  function RowValues(n: NoteExport): seq<string> {
    [n.contactName,
     match n.contactEmail case Some(e) => e case None => "",
     FlattenNewlines(n.notes), n.createdBy, n.createdDate, n.updatedDate]
  }

  /** The e-mail field reads back as the address, or as the empty text when there is none. */
  lemma EmailEncodes(email: Option<string>)
    ensures Encodes(EmailField(email), match email case Some(e) => e case None => "")
  {
    match email {
      case Some(e) =>
        if e != "" { QuoteEncodes(e); } else { PlainEncodes(""); }
      case None =>
        PlainEncodes("");
    }
  }

  /** Six fields that each read back as their value make a line that reads back as the six values. */
  lemma ParseSixFields(f0: string, f1: string, f2: string, f3: string, f4: string, f5: string,
                       v0: string, v1: string, v2: string, v3: string, v4: string, v5: string)
    requires Encodes(f0, v0) && Encodes(f1, v1) && Encodes(f2, v2)
    requires Encodes(f3, v3) && Encodes(f4, v4) && Encodes(f5, v5)
    ensures ParseRecord(Join([f0, f1, f2, f3, f4, f5], ',')) == Some([v0, v1, v2, v3, v4, v5])
  {
    var fields := [f0, f1, f2, f3, f4, f5];
    var values := [v0, v1, v2, v3, v4, v5];
    assert forall i :: 0 <= i < 6 ==> Encodes(fields[i], values[i]);
    ParseJoined(fields, values);
  }

  /** Every row reads back as the six values of its note. */
  lemma RowRoundTrip(n: NoteExport)
    requires PlainText(n.createdDate) && PlainText(n.updatedDate)
    ensures ParseRecord(Row(n)) == Some(RowValues(n))
  {
    QuoteEncodes(n.contactName);
    EmailEncodes(n.contactEmail);
    NotesFieldIsQuote(n.notes);
    QuoteEncodes(FlattenNewlines(n.notes));
    QuoteEncodes(n.createdBy);
    PlainEncodes(n.createdDate);
    PlainEncodes(n.updatedDate);
    ParseSixFields(
      Quote(n.contactName), EmailField(n.contactEmail), NotesField(n.notes),
      Quote(n.createdBy), n.createdDate, n.updatedDate,
      n.contactName, match n.contactEmail case Some(e) => e case None => "",
      FlattenNewlines(n.notes), n.createdBy, n.createdDate, n.updatedDate);
  }

  /** Every line after the header reads back as the note it was written from. */
  lemma ContentRoundTrip(notes: seq<NoteExport>, k: nat)
    requires forall i :: 0 <= i < |notes| ==> LineSafe(notes[i])
    requires k < |notes| && PlainText(notes[k].createdDate) && PlainText(notes[k].updatedDate)
    ensures var lines := Split(CsvContent(notes), '\n');
      |lines| == |notes| + 1 && ParseRecord(lines[k + 1]) == Some(RowValues(notes[k]))
  {
    ContentLines(notes);
    RowRoundTrip(notes[k]);
  }

  // ---------------------------------------------------------------------------
  // file names

  /** `name.replace(/[^a-z0-9]/gi, "_")` */
  function SanitizeFileName(name: string): (r: string)
    ensures |r| == |name|
    ensures forall i :: 0 <= i < |r| ==> IsAsciiAlnum(r[i]) || r[i] == '_'
    ensures forall i :: 0 <= i < |name| && IsAsciiAlnum(name[i]) ==> r[i] == name[i]
    ensures forall i :: 0 <= i < |name| && !IsAsciiAlnum(name[i]) ==> r[i] == '_'
  {
    seq(|name|, i requires 0 <= i < |name| => if IsAsciiAlnum(name[i]) then name[i] else '_')
  }

  /** Sanitising a sanitised name changes nothing. */
  lemma SanitizeIdempotent(name: string)
    ensures SanitizeFileName(SanitizeFileName(name)) == SanitizeFileName(name)
  {
  }

  // ---------------------------------------------------------------------------
  // the test's own vectors

  lemma EscapeAroundQuote(x: string, y: string)
    ensures EscapeQuotes(x + "\"" + y) == EscapeQuotes(x) + "\"\"" + EscapeQuotes(y)
  {
    var q := "\"";
    assert EscapeQuotes(q) == "\"\"" by {
      assert q[1..] == [];
    }
    EscapeAppend(x, q);
    EscapeAppend(x + q, y);
  }

  lemma EscapeTwoQuotes(a: string, b: string, c: string)
    requires '"' !in a && '"' !in b && '"' !in c
    ensures Quote(a + "\"" + b + "\"" + c) == "\"" + a + "\"\"" + b + "\"\"" + c + "\""
  {
    EscapeAroundQuote(a + "\"" + b, c);
    EscapeAroundQuote(a, b);
    RegroupQuoted("\"", a, "\"\"", b, c);
  }

  lemma RegroupQuoted(q: string, a: string, qq: string, b: string, c: string)
    ensures q + (a + qq + b + qq + c) + q == q + a + qq + b + qq + c + q
  {
  }

  lemma JohnnyParts()
    ensures "John \"Johnny\" Doe" == "John " + "\"" + "Johnny" + "\"" + " Doe"
    ensures "\"John \"\"Johnny\"\" Doe\"" == "\"" + "John " + "\"\"" + "Johnny" + "\"\"" + " Doe" + "\""
    ensures '"' !in "John " && '"' !in "Johnny" && '"' !in " Doe"
  {
  }

  /** The quoting vector of the test: `John "Johnny" Doe`. */
  lemma EscapeJohnny()
    ensures Quote("John \"Johnny\" Doe") == "\"John \"\"Johnny\"\" Doe\""
  {
    JohnnyParts();
    EscapeTwoQuotes("John ", "Johnny", " Doe");
  }

  lemma FlattenThreeLines()
    ensures FlattenNewlines("Line 1\nLine 2\nLine 3") == "Line 1 Line 2 Line 3"
  {
  }

  lemma SanitizeMyProject()
    ensures SanitizeFileName("My Project #1!") == "My_Project__1_"
  {
  }

  lemma NullEmailIsEmptyField()
    ensures EmailField(None) == ""
  {
  }

  /**
   * The three notes of tests/fixtures/mockData.ts with the test's creator
   * column; `dates[i]` is the formatted date of note `i`.
   */
  function MockNotes(dates: seq<string>): (notes: seq<NoteExport>)
    requires |dates| == 3
    ensures |notes| == 3
  {
    [NoteExport("John Doe", Some("john@example.com"), "Had a great conversation about the campaign", "Test User", dates[0], dates[0]),
     NoteExport("Jane Smith", Some("jane@example.com"), "Interested in volunteering", "Test User", dates[1], dates[1]),
     NoteExport("Bob Johnson", None, "Not home, will follow up later", "Test User", dates[2], dates[2])]
  }

  lemma MockNotesLineSafe(dates: seq<string>)
    requires |dates| == 3 && forall i :: 0 <= i < 3 ==> '\n' !in dates[i]
    ensures forall i :: 0 <= i < 3 ==> LineSafe(MockNotes(dates)[i])
  {
    assert '\n' !in "John Doe" && '\n' !in "Jane Smith" && '\n' !in "Bob Johnson";
    assert '\n' !in "john@example.com" && '\n' !in "jane@example.com" && '\n' !in "Test User";
  }

  /** The row-count vector: the header and the three notes make four lines. */
  lemma MockContentLines(dates: seq<string>)
    requires |dates| == 3 && forall i :: 0 <= i < 3 ==> '\n' !in dates[i]
    ensures |Split(CsvContent(MockNotes(dates)), '\n')| == 4
  {
    MockNotesLineSafe(dates);
    ContentLines(MockNotes(dates));
  }

  /** The content vector: every contact name of the fixtures appears. */
  lemma MockContentNames(dates: seq<string>)
    requires |dates| == 3
    ensures Contains(CsvContent(MockNotes(dates)), "John Doe")
    ensures Contains(CsvContent(MockNotes(dates)), "Jane Smith")
    ensures Contains(CsvContent(MockNotes(dates)), "Bob Johnson")
  {
    var notes := MockNotes(dates);
    assert '"' !in notes[0].contactName && '"' !in notes[1].contactName && '"' !in notes[2].contactName;
    ContentContainsName(notes, 0);
    ContentContainsName(notes, 1);
    ContentContainsName(notes, 2);
  }
}
