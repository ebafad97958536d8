/** The console's CSV cells and the credential list written and read with them. */
module CredentialCsv {
  import opened JsText

  datatype Entry = Entry(subject: string, token: string)

  datatype Failure =
    | PatternCount | PatternOverCap | PatternTokenEmpty
    | LoginCredEmpty | LoginCredHeader | RowMissingUsername | RowMissingPassword | NoRows

  datatype Result<T> = Ok(value: T) | Err(error: Failure)

  const MAX_WEB_PATTERN_ROWS: int := 10000

  // -------------------------------------------------------------------------
  // One row: section 2 of RFC 4180
  // -------------------------------------------------------------------------

  predicate NeedsQuotes(v: string) {
    '"' in v || ',' in v || '\n' in v || '\r' in v
  }

  function DoubleQuotes(v: string): string {
    if v == "" then "" else (if v[0] == '"' then "\"\"" else [v[0]]) + DoubleQuotes(v[1..])
  }

  function CsvCell(v: string): string {
    if NeedsQuotes(v) then "\"" + DoubleQuotes(v) + "\"" else v
  }

  /** The fields of the rest of a line, given the field read so far and whether the
      reader stands inside quotes. */
  function Fields(line: string, field: string, inQuotes: bool): seq<string> {
    if line == "" then [field]
    else if inQuotes then
      if line[0] != '"' then Fields(line[1..], field + [line[0]], true)
      else if |line| > 1 && line[1] == '"' then Fields(line[2..], field + "\"", true)
      else Fields(line[1..], field, false)
    else if line[0] == '"' then Fields(line[1..], field, true)
    else if line[0] == ',' then [field] + Fields(line[1..], "", false)
    else Fields(line[1..], field + [line[0]], false)
  }

  /** splitCSVRow */
  method SplitCSVRow(line: string) returns (fields: seq<string>)
    ensures fields == Fields(line, "", false)
  {
    fields := [];
    var field, inQuotes := "", false;
    var i := 0;
    while i < |line|
      invariant 0 <= i <= |line|
      invariant Fields(line, "", false) == fields + Fields(line[i..], field, inQuotes)
    {
      var ch := line[i];
      assert line[i..][1..] == line[i + 1..];
      if inQuotes {
        if ch == '"' {
          if i + 1 < |line| && line[i + 1] == '"' {
            assert line[i..][2..] == line[i + 2..];
            field := field + "\"";
            i := i + 1;
          } else {
            inQuotes := false;
          }
        } else {
          field := field + [ch];
        }
      } else if ch == '"' {
        inQuotes := true;
      } else if ch == ',' {
        var tail := Fields(line[i + 1..], "", false);
        assert fields + ([field] + tail) == (fields + [field]) + tail;
        fields := fields + [field];
        field := "";
      } else {
        field := field + [ch];
      }
      i := i + 1;
    }
    fields := fields + [field];
  }

  /** Reading a doubled text inside quotes gives the text and leaves the quotes. */
  lemma {:induction false} ReadQuoted(v: string, rest: string, field: string)
    requires rest == "" || rest[0] != '"'
    ensures Fields(DoubleQuotes(v) + "\"" + rest, field, true) == Fields(rest, field + v, false)
  {
    var line := DoubleQuotes(v) + "\"" + rest;
    if v == "" {
      assert line == "\"" + rest;
      assert line[1..] == rest;
      assert field + v == field;
    } else {
      var tail := DoubleQuotes(v[1..]) + "\"" + rest;
      assert field + [v[0]] + v[1..] == field + v;
      ReadQuoted(v[1..], rest, field + [v[0]]);
      if v[0] == '"' {
        assert line == "\"\"" + tail;
        assert line[2..] == tail;
      } else {
        assert line == [v[0]] + tail;
        assert line[1..] == tail;
      }
    }
  }

  lemma {:induction false} ReadPlain(v: string, rest: string, field: string)
    requires '"' !in v && ',' !in v
    ensures Fields(v + rest, field, false) == Fields(rest, field + v, false)
  {
    if v == "" {
      assert v + rest == rest && field + v == field;
    } else {
      assert (v + rest)[1..] == v[1..] + rest;
      assert field + [v[0]] + v[1..] == field + v;
      ReadPlain(v[1..], rest, field + [v[0]]);
    }
  }

  lemma QuotedLine(v: string, rest: string)
    requires NeedsQuotes(v)
    ensures var line := CsvCell(v) + rest; line[0] == '"' && line[1..] == DoubleQuotes(v) + "\"" + rest
  {}

  lemma ReadCell(v: string, rest: string)
    requires rest == "" || rest[0] == ','
    ensures Fields(CsvCell(v) + rest, "", false) == Fields(rest, v, false)
  {
    assert "" + v == v;
    if NeedsQuotes(v) {
      QuotedLine(v, rest);
      ReadQuoted(v, rest, "");
    } else {
      ReadPlain(v, rest, "");
    }
  }

  function Cells(vs: seq<string>): seq<string> {
    if vs == [] then [] else [CsvCell(vs[0])] + Cells(vs[1..])
  }

  /** Splitting the comma-join of any values' cells gives the values back. */
  lemma {:induction false} RowRoundTrip(vs: seq<string>)
    requires vs != []
    ensures Fields(Join(Cells(vs), ','), "", false) == vs
  {
    var row := Join(Cells(vs), ',');
    if |vs| == 1 {
      assert row == CsvCell(vs[0]) + "";
      ReadCell(vs[0], "");
    } else {
      var rest := "," + Join(Cells(vs[1..]), ',');
      assert Cells(vs)[1..] == Cells(vs[1..]);
      assert row == CsvCell(vs[0]) + rest;
      ReadCell(vs[0], rest);
      assert rest[1..] == Join(Cells(vs[1..]), ',');
      RowRoundTrip(vs[1..]);
      assert vs == [vs[0]] + vs[1..];
    }
  }

  lemma {:induction false} FieldsUseLineChars(line: string, field: string, inQuotes: bool, c: char)
    requires c !in line && c !in field && c != '"'
    ensures forall f :: f in Fields(line, field, inQuotes) ==> c !in f
  {
    if line != "" {
      if inQuotes {
        if line[0] != '"' {
          FieldsUseLineChars(line[1..], field + [line[0]], true, c);
        } else if |line| > 1 && line[1] == '"' {
          FieldsUseLineChars(line[2..], field + "\"", true, c);
        } else {
          FieldsUseLineChars(line[1..], field, false, c);
        }
      } else if line[0] == '"' {
        FieldsUseLineChars(line[1..], field, true, c);
      } else if line[0] == ',' {
        FieldsUseLineChars(line[1..], "", false, c);
      } else {
        FieldsUseLineChars(line[1..], field + [line[0]], false, c);
      }
    }
  }

  // -------------------------------------------------------------------------
  // The credential list reader
  // -------------------------------------------------------------------------

  /** Trim every line and keep those with something on them. */
  function NonBlank(lines: seq<string>): seq<string> {
    if lines == [] then []
    else
      var line := Trim(lines[0]);
      (if line != "" then [line] else []) + NonBlank(lines[1..])
  }

  function Records(lines: seq<string>): seq<seq<string>> {
    if lines == [] then [] else [Fields(lines[0], "", false)] + Records(lines[1..])
  }

  function TrimAll(cells: seq<string>): seq<string> {
    if cells == [] then [] else [Trim(cells[0])] + TrimAll(cells[1..])
  }

  function FieldAt(rec: seq<string>, i: nat): string {
    if i < |rec| then rec[i] else ""
  }

  function Prepend(out: seq<Entry>, r: Result<seq<Entry>>): Result<seq<Entry>> {
    match r case Ok(rest) => Ok(out + rest) case Err(e) => Err(e)
  }

  /** The entries of the data rows, or the complaint about the first bad one. */
  function Entries(recs: seq<seq<string>>, userIdx: nat, passIdx: nat): Result<seq<Entry>> {
    if recs == [] then Ok([])
    else
      var username, password := Trim(FieldAt(recs[0], userIdx)), FieldAt(recs[0], passIdx);
      if username == "" then Err(RowMissingUsername)
      else if password == "" then Err(RowMissingPassword)
      else Prepend([Entry(username, password)], Entries(recs[1..], userIdx, passIdx))
  }

  lemma PrependTwice(a: seq<Entry>, b: seq<Entry>, r: Result<seq<Entry>>)
    ensures Prepend(a, Prepend(b, r)) == Prepend(a + b, r) && Prepend([], r) == r
  {
    if r.Ok? {
      assert a + (b + r.value) == a + b + r.value && [] + r.value == r.value;
    }
  }

  function LoginCreds(body: string): Result<seq<Entry>> {
    var rows := Records(NonBlank(SplitLines(body, "")));
    if rows == [] then Err(LoginCredEmpty)
    else
      var header := TrimAll(rows[0]);
      var userIdx, passIdx := IndexOf(header, "username"), IndexOf(header, "password");
      if userIdx < 0 || passIdx < 0 then Err(LoginCredHeader)
      else match Entries(rows[1..], userIdx, passIdx)
        case Ok(out) => if out == [] then Err(NoRows) else Ok(out)
        case Err(e) => Err(e)
  }

  /** The row loop of parseLoginCredsCSV. */
  method ReadEntries(data: seq<seq<string>>, userIdx: nat, passIdx: nat) returns (r: Result<seq<Entry>>)
    ensures r == Entries(data, userIdx, passIdx)
  {
    var out: seq<Entry> := [];
    assert data[0..] == data;
    PrependTwice([], [], Entries(data, userIdx, passIdx));
    for k := 0 to |data|
      invariant Entries(data, userIdx, passIdx) == Prepend(out, Entries(data[k..], userIdx, passIdx))
    {
      var rec := data[k];
      assert data[k..][1..] == data[k + 1..];
      var username := if userIdx < |rec| then Trim(rec[userIdx]) else "";
      var password := if passIdx < |rec| then rec[passIdx] else "";
      if username == "" {
        return Err(RowMissingUsername);
      }
      if password == "" {
        return Err(RowMissingPassword);
      }
      PrependTwice(out, [Entry(username, password)], Entries(data[k + 1..], userIdx, passIdx));
      out := out + [Entry(username, password)];
    }
    r := Ok(out);
    assert out + [] == out;
  }

  /** parseLoginCredsCSV */
  method ParseLoginCredsCSV(body: string) returns (r: Result<seq<Entry>>)
    ensures r == LoginCreds(body)
  {
    var lines := NonBlank(SplitLines(body, ""));
    var rows: seq<seq<string>> := [];
    for k := 0 to |lines|
      invariant Records(lines) == rows + Records(lines[k..])
    {
      var fields := SplitCSVRow(lines[k]);
      assert rows + ([fields] + Records(lines[k + 1..])) == (rows + [fields]) + Records(lines[k + 1..]);
      rows := rows + [fields];
    }
    assert rows == Records(lines);
    if |rows| == 0 {
      return Err(LoginCredEmpty);
    }
    var header := TrimAll(rows[0]);
    var userIdx, passIdx := IndexOf(header, "username"), IndexOf(header, "password");
    if userIdx < 0 || passIdx < 0 {
      return Err(LoginCredHeader);
    }
    var entries := ReadEntries(rows[1..], userIdx, passIdx);
    if entries.Ok? && |entries.value| == 0 {
      return Err(NoRows);
    }
    r := entries;
  }


  // -------------------------------------------------------------------------
  // The pattern generator and the round trip through the reader
  // -------------------------------------------------------------------------

  const USER_INDEX := "{{.userIndex}}"

  /** tmpl with every {{.userIndex}} replaced by i. */
  function Render(tmpl: string, i: nat): string {
    if tmpl == "" then ""
    else if USER_INDEX <= tmpl then Decimal(i) + Render(tmpl[|USER_INDEX|..], i)
    else [tmpl[0]] + Render(tmpl[1..], i)
  }

  lemma {:induction false} RenderLiteral(a: string, rest: string, i: nat)
    requires '{' !in a
    ensures Render(a + rest, i) == a + Render(rest, i)
  {
    if a == "" {
      assert a + rest == rest && "" + Render(rest, i) == Render(rest, i);
    } else {
      assert a[0] in a && (a + rest)[1..] == a[1..] + rest;
      RenderLiteral(a[1..], rest, i);
      assert [a[0]] + (a[1..] + Render(rest, i)) == a + Render(rest, i);
    }
  }

  /** Text stays as it is, and the index takes the place of each {{.userIndex}} in it. */
  lemma RenderAround(a: string, b: string, i: nat)
    requires '{' !in a
    ensures Render(a, i) == a
    ensures Render(a + USER_INDEX + b, i) == a + Decimal(i) + Render(b, i)
  {
    RenderLiteral(a, "", i);
    assert a + "" == a;
    assert a + USER_INDEX + b == a + (USER_INDEX + b) && (USER_INDEX + b)[|USER_INDEX|..] == b;
    RenderLiteral(a, USER_INDEX + b, i);
  }

  datatype Format = Csv | Tokens

  function RowText(u: string, p: string): string {
    CsvCell(u) + "," + CsvCell(p)
  }

  function RowTexts(subject: string, token: string, count: nat): seq<string> {
    if count == 0 then []
    else RowTexts(subject, token, count - 1) + [RowText(Render(subject, count - 1), Render(token, count - 1))]
  }

  function TokenTexts(token: string, count: nat): seq<string> {
    if count == 0 then [] else TokenTexts(token, count - 1) + [Render(token, count - 1)]
  }

  /** A bare-token pool is the rendered token of each index, in order. */
  lemma {:induction false} TokenTextsAt(token: string, count: nat)
    ensures |TokenTexts(token, count)| == count
    ensures forall i :: 0 <= i < count ==> TokenTexts(token, count)[i] == Render(token, i)
  {
    if count > 0 {
      TokenTextsAt(token, count - 1);
    }
  }

  const HEADER := "username,password"

  /** generateCredentialRows */
  method GenerateCredentialRows(subject: string, token: string, count: int, format: Format) returns (r: Result<string>)
    ensures r.Ok? <==> 0 < count <= MAX_WEB_PATTERN_ROWS && Trim(token) != ""
    ensures count <= 0 ==> r == Err(PatternCount)
    ensures count > MAX_WEB_PATTERN_ROWS ==> r == Err(PatternOverCap)
    ensures 0 < count <= MAX_WEB_PATTERN_ROWS && Trim(token) == "" ==> r == Err(PatternTokenEmpty)
    ensures r.Ok? && format == Tokens ==> r.value == Join(TokenTexts(token, count), '\n')
    ensures r.Ok? && format == Csv ==> r.value == Join([HEADER] + RowTexts(subject, token, count), '\n')
  {
    if !(count > 0) {
      return Err(PatternCount);
    }
    if count > MAX_WEB_PATTERN_ROWS {
      return Err(PatternOverCap);
    }
    if Trim(token) == "" {
      return Err(PatternTokenEmpty);
    }
    var lines: seq<string> := [];
    if format == Tokens {
      for i := 0 to count
        invariant lines == TokenTexts(token, i)
      {
        lines := lines + [Render(token, i)];
      }
      return Ok(Join(lines, '\n'));
    }
    lines := [HEADER];
    for i := 0 to count
      invariant lines == [HEADER] + RowTexts(subject, token, i)
    {
      lines := lines + [CsvCell(Render(subject, i)) + "," + CsvCell(Render(token, i))];
    }
    r := Ok(Join(lines, '\n'));
  }

  /** What the reader makes of a generated password cell: quoting protects it, a bare
      one loses its trailing white space with the line's. */
  function Received(p: string): string {
    if NeedsQuotes(p) then p else TrimEnd(p)
  }

  /** A user name that reaches the reader whole. */
  predicate PlainUser(u: string) {
    u != "" && NoOuterSpace(u) && '\n' !in u
  }

  /** The condition on one rendered row: a caller can evaluate it before pasting. */
  predicate Transportable(u: string, p: string) {
    PlainUser(u) && p != "" && '\n' !in p && (NeedsQuotes(p) || !IsSpace(p[|p| - 1]))
  }

  lemma {:induction false} DoubledChars(v: string, c: char)
    requires c !in v && c != '"'
    ensures c !in DoubleQuotes(v)
  {
    if v != "" {
      DoubledChars(v[1..], c);
    }
  }

  lemma CellShape(v: string)
    requires v != "" && '\n' !in v
    ensures '\n' !in CsvCell(v) && |CsvCell(v)| > 0
    ensures CsvCell(v)[0] == if NeedsQuotes(v) then '"' else v[0]
    ensures CsvCell(v)[|CsvCell(v)| - 1] == if NeedsQuotes(v) then '"' else v[|v| - 1]
  {
    DoubledChars(v, '\n');
  }

  /** What trimming the row leaves of its last cell. */
  lemma RowTrimmed(u: string, p: string)
    requires PlainUser(u) && p != "" && '\n' !in p
    ensures RowText(u, p) != "" && IsLine(RowText(u, p))
    ensures Trim(RowText(u, p)) == CsvCell(u) + ("," + TrimEnd(CsvCell(p)))
  {
    CellShape(u);
    CellShape(p);
    var head := CsvCell(u) + ",";
    var row := RowText(u, p);
    assert row == head + CsvCell(p);
    assert row[0] == CsvCell(u)[0] && row[|row| - 1] == CsvCell(p)[|CsvCell(p)| - 1];
    assert TrimStart(row) == row;
    TrimEndConcat(head, CsvCell(p));
  }

  lemma ReadLastCell(p: string, cell: string)
    requires p != "" && cell == TrimEnd(CsvCell(p))
    ensures Fields(cell, "", false) == [Received(p)]
  {
    assert cell + "" == cell;
    if NeedsQuotes(p) {
      ReadCell(p, "");
      assert cell == CsvCell(p);
    } else {
      TrimEndFacts(p);
      ReadPlain(cell, "", "");
      assert "" + cell == cell;
    }
  }

  /** A generated row is one line, and reading it trimmed gives the user name and the
      received password. */
  lemma RowLine(u: string, p: string)
    requires PlainUser(u) && p != "" && '\n' !in p
    ensures IsLine(RowText(u, p))
    ensures Trim(RowText(u, p)) != "" && Fields(Trim(RowText(u, p)), "", false) == [u, Received(p)]
  {
    RowTrimmed(u, p);
    var cell := TrimEnd(CsvCell(p));
    ReadCell(u, "," + cell);
    assert ("," + cell)[1..] == cell;
    ReadLastCell(p, cell);
  }

  function RowsOf(us: seq<string>, ps: seq<string>): seq<string>
    requires |us| == |ps|
  {
    if us == [] then [] else [RowText(us[0], ps[0])] + RowsOf(us[1..], ps[1..])
  }

  function RecordsOf(us: seq<string>, ps: seq<string>): seq<seq<string>>
    requires |us| == |ps|
  {
    if us == [] then [] else [[us[0], Received(ps[0])]] + RecordsOf(us[1..], ps[1..])
  }

  function EntriesOf(us: seq<string>, ps: seq<string>): seq<Entry>
    requires |us| == |ps|
  {
    if us == [] then [] else [Entry(us[0], ps[0])] + EntriesOf(us[1..], ps[1..])
  }

  /** No line breaks inside the cells, nothing empty, users without outer space: the
      reader then sees one record per row. */
  predicate OneLineEach(us: seq<string>, ps: seq<string>)
    requires |us| == |ps|
  {
    forall i :: 0 <= i < |us| ==> PlainUser(us[i]) && ps[i] != "" && '\n' !in ps[i]
  }

  lemma {:induction false} RowsAreRecords(us: seq<string>, ps: seq<string>)
    requires |us| == |ps| && OneLineEach(us, ps)
    ensures forall l :: l in RowsOf(us, ps) ==> IsLine(l)
    ensures Records(NonBlank(RowsOf(us, ps))) == RecordsOf(us, ps)
  {
    if us != [] {
      RowLine(us[0], ps[0]);
      RowsAreRecords(us[1..], ps[1..]);
      var first := [Trim(RowText(us[0], ps[0]))];
      var rest := NonBlank(RowsOf(us[1..], ps[1..]));
      assert RowsOf(us, ps)[1..] == RowsOf(us[1..], ps[1..]);
      assert NonBlank(RowsOf(us, ps)) == first + rest;
      assert (first + rest)[1..] == rest;
    }
  }

  lemma HeaderLine()
    ensures IsLine(HEADER) && Trim(HEADER) == HEADER && HEADER != ""
    ensures Fields(HEADER, "", false) == ["username", "password"]
  {
    TrimFacts(HEADER);
    HeaderFields();
  }

  lemma HeaderFields()
    ensures Fields(HEADER, "", false) == ["username", "password"]
  {
    var tail := ",password";
    assert HEADER == "username" + tail;
    assert tail[1..] == "password" + "";
    ReadPlain("username", tail, "");
    ReadPlain("password", "", "");
    assert "" + "username" == "username" && "" + "password" == "password";
  }

  lemma HeaderColumns()
    ensures TrimAll(["username", "password"]) == ["username", "password"]
    ensures IndexOf(["username", "password"], "username") == 0
    ensures IndexOf(["username", "password"], "password") == 1
  {
    TrimFacts("username");
    TrimFacts("password");
    assert ["username", "password"][1..] == ["password"];
    assert "username"[0] != "password"[0];
  }

  lemma ReadGenerated(us: seq<string>, ps: seq<string>)
    requires |us| == |ps| > 0 && OneLineEach(us, ps)
    ensures LoginCreds(Join([HEADER] + RowsOf(us, ps), '\n')) == Entries(RecordsOf(us, ps), 0, 1)
  {
    var rows := RowsOf(us, ps);
    var lines := [HEADER] + rows;
    HeaderLine();
    RowsAreRecords(us, ps);
    SplitJoinedLines(lines);
    assert lines[1..] == rows;
    var kept := NonBlank(lines);
    assert kept == [HEADER] + NonBlank(rows);
    assert kept[1..] == NonBlank(rows);
    assert Records(kept) == [["username", "password"]] + RecordsOf(us, ps);
    assert Records(kept)[1..] == RecordsOf(us, ps);
    HeaderColumns();
    EntriesOfRecords(us, ps);
  }

  lemma {:induction false} EntriesOfRecords(us: seq<string>, ps: seq<string>)
    requires |us| == |ps| && OneLineEach(us, ps)
    ensures var e := Entries(RecordsOf(us, ps), 0, 1);
      (e.Ok? ==> |e.value| == |us|) &&
      (e == Ok(EntriesOf(us, ps)) <==> forall i :: 0 <= i < |us| ==> Received(ps[i]) == ps[i])
  {
    if us != [] {
      var recs := RecordsOf(us, ps);
      assert recs[1..] == RecordsOf(us[1..], ps[1..]);
      TrimFacts(us[0]);
      EntriesOfRecords(us[1..], ps[1..]);
      var rest := Entries(recs[1..], 0, 1);
      if Received(ps[0]) != "" && rest.Ok? {
        assert Entries(recs, 0, 1).value[1..] == rest.value;
        assert EntriesOf(us, ps)[1..] == EntriesOf(us[1..], ps[1..]);
        if forall i :: 0 <= i < |us| ==> Received(ps[i]) == ps[i] {
          forall i | 0 <= i < |us| - 1
            ensures Received(ps[1..][i]) == ps[1..][i]
          {
            assert ps[1..][i] == ps[i + 1];
          }
        }
        if Entries(recs, 0, 1) == Ok(EntriesOf(us, ps)) {
          forall i | 0 <= i < |us|
            ensures Received(ps[i]) == ps[i]
          {
            if i > 0 {
              assert ps[1..][i - 1] == ps[i];
            }
          }
        }
      } else if rest.Err? && (forall i :: 0 <= i < |us| ==> Received(ps[i]) == ps[i]) {
        forall i | 0 <= i < |us| - 1
          ensures Received(ps[1..][i]) == ps[1..][i]
        {
          assert ps[1..][i] == ps[i + 1];
        }
      }
    }
  }

  lemma ReceivedWhole(p: string)
    requires p != "" && '\n' !in p
    ensures Received(p) == p <==> NeedsQuotes(p) || !IsSpace(p[|p| - 1])
  {
    TrimEndFacts(p);
  }

  predicate OneLineFields(recs: seq<seq<string>>) {
    forall r, f :: r in recs && f in r ==> '\n' !in f
  }

  lemma {:induction false} EntriesAreClean(recs: seq<seq<string>>, userIdx: nat, passIdx: nat)
    requires OneLineFields(recs)
    ensures var e := Entries(recs, userIdx, passIdx);
      e.Ok? ==> forall x :: x in e.value ==> PlainUser(x.subject) && x.token != "" && '\n' !in x.token
  {
    if recs != [] {
      assert OneLineFields(recs[1..]);
      EntriesAreClean(recs[1..], userIdx, passIdx);
      TrimFacts(FieldAt(recs[0], userIdx));
      TrimFacts(Trim(FieldAt(recs[0], userIdx)));
      assert forall i :: 0 <= i < |recs[0]| ==> recs[0][i] in recs[0];
    }
  }

  lemma {:induction false} RecordsAreOneLine(lines: seq<string>)
    requires forall l :: l in lines ==> '\n' !in l
    ensures OneLineFields(Records(NonBlank(lines)))
  {
    if lines != [] {
      RecordsAreOneLine(lines[1..]);
      var line := Trim(lines[0]);
      TrimFacts(lines[0]);
      if line != "" {
        FieldsUseLineChars(line, "", false, '\n');
        assert NonBlank(lines)[1..] == NonBlank(lines[1..]);
      } else {
        assert NonBlank(lines) == NonBlank(lines[1..]);
      }
    }
  }

  /** Whatever text it is given, the reader only ever produces trimmed, non-empty user
      names and non-empty passwords, none with a line feed. */
  lemma ReaderOutputIsClean(body: string)
    ensures LoginCreds(body).Ok? ==> LoginCreds(body).value != []
    ensures LoginCreds(body).Ok? ==>
      forall x :: x in LoginCreds(body).value ==> PlainUser(x.subject) && x.token != "" && '\n' !in x.token
  {
    var rows := Records(NonBlank(SplitLines(body, "")));
    LinesHaveNoFeed(body, "");
    RecordsAreOneLine(SplitLines(body, ""));
    if rows != [] {
      var header := TrimAll(rows[0]);
      var userIdx, passIdx := IndexOf(header, "username"), IndexOf(header, "password");
      if userIdx >= 0 && passIdx >= 0 {
        assert OneLineFields(rows[1..]);
        EntriesAreClean(rows[1..], userIdx, passIdx);
      }
    }
  }

  lemma {:induction false} EntriesOfAt(us: seq<string>, ps: seq<string>)
    requires |us| == |ps|
    ensures |EntriesOf(us, ps)| == |us| && |RowsOf(us, ps)| == |us|
    ensures forall i :: 0 <= i < |us| ==> EntriesOf(us, ps)[i] == Entry(us[i], ps[i])
    ensures forall i :: 0 <= i < |us| ==> RowsOf(us, ps)[i] == RowText(us[i], ps[i])
  {
    if us != [] {
      EntriesOfAt(us[1..], ps[1..]);
    }
  }

  /** For any user names and passwords: the reader gives the list back exactly when
      every row is transportable. */
  lemma RowsRoundTrip(us: seq<string>, ps: seq<string>)
    requires |us| == |ps| > 0
    ensures LoginCreds(Join([HEADER] + RowsOf(us, ps), '\n')) == Ok(EntriesOf(us, ps))
       <==> forall i :: 0 <= i < |us| ==> Transportable(us[i], ps[i])
  {
    var body := Join([HEADER] + RowsOf(us, ps), '\n');
    EntriesOfAt(us, ps);
    if LoginCreds(body) == Ok(EntriesOf(us, ps)) {
      ReaderOutputIsClean(body);
      forall i | 0 <= i < |us|
        ensures PlainUser(us[i]) && ps[i] != "" && '\n' !in ps[i]
      {
        assert EntriesOf(us, ps)[i] in LoginCreds(body).value;
      }
    }
    if OneLineEach(us, ps) {
      ReadGenerated(us, ps);
      EntriesOfRecords(us, ps);
      forall i | 0 <= i < |us|
        ensures Received(ps[i]) == ps[i] <==> Transportable(us[i], ps[i])
      {
        ReceivedWhole(ps[i]);
      }
    }
  }

  function Rendered(tmpl: string, count: nat): (r: seq<string>)
    ensures |r| == count && forall i :: 0 <= i < count ==> r[i] == Render(tmpl, i)
  {
    if count == 0 then [] else Rendered(tmpl, count - 1) + [Render(tmpl, count - 1)]
  }

  lemma {:induction false} RowTextsAt(subject: string, token: string, count: nat)
    ensures |RowTexts(subject, token, count)| == count
    ensures forall i :: 0 <= i < count ==>
      RowTexts(subject, token, count)[i] == RowText(Render(subject, i), Render(token, i))
  {
    if count > 0 {
      RowTextsAt(subject, token, count - 1);
    }
  }

  lemma RowTextsAreRows(subject: string, token: string, count: nat)
    ensures RowTexts(subject, token, count) == RowsOf(Rendered(subject, count), Rendered(token, count))
  {
    EntriesOfAt(Rendered(subject, count), Rendered(token, count));
    RowTextsAt(subject, token, count);
  }

  /** Every row the two templates render is transportable. */
  predicate TransportablePattern(subject: string, token: string, count: nat) {
    forall i :: 0 <= i < count ==> Transportable(Render(subject, i), Render(token, i))
  }

  /** A generated pool comes back as exactly its `count` rendered rows if and only if
      each rendered row is transportable. */
  lemma GeneratedPoolRoundTrip(subject: string, token: string, count: nat)
    requires count > 0
    ensures LoginCreds(Join([HEADER] + RowTexts(subject, token, count), '\n'))
         == Ok(EntriesOf(Rendered(subject, count), Rendered(token, count)))
       <==> TransportablePattern(subject, token, count)
  {
    var us, ps := Rendered(subject, count), Rendered(token, count);
    RowTextsAreRows(subject, token, count);
    RowsRoundTrip(us, ps);
    if forall i :: 0 <= i < |us| ==> Transportable(us[i], ps[i]) {
      forall i | 0 <= i < count
        ensures Transportable(Render(subject, i), Render(token, i))
      {
        assert Transportable(us[i], ps[i]);
      }
    }
  }

  // -------------------------------------------------------------------------
  // Lists with other columns
  // -------------------------------------------------------------------------

  function LineOf(vs: seq<string>): string {
    Join(Cells(vs), ',')
  }

  function LinesOf(records: seq<seq<string>>): seq<string> {
    if records == [] then [] else [LineOf(records[0])] + LinesOf(records[1..])
  }

  /** A record written on one line that trimming leaves alone. */
  predicate Writable(vs: seq<string>) {
    vs != [] && LineOf(vs) != "" && NoOuterSpace(LineOf(vs)) && '\n' !in LineOf(vs)
  }

  lemma {:induction false} LinesAreRecords(records: seq<seq<string>>)
    requires forall i :: 0 <= i < |records| ==> Writable(records[i])
    ensures forall l :: l in LinesOf(records) ==> IsLine(l)
    ensures Records(NonBlank(LinesOf(records))) == records
  {
    if records != [] {
      var line, rest := LineOf(records[0]), LinesOf(records[1..]);
      LinesAreRecords(records[1..]);
      TrimFacts(line);
      RowRoundTrip(records[0]);
      assert LinesOf(records)[1..] == rest;
      assert NonBlank(LinesOf(records)) == [line] + NonBlank(rest);
      assert ([line] + NonBlank(rest))[1..] == NonBlank(rest);
      assert records == [records[0]] + records[1..];
    }
  }

  /** The column called name: the first whose trimmed heading is that. */
  predicate IsColumn(header: seq<string>, name: string, c: nat) {
    c < |header| && Trim(header[c]) == name && forall j :: 0 <= j < c ==> Trim(header[j]) != name
  }

  lemma {:induction false} ColumnIndex(header: seq<string>, name: string, c: nat)
    requires IsColumn(header, name, c)
    ensures IndexOf(TrimAll(header), name) == c
  {
    assert TrimAll(header)[1..] == TrimAll(header[1..]);
    if c > 0 {
      assert IsColumn(header[1..], name, c - 1);
      ColumnIndex(header[1..], name, c - 1);
    }
  }

  predicate HasCredential(row: seq<string>, u: nat, p: nat) {
    u < |row| && p < |row| && Trim(row[u]) != "" && row[p] != ""
  }

  /** e is what the two columns of the row say. */
  predicate ReadFrom(e: Entry, row: seq<string>, u: nat, p: nat) {
    u < |row| && p < |row| && e.subject == Trim(row[u]) && e.token == row[p]
  }

  lemma {:induction false} EntriesByColumn(rows: seq<seq<string>>, u: nat, p: nat)
    requires forall k :: 0 <= k < |rows| ==> HasCredential(rows[k], u, p)
    ensures var e := Entries(rows, u, p);
      && e.Ok? && |e.value| == |rows|
      && forall k :: 0 <= k < |rows| ==> ReadFrom(e.value[k], rows[k], u, p)
  {
    if rows != [] {
      assert HasCredential(rows[0], u, p);
      EntriesByColumn(rows[1..], u, p);
    }
  }

  /** Whatever other columns a list has and wherever the two stand, row k is read as its
      trimmed username cell and its password cell as it is. */
  lemma AnyHeaderIsRead(header: seq<string>, rows: seq<seq<string>>, u: nat, p: nat)
    requires IsColumn(header, "username", u) && IsColumn(header, "password", p) && rows != []
    requires Writable(header) && forall k :: 0 <= k < |rows| ==> Writable(rows[k]) && HasCredential(rows[k], u, p)
    ensures var r := LoginCreds(Join(LinesOf([header] + rows), '\n'));
      && r.Ok? && |r.value| == |rows|
      && forall k :: 0 <= k < |rows| ==> ReadFrom(r.value[k], rows[k], u, p)
  {
    var records := [header] + rows;
    LinesAreRecords(records);
    SplitJoinedLines(LinesOf(records));
    assert records[1..] == rows;
    ColumnIndex(header, "username", u);
    ColumnIndex(header, "password", p);
    EntriesByColumn(rows, u, p);
  }
}
