/** The manifest file as text: a header row of the seven columns, then one
    tab-separated, newline-terminated line per row, quoted as the csv module's
    minimal quoting does. */
module ManifestWriter {
  import opened Text
  import opened Manifest

  // ---------------------------------------------------------------------------
  // ManifestRow.to_tsv_row

  /** The row's fields in column order, the size written in decimal. */
  function ToTsvRow(row: ManifestRow): (fields: seq<string>)
    ensures |fields| == |ManifestColumns|
  {
    [row.guid, row.fileName, row.md5, IntToDecimal(row.size), row.acl, row.authz, row.urls]
  }

  /** Reads a row back from its seven fields, the size parsed as int() does. */
  function FromTsvRow(fields: seq<string>): Option<ManifestRow> {
    if |fields| != |ManifestColumns| then None
    else
      match ParseInt(fields[3])
      case None => None
      case Some(size) => Some(ManifestRow(fields[0], fields[1], fields[2], size, fields[4], fields[5], fields[6]))
  }

  /** Every row reads back from its fields: each column holds its own field and the
      size column holds the size in a form int() accepts. */
  lemma TsvRowRoundTrip(row: ManifestRow)
    ensures FromTsvRow(ToTsvRow(row)) == Some(row)
    ensures ParseInt(ToTsvRow(row)[3]) == Some(row.size)
  {
    ParseIntDecimal(row.size);
  }

  // ---------------------------------------------------------------------------
  // csv.writer(delimiter="\t", lineterminator="\n"), minimal quoting

  /** A field is quoted when it holds the delimiter, the quote character or a line break. */
  predicate NeedsQuoting(f: string) {
    '\t' in f || '"' in f || '\n' in f || '\r' in f
  }

  /** Quote characters inside a quoted field are doubled. */
  function Escape(f: string): string {
    if f == [] then [] else (if f[0] == '"' then "\"\"" else [f[0]]) + Escape(f[1..])
  }

  function Unescape(s: string): string {
    if s == [] then []
    else if |s| >= 2 && s[0] == '"' && s[1] == '"' then "\"" + Unescape(s[2..])
    else [s[0]] + Unescape(s[1..])
  }

  lemma {:induction false} UnescapeEscape(f: string)
    ensures Unescape(Escape(f)) == f
  {
    if f != [] {
      UnescapeEscape(f[1..]);
      var e := Escape(f);
      if f[0] == '"' {
        assert e == "\"\"" + Escape(f[1..]);
        assert e[2..] == Escape(f[1..]);
      } else {
        assert e == [f[0]] + Escape(f[1..]);
        assert e[1..] == Escape(f[1..]);
      }
      assert [f[0]] + f[1..] == f;
    }
  }

  /** One field as the writer puts it on the line. */
  function CsvField(f: string): string {
    if NeedsQuoting(f) then "\"" + Escape(f) + "\"" else f
  }

  /** A reader's view of one written field: a quoted field is unquoted, any other is
      taken as it stands. */
  function ReadField(s: string): string {
    if |s| >= 2 && s[0] == '"' && s[|s| - 1] == '"' then Unescape(s[1..|s| - 1]) else s
  }

  /** Every field reads back as it was written, quoted or not; a field that needs no
      quoting is written unchanged. */
  lemma CsvFieldRoundTrip(f: string)
    ensures ReadField(CsvField(f)) == f
    ensures !NeedsQuoting(f) ==> CsvField(f) == f
  {
    if NeedsQuoting(f) {
      var s := CsvField(f);
      assert s[1..|s| - 1] == Escape(f);
      UnescapeEscape(f);
    } else if f != [] {
      assert f[0] in f;
    }
  }

  function QuotedFields(fields: seq<string>): (r: seq<string>)
    ensures |r| == |fields|
  {
    seq(|fields|, i requires 0 <= i < |fields| => CsvField(fields[i]))
  }

  /** One record as written, line terminator excluded. */
  function Line(fields: seq<string>): string
    requires |fields| >= 1
  {
    Join(QuotedFields(fields), '\t')
  }

  /** The lines, each followed by the line terminator. */
  function Terminated(lines: seq<string>): string {
    if lines == [] then "" else Terminated(lines[..|lines| - 1]) + lines[|lines| - 1] + "\n"
  }

  /** The records written: the header, then each row's fields, in order. */
  function Records(rows: seq<ManifestRow>): (records: seq<seq<string>>)
    ensures |records| == |rows| + 1 && records[0] == ManifestColumns
    ensures forall i :: 0 <= i < |rows| ==> records[i + 1] == ToTsvRow(rows[i])
  {
    [ManifestColumns] + seq(|rows|, i requires 0 <= i < |rows| => ToTsvRow(rows[i]))
  }

  function Lines(records: seq<seq<string>>): (lines: seq<string>)
    requires forall i :: 0 <= i < |records| ==> |records[i]| >= 1
    ensures |lines| == |records|
  {
    seq(|records|, i requires 0 <= i < |records| => Line(records[i]))
  }

  /** The whole manifest file. */
  function ManifestText(rows: seq<ManifestRow>): string {
    Terminated(Lines(Records(rows)))
  }

  // ---------------------------------------------------------------------------
  // write_manifest

  lemma WriteStep(rows: seq<ManifestRow>, i: nat)
    requires i < |rows|
    ensures ManifestText(rows[..i + 1]) == ManifestText(rows[..i]) + Line(ToTsvRow(rows[i])) + "\n"
  {
    var before := Lines(Records(rows[..i]));
    var after := Lines(Records(rows[..i + 1]));
    assert after[..i + 1] == before;
    assert after[i + 1] == Line(ToTsvRow(rows[i]));
  }

  lemma WriteStart(rows: seq<ManifestRow>)
    ensures ManifestText(rows[..0]) == Line(ManifestColumns) + "\n"
  {
    var lines := Lines(Records(rows[..0]));
    assert lines == [Line(ManifestColumns)];
    TerminatedOne(Line(ManifestColumns));
  }

  lemma TerminatedOne(line: string)
    ensures Terminated([line]) == line + "\n"
  {
    assert [line][..0] == [];
  }

  /** write_manifest as text production: the header line, then one line per row. */
  method WriteManifest(rows: seq<ManifestRow>) returns (text: string)
    ensures text == ManifestText(rows)
  {
    text := Line(ManifestColumns) + "\n";
    WriteStart(rows);
    for i := 0 to |rows|
      invariant text == ManifestText(rows[..i])
    {
      WriteStep(rows, i);
      text := text + Line(ToTsvRow(rows[i])) + "\n";
    }
    assert rows[..|rows|] == rows;
  }

  // ---------------------------------------------------------------------------
  // Reading the text back

  /** A reader for text without quoting: lines on "\n", the final terminator's empty
      remainder dropped, fields on tab. */
  function ParseManifest(text: string): seq<seq<string>> {
    var pieces := Split(text, '\n');
    seq(|pieces| - 1, i requires 0 <= i < |pieces| - 1 => Split(pieces[i], '\t'))
  }

  lemma {:induction false} SplitTerminated(lines: seq<string>, s: string)
    requires forall i :: 0 <= i < |lines| ==> '\n' !in lines[i]
    ensures Split(Terminated(lines) + s, '\n') == lines + Split(s, '\n')
  {
    if lines != [] {
      var n := |lines| - 1;
      var front := lines[..n];
      var last := lines[n];
      Regroup(Terminated(front), last, "\n", s);
      SplitTerminated(front, last + ['\n'] + s);
      SplitAround(last, '\n', s);
      SplitWithoutSep(last, '\n');
      assert lines == front + [last];
      Regroup3(front, [last], Split(s, '\n'));
    } else {
      assert Terminated(lines) + s == s;
    }
  }

  /** The reader gives back each line's fields when no line holds a line break. */
  lemma ParseTerminated(lines: seq<string>, records: seq<seq<string>>)
    requires |lines| == |records|
    requires forall i :: 0 <= i < |lines| ==> '\n' !in lines[i] && Split(lines[i], '\t') == records[i]
    ensures ParseManifest(Terminated(lines)) == records
  {
    SplitTerminated(lines, "");
    assert Terminated(lines) + "" == Terminated(lines);
    assert Split(Terminated(lines), '\n') == lines + [""];
  }

  lemma {:induction false} JoinAvoids(fields: seq<string>, sep: char, c: char)
    requires |fields| >= 1 && c != sep
    requires forall k :: 0 <= k < |fields| ==> c !in fields[k]
    ensures c !in Join(fields, sep)
  {
    if |fields| > 1 {
      JoinAvoids(fields[1..], sep, c);
    }
  }

  /** No field holds a tab, a quote or a line break. */
  predicate CleanRecord(fields: seq<string>) {
    forall k :: 0 <= k < |fields| ==> !NeedsQuoting(fields[k])
  }

  /** Every string field of the row is clean (the size is digits anyway). */
  predicate CleanRow(row: ManifestRow) {
    && !NeedsQuoting(row.guid) && !NeedsQuoting(row.fileName) && !NeedsQuoting(row.md5)
    && !NeedsQuoting(row.acl) && !NeedsQuoting(row.authz) && !NeedsQuoting(row.urls)
  }

  lemma CleanLine(fields: seq<string>)
    requires |fields| >= 1 && CleanRecord(fields)
    ensures '\n' !in Line(fields)
    ensures Split(Line(fields), '\t') == fields
  {
    assert QuotedFields(fields) == fields by {
      forall k | 0 <= k < |fields| ensures QuotedFields(fields)[k] == fields[k] {
        CsvFieldRoundTrip(fields[k]);
      }
    }
    JoinAvoids(fields, '\t', '\n');
    SplitJoin(fields, '\t');
  }

  lemma IntToDecimalClean(n: int)
    ensures !NeedsQuoting(IntToDecimal(n))
  {
    var d := NatToDecimal(if n < 0 then -n else n);
    var s := IntToDecimal(n);
    assert forall i :: 0 <= i < |s| ==> s[i] == '-' || IsDigit(s[i]) by {
      if n < 0 {
        assert forall i :: 1 <= i < |s| ==> s[i] == d[i - 1];
      }
    }
  }

  /** When no field of any row holds a tab, a quote or a line break, the text splits back
      into the header and the rows' fields, in order, one line per record. */
  lemma RecordIsClean(rows: seq<ManifestRow>, i: nat)
    requires i <= |rows| && (i > 0 ==> CleanRow(rows[i - 1]))
    ensures CleanRecord(Records(rows)[i])
  {
    if i > 0 {
      IntToDecimalClean(rows[i - 1].size);
      assert Records(rows)[i] == ToTsvRow(rows[i - 1]);
    }
  }

  lemma ManifestRoundTrip(rows: seq<ManifestRow>)
    requires forall i :: 0 <= i < |rows| ==> CleanRow(rows[i])
    ensures ParseManifest(ManifestText(rows)) == Records(rows)
  {
    var records := Records(rows);
    var lines := Lines(records);
    forall i | 0 <= i < |records|
      ensures '\n' !in lines[i] && Split(lines[i], '\t') == records[i]
    {
      RecordIsClean(rows, i);
      CleanLine(records[i]);
    }
    ParseTerminated(lines, records);
  }

  /** The rows of a clean manifest read back from its text, each through its fields. */
  lemma ManifestRowsReadBack(rows: seq<ManifestRow>)
    requires forall i :: 0 <= i < |rows| ==> CleanRow(rows[i])
    ensures var records := ParseManifest(ManifestText(rows));
      && |records| == |rows| + 1 && records[0] == ManifestColumns
      && forall i :: 0 <= i < |rows| ==> FromTsvRow(records[i + 1]) == Some(rows[i])
  {
    ManifestRoundTrip(rows);
    forall i | 0 <= i < |rows| ensures FromTsvRow(ToTsvRow(rows[i])) == Some(rows[i]) {
      TsvRowRoundTrip(rows[i]);
    }
  }
}
