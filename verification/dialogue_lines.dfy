/**
  The dialogue line table of the dialogue manager: the `DialogueLine` record and
  the loader that turns the rows of the `dialogue_lines` table into a map from
  line id to line.
 */
module DialogueLines {
  import opened Outcomes

  /** Duration used when `line_duration` does not parse. */
  const DefaultDuration: real := 5.0
  /** Post-delay used when `post_delay` does not parse. */
  const DefaultPostDelay: real := 0.0

  /** The locales the loader accepts: one production locale and a test locale. */
  predicate SupportedLocale(locale: string) {
    locale == "en_US" || locale == "test"
  }

  /** One line of dialogue; never changed after loading. */
  datatype DialogueLine = DialogueLine(
    text: string,
    speaker: string,
    duration: real,
    postDelay: real,
    nextLine: string)

  /** One row of the table, from column name to cell text. */
  type Row = map<string, string>

  /** The floating-point parser: `Some(v)` when the cell parses, `None` otherwise. */
  type FloatParser = string -> Option<real>

  /** The column holding a line's text in the given locale. */
  function TextColumn(locale: string): string {
    "line_" + locale
  }

  /** The columns one row is read from, in the order the loader reads them. */
  function ColumnsRead(locale: string): seq<string> {
    ["line_duration", "post_delay", "line_id", TextColumn(locale), "line_speaker", "next_line"]
  }

  /** The row has every column the loader reads. */
  predicate HasColumns(row: Row, locale: string) {
    && "line_duration" in row && "post_delay" in row && "line_id" in row
    && TextColumn(locale) in row && "line_speaker" in row && "next_line" in row
  }

  /** The first column the loader reads that the row lacks (the lookup that throws). */
  function MissingColumnOf(row: Row, locale: string): (c: Option<string>)
    ensures c.None? <==> HasColumns(row, locale)
    ensures c.Some? ==> c.value in ColumnsRead(locale) && c.value !in row
    ensures c.Some? ==> exists i :: 0 <= i < |ColumnsRead(locale)| && ColumnsRead(locale)[i] == c.value
                                    && forall j :: 0 <= j < i ==> ColumnsRead(locale)[j] in row
  {
    var cols := ColumnsRead(locale);
    if cols[0] !in row then Some(cols[0])
    else if cols[1] !in row then Some(cols[1])
    else if cols[2] !in row then Some(cols[2])
    else if cols[3] !in row then Some(cols[3])
    else if cols[4] !in row then Some(cols[4])
    else if cols[5] !in row then Some(cols[5])
    else None
  }

  /** Parse a cell, falling back to `default` when it does not parse. */
  function ParseOr(parse: FloatParser, cell: string, default: real): real {
    match parse(cell)
    case Some(v) => v
    case None => default
  }

  /** The line a complete row describes. */
  function RowToLine(row: Row, locale: string, parse: FloatParser): (line: DialogueLine)
    requires HasColumns(row, locale)
    ensures line.text == row[TextColumn(locale)]
    ensures line.speaker == row["line_speaker"] && line.nextLine == row["next_line"]
    ensures parse(row["line_duration"]).Some? ==> line.duration == parse(row["line_duration"]).value
    ensures parse(row["line_duration"]).None? ==> line.duration == 5.0
    ensures parse(row["post_delay"]).Some? ==> line.postDelay == parse(row["post_delay"]).value
    ensures parse(row["post_delay"]).None? ==> line.postDelay == 0.0
  {
    DialogueLine(
      row[TextColumn(locale)],
      row["line_speaker"],
      ParseOr(parse, row["line_duration"], DefaultDuration),
      ParseOr(parse, row["post_delay"], DefaultPostDelay),
      row["next_line"])
  }

  /** The id a complete row is stored under. */
  function RowId(row: Row, locale: string): string
    requires HasColumns(row, locale)
  {
    row["line_id"]
  }

  /** Store one row: its line goes under its id, replacing whatever was there. */
  function StoreRow(lines: map<string, DialogueLine>, row: Row, locale: string, parse: FloatParser)
    : (r: map<string, DialogueLine>)
    requires HasColumns(row, locale)
    ensures r.Keys == lines.Keys + {RowId(row, locale)}
    ensures r[RowId(row, locale)] == RowToLine(row, locale, parse)
    ensures forall id :: id in lines && id != RowId(row, locale) ==> r[id] == lines[id]
  {
    lines[RowId(row, locale) := RowToLine(row, locale, parse)]
  }

  /** Why loading stopped with an exception. */
  datatype LoadError =
    | NotSupported             // an unsupported locale
    | MissingColumn(column: string)  // a row lacks a column the loader reads

  /** What loading did: returned a flag, or threw; either way the map as it was left. */
  datatype LoadOutcome =
    | Returned(ok: bool, lines: map<string, DialogueLine>)
    | Threw(error: LoadError, lines: map<string, DialogueLine>)

  predicate AllComplete(rows: seq<Row>, locale: string) {
    forall i :: 0 <= i < |rows| ==> HasColumns(rows[i], locale)
  }

  /** The loop over the rows, storing each one in turn. */
  function LoadRows(lines: map<string, DialogueLine>, rows: seq<Row>, locale: string, parse: FloatParser)
    : (r: LoadOutcome)
    ensures r.Returned? <==> AllComplete(rows, locale)
    ensures r.Returned? ==> r.ok
    ensures r.Threw? ==> r.error.MissingColumn?
    ensures lines.Keys <= r.lines.Keys
    decreases |rows|
  {
    if |rows| == 0 then Returned(true, lines)
    else match MissingColumnOf(rows[0], locale)
      case Some(c) => Threw(MissingColumn(c), lines)
      case None => LoadRows(StoreRow(lines, rows[0], locale, parse), rows[1..], locale, parse)
  }

  /**
    Load the table into `lines`. `data` is the table as read from the resource,
    `None` when the resource could not be read. An unsupported locale throws
    before the data is consulted; an unreadable resource returns false.
   */
  function LoadDialogLines(lines: map<string, DialogueLine>, locale: string, data: Option<seq<Row>>, parse: FloatParser)
    : (r: LoadOutcome)
    ensures locale != "en_US" && locale != "test" ==> r == Threw(NotSupported, lines)
    ensures SupportedLocale(locale) && data.None? ==> r == Returned(false, lines)
    ensures r.Returned? && r.ok ==> SupportedLocale(locale) && data.Some?
    ensures r.Threw? && r.error == NotSupported ==> r.lines == lines
    ensures SupportedLocale(locale) && data.Some? ==> r == LoadRows(lines, data.value, locale, parse)
  {
    if !SupportedLocale(locale) then Threw(NotSupported, lines)
    else match data
      case None => Returned(false, lines)
      case Some(rows) => LoadRows(lines, rows, locale, parse)
  }

  /** The outcome for an unsupported locale does not depend on the data. */
  lemma LocaleCheckedBeforeData(lines: map<string, DialogueLine>, locale: string,
                                d1: Option<seq<Row>>, d2: Option<seq<Row>>, parse: FloatParser)
    requires !SupportedLocale(locale)
    ensures LoadDialogLines(lines, locale, d1, parse) == LoadDialogLines(lines, locale, d2, parse)
    ensures LoadDialogLines(lines, locale, d1, parse).Threw?
  {
  }

  /** The ids of the complete rows. */
  function RowIds(rows: seq<Row>, locale: string): set<string> {
    set i | 0 <= i < |rows| && HasColumns(rows[i], locale) :: RowId(rows[i], locale)
  }

  /** Row `i` is the last row carrying its id. */
  predicate LastWithId(rows: seq<Row>, locale: string, i: int)
    requires AllComplete(rows, locale)
  {
    && 0 <= i < |rows|
    && forall j :: i < j < |rows| ==> RowId(rows[j], locale) != RowId(rows[i], locale)
  }

  lemma RowIdsCons(rows: seq<Row>, locale: string)
    requires AllComplete(rows, locale) && |rows| > 0
    ensures RowIds(rows, locale) == {RowId(rows[0], locale)} + RowIds(rows[1..], locale)
  {
    var rest := rows[1..];
    forall id | id in RowIds(rows, locale)
      ensures id in {RowId(rows[0], locale)} + RowIds(rest, locale)
    {
      var i :| 0 <= i < |rows| && HasColumns(rows[i], locale) && RowId(rows[i], locale) == id;
      if i > 0 {
        assert rest[i - 1] == rows[i];
      }
    }
    forall id | id in RowIds(rest, locale)
      ensures id in RowIds(rows, locale)
    {
      var i :| 0 <= i < |rest| && HasColumns(rest[i], locale) && RowId(rest[i], locale) == id;
      assert rows[i + 1] == rest[i];
    }
  }

  lemma LastWithIdInTail(rows: seq<Row>, locale: string, i: int)
    requires AllComplete(rows, locale) && LastWithId(rows, locale, i)
    ensures i > 0 ==> LastWithId(rows[1..], locale, i - 1) && rows[1..][i - 1] == rows[i]
    ensures i == 0 ==> RowId(rows[0], locale) !in RowIds(rows[1..], locale)
  {
    var rest := rows[1..];
    if i > 0 {
      forall j | i - 1 < j < |rest|
        ensures RowId(rest[j], locale) != RowId(rest[i - 1], locale)
      {
        assert rest[j] == rows[j + 1];
      }
    } else {
      forall j | 0 <= j < |rest|
        ensures RowId(rest[j], locale) != RowId(rows[0], locale)
      {
        assert rest[j] == rows[j + 1];
      }
    }
  }

  /**
    Loading complete rows stores every row's line under its id; where ids repeat,
    the last row wins; entries whose id no row mentions are left as they were,
    and nothing else is added.
   */
  lemma {:induction false} LoadRowsLastWins(lines: map<string, DialogueLine>, rows: seq<Row>, locale: string, parse: FloatParser)
    requires AllComplete(rows, locale)
    ensures LoadRows(lines, rows, locale, parse).Returned?
    ensures LoadRows(lines, rows, locale, parse).lines.Keys == lines.Keys + RowIds(rows, locale)
    ensures forall i :: LastWithId(rows, locale, i) ==>
              LoadRows(lines, rows, locale, parse).lines[RowId(rows[i], locale)] == RowToLine(rows[i], locale, parse)
    ensures forall id :: id in lines && id !in RowIds(rows, locale) ==>
              LoadRows(lines, rows, locale, parse).lines[id] == lines[id]
    decreases |rows|
  {
    if |rows| == 0 {
      assert RowIds(rows, locale) == {};
    } else {
      var first := StoreRow(lines, rows[0], locale, parse);
      var rest := rows[1..];
      assert AllComplete(rest, locale);
      LoadRowsLastWins(first, rest, locale, parse);
      RowIdsCons(rows, locale);
      var m := LoadRows(lines, rows, locale, parse).lines;
      assert m == LoadRows(first, rest, locale, parse).lines;
      forall i | LastWithId(rows, locale, i)
        ensures m[RowId(rows[i], locale)] == RowToLine(rows[i], locale, parse)
      {
        LastWithIdInTail(rows, locale, i);
      }
    }
  }

  /**
    The first incomplete row throws on the first column it lacks, after every row
    before it has been stored.
   */
  lemma {:induction false} FirstIncompleteRowThrows(lines: map<string, DialogueLine>, rows: seq<Row>, locale: string,
                                                    parse: FloatParser, i: nat)
    requires i < |rows| && AllComplete(rows[..i], locale) && !HasColumns(rows[i], locale)
    ensures LoadRows(lines, rows, locale, parse)
            == Threw(MissingColumn(MissingColumnOf(rows[i], locale).value), LoadRows(lines, rows[..i], locale, parse).lines)
    decreases i
  {
    if i > 0 {
      var prefix := rows[..i];
      var rest := rows[1..];
      var tail := rest[..i - 1];
      assert prefix[0] == rows[0] && HasColumns(rows[0], locale);
      assert prefix[1..] == tail;
      assert rest[i - 1] == rows[i];
      var first := StoreRow(lines, rows[0], locale, parse);
      assert AllComplete(tail, locale) by {
        forall k | 0 <= k < |tail| ensures HasColumns(tail[k], locale) {
          assert tail[k] == prefix[k + 1];
        }
      }
      assert LoadRows(lines, rows, locale, parse) == LoadRows(first, rest, locale, parse);
      assert LoadRows(lines, prefix, locale, parse) == LoadRows(first, tail, locale, parse);
      FirstIncompleteRowThrows(first, rest, locale, parse, i - 1);
    }
  }

  /** Loading a readable table in a supported locale succeeds exactly when every row is complete. */
  lemma LoadSucceedsIffRowsComplete(lines: map<string, DialogueLine>, locale: string, rows: seq<Row>, parse: FloatParser)
    requires SupportedLocale(locale)
    ensures LoadDialogLines(lines, locale, Some(rows), parse) == Returned(true, LoadRows(lines, rows, locale, parse).lines)
            <==> AllComplete(rows, locale)
  {
  }

  /** A later row with the same id replaces the earlier one, and no other entry changes. */
  lemma {:induction false} LaterRowReplaces(lines: map<string, DialogueLine>, a: Row, b: Row, locale: string, parse: FloatParser)
    requires HasColumns(a, locale) && HasColumns(b, locale)
    requires RowId(a, locale) == RowId(b, locale)
    ensures LoadRows(lines, [a, b], locale, parse) ==
            Returned(true, lines[RowId(a, locale) := RowToLine(b, locale, parse)])
  {
    assert [a, b][1..] == [b];
    assert [b][1..] == [];
    var m1 := StoreRow(lines, a, locale, parse);
    var m2 := StoreRow(m1, b, locale, parse);
    assert LoadRows(lines, [a, b], locale, parse) == LoadRows(m1, [b], locale, parse);
    assert LoadRows(m1, [b], locale, parse) == LoadRows(m2, [], locale, parse);
    assert m2 == lines[RowId(a, locale) := RowToLine(b, locale, parse)];
  }
}
