/**
 * The logger and the dashboard together: the text `log_arbitrage_to_csv`
 * writes, read back by `loadData`. The reader splits lines on LF only, so the
 * writer's terminator matters: with LF the records come back exactly, newest
 * first; with the `excel` dialect's CRLF every record but the newest keeps
 * the CR at the end of its last field.
 */
module RoundTrip {
  import opened Wrappers
  import opened Text
  import opened OrderLog
  import opened Dashboard

  /** A field the writer leaves unquoted and the reader does not cut: no comma, quote, CR or LF. */
  predicate PlainField(f: string)
  {
    forall i :: 0 <= i < |f| ==> f[i] != ',' && f[i] != '"' && f[i] != '\r' && f[i] != '\n'
  }

  /**
   * A row that survives the trip: eight plain fields, the last of which does
   * not end in whitespace (the reader trims the end of the whole text).
   */
  predicate Transportable(row: Row)
  {
    && |row| == 8
    && (forall i :: 0 <= i < |row| ==> PlainField(row[i]))
    && (row[7] == [] || !IsJsWhitespace(row[7][|row[7]| - 1]))
  }

  /** A row that can open the file: its first field starts with non-whitespace. */
  predicate Leads(row: Row)
  {
    |row| > 0 && row[0] != [] && !IsJsWhitespace(row[0][0])
  }

  /** The two line terminators of interest: LF, and the `excel` dialect's CRLF. */
  predicate SupportedTerminator(term: string)
    ensures SupportedTerminator(term) ==> AllWhitespace(term)
  {
    term == "\n" || term == ExcelTerminator
  }

  /** The part of a terminator before its LF. */
  function Carriage(term: string): string
    requires SupportedTerminator(term)
  {
    term[..|term| - 1]
  }

  /** `row` with `tail` appended to its last field. */
  function AppendToLast(row: Row, tail: string): (r: Row)
    requires |row| > 0
    ensures |r| == |row| && r[|r| - 1] == row[|row| - 1] + tail
  {
    row[..|row| - 1] + [row[|row| - 1] + tail]
  }

  /** What the reader sees of records written with a given carriage: all but the newest gain it. */
  function AsRead(records: seq<Row>, carriage: string): (rows: seq<Row>)
    requires forall j :: 0 <= j < |records| ==> |records[j]| > 0
    ensures |rows| == |records|
  {
    seq(|records|, j requires 0 <= j < |records| =>
      if j < |records| - 1 then AppendToLast(records[j], carriage) else records[j])
  }

  /** The lines of the serialized text, each line but the last still holding the carriage. */
  function TextLines(rows: seq<Row>, term: string): (lines: seq<string>)
    requires SupportedTerminator(term)
    ensures |lines| == |rows|
  {
    seq(|rows|, i requires 0 <= i < |rows| =>
      if i < |rows| - 1 then EncodeRow(rows[i], term) + Carriage(term) else EncodeRow(rows[i], term))
  }

  lemma {:induction false} SerializeAsLines(rows: seq<Row>, term: string)
    requires SupportedTerminator(term)
    requires |rows| > 0
    ensures Serialize(rows, term) == Join(TextLines(rows, term), '\n') + term
  {
    var e0 := EncodeRow(rows[0], term);
    if |rows| == 1 {
      assert TextLines(rows, term) == [e0];
      assert Serialize(rows[1..], term) == "";
    } else {
      var tail := TextLines(rows[1..], term);
      SerializeAsLines(rows[1..], term);
      TextLinesCons(rows, term);
      JoinCons(e0 + Carriage(term), tail, '\n');
      LineStep(e0, Carriage(term), Join(tail, '\n'), term);
    }
  }

  /** The lines of two or more rows: the first row's line with the carriage, then the lines of the rest. */
  lemma {:induction false} TextLinesCons(rows: seq<Row>, term: string)
    requires SupportedTerminator(term)
    requires |rows| > 1
    ensures TextLines(rows, term) == [EncodeRow(rows[0], term) + Carriage(term)] + TextLines(rows[1..], term)
  {
    var lines := TextLines(rows, term);
    var tail := TextLines(rows[1..], term);
    forall i | 1 <= i < |rows| ensures lines[i] == tail[i - 1] {
      assert rows[i] == rows[1..][i - 1];
    }
  }

  lemma {:induction false} LineStep(e0: string, carriage: string, rest: string, term: string)
    requires term == carriage + "\n"
    ensures e0 + term + (rest + term) == (e0 + carriage) + "\n" + rest + term
  {
  }

  lemma {:induction false} PlainRowEncoding(row: Row, term: string)
    requires SupportedTerminator(term)
    requires forall i :: 0 <= i < |row| ==> PlainField(row[i])
    ensures EncodeRow(row, term) == Join(row, ',')
    ensures '\n' !in EncodeRow(row, term)
  {
    forall i | 0 <= i < |row| ensures !NeedsQuotes(row[i], term) {
      assert forall k :: 0 <= k < |row[i]| ==> row[i][k] !in term;
    }
    PlainRowVerbatim(row, term);
    forall i | 0 <= i < |row| ensures ',' !in row[i] {
      assert forall k :: 0 <= k < |row[i]| ==> row[i][k] != ',';
    }
    NoNewlineInJoin(row);
  }

  lemma {:induction false} NoNewlineInJoin(row: Row)
    requires forall i :: 0 <= i < |row| ==> PlainField(row[i])
    ensures '\n' !in Join(row, ',')
  {
    if |row| > 1 {
      NoNewlineInJoin(row[1..]);
      assert '\n' !in row[0] by {
        assert forall k :: 0 <= k < |row[0]| ==> row[0][k] != '\n';
      }
    } else if |row| == 1 {
      assert forall k :: 0 <= k < |row[0]| ==> row[0][k] != '\n';
    }
  }

  /** Splitting a plain row's line on commas gives the row back. */
  lemma {:induction false} ReadPlainLine(row: Row, term: string)
    requires SupportedTerminator(term)
    requires |row| > 0 && forall i :: 0 <= i < |row| ==> PlainField(row[i])
    ensures Split(EncodeRow(row, term), ',') == row
  {
    PlainRowEncoding(row, term);
    forall i | 0 <= i < |row| ensures ',' !in row[i] {
      assert forall k :: 0 <= k < |row[i]| ==> row[i][k] != ',';
    }
    SplitJoin(row, ',');
  }

  /** Splitting a plain row's line, with a carriage appended, gives the row with the carriage on its last field. */
  lemma {:induction false} ReadLine(row: Row, term: string, carriage: string)
    requires SupportedTerminator(term)
    requires carriage == "" || carriage == Carriage(term)
    requires |row| > 0 && forall i :: 0 <= i < |row| ==> PlainField(row[i])
    ensures Split(EncodeRow(row, term) + carriage, ',') == AppendToLast(row, carriage)
  {
    PlainRowEncoding(row, term);
    JoinExtendLast(row, ',', carriage);
    var ext := AppendToLast(row, carriage);
    forall i | 0 <= i < |ext| ensures ',' !in ext[i] {
      if i < |row| - 1 {
        assert ext[i] == row[i];
        assert forall k :: 0 <= k < |row[i]| ==> row[i][k] != ',';
      } else {
        assert ext[i] == row[i] + carriage;
        assert forall k :: 0 <= k < |row[i]| ==> row[i][k] != ',';
        assert forall k :: 0 <= k < |carriage| ==> carriage[k] != ',';
      }
    }
    SplitJoin(ext, ',');
  }

  /** The last character of a transportable row's line is not whitespace. */
  lemma {:induction false} LineEndsVisibly(row: Row, term: string)
    requires SupportedTerminator(term)
    requires Transportable(row)
    ensures |EncodeRow(row, term)| > 0
    ensures !IsJsWhitespace(EncodeRow(row, term)[|EncodeRow(row, term)| - 1])
  {
    PlainRowEncoding(row, term);
    var line := Join(row, ',');
    JoinEnds(row, ',');
    var last := row[7];
    if last == [] {
      JoinSeparatorBeforeLast(row, ',');
    } else {
      assert line[|line| - 1] == last[|last| - 1];
    }
  }

  lemma {:induction false} NoNewlineInLines(rows: seq<Row>, term: string)
    requires SupportedTerminator(term)
    requires forall i :: 0 <= i < |rows| ==> Transportable(rows[i])
    ensures forall i :: 0 <= i < |rows| ==> '\n' !in TextLines(rows, term)[i]
  {
    var lines := TextLines(rows, term);
    var carriage := Carriage(term);
    assert '\n' !in carriage;
    forall i | 0 <= i < |rows| ensures '\n' !in lines[i] {
      PlainRowEncoding(rows[i], term);
    }
  }

  /** The written text is its lines joined by LF, followed by the terminator and nothing else. */
  lemma {:induction false} WrittenTextShape(rows: seq<Row>, term: string)
    requires SupportedTerminator(term)
    requires |rows| > 0 && Leads(rows[0])
    requires forall i :: 0 <= i < |rows| ==> Transportable(rows[i])
    ensures var x := Join(TextLines(rows, term), '\n');
      && Serialize(rows, term) == x + term
      && |x| > 0 && !IsJsWhitespace(x[0]) && !IsJsWhitespace(x[|x| - 1])
  {
    var lines := TextLines(rows, term);
    var n := |rows| - 1;
    SerializeAsLines(rows, term);
    var x := Join(lines, '\n');
    JoinEnds(lines, '\n');
    PlainRowEncoding(rows[0], term);
    JoinEnds(rows[0], ',');
    assert x[0] == lines[0][0] == rows[0][0][0];
    LineEndsVisibly(rows[n], term);
    assert lines[n] == EncodeRow(rows[n], term);
    assert x[|x| - 1] == lines[n][|lines[n]| - 1];
  }

  /** The reader's lines of the written text are the written lines. */
  lemma {:induction false} LinesOfWrittenText(rows: seq<Row>, term: string)
    requires SupportedTerminator(term)
    requires |rows| > 0 && Leads(rows[0])
    requires forall i :: 0 <= i < |rows| ==> Transportable(rows[i])
    ensures Lines(Serialize(rows, term)) == TextLines(rows, term)
  {
    var lines := TextLines(rows, term);
    var text := Serialize(rows, term);
    NoNewlineInLines(rows, term);
    WrittenTextShape(rows, term);
    LinesOfJoin(text, lines, term);
  }

  /** A text made of LF-free lines joined by LF, with no whitespace at either end of the join, then trailing whitespace. */
  lemma {:induction false} LinesOfJoin(text: string, lines: seq<string>, w: string)
    requires |lines| > 0 && forall i :: 0 <= i < |lines| ==> '\n' !in lines[i]
    requires AllWhitespace(w)
    requires var x := Join(lines, '\n');
      text == x + w && |x| > 0 && !IsJsWhitespace(x[0]) && !IsJsWhitespace(x[|x| - 1])
    ensures Lines(text) == lines
  {
    var x := Join(lines, '\n');
    assert [] + x + w == text;
    TrimExact([], x, w);
    SplitJoin(lines, '\n');
    assert Lines(text) == Split(x, '\n');
  }

  /**
   * The file the logger writes, a leading row followed by records, reads
   * back as the records, newest first, each older record with the
   * terminator's carriage on its last field; the leading row never shows.
   */
  lemma {:induction false} ReadBack(header: Row, records: seq<Row>, term: string)
    requires SupportedTerminator(term)
    requires Transportable(header) && Leads(header)
    requires forall j :: 0 <= j < |records| ==> Transportable(records[j])
    ensures forall j :: 0 <= j < |records| ==> |records[j]| > 0
    ensures Parse(Serialize([header] + records, term)) == Reverse(AsRead(records, Carriage(term)))
  {
    var rows := [header] + records;
    assert forall i :: 0 <= i < |rows| ==> Transportable(rows[i]) by {
      assert forall i :: 1 <= i < |rows| ==> rows[i] == records[i - 1];
    }
    LinesOfWrittenText(rows, term);
    TextLinesAfterHeader(header, records, term);
    ParseFromLines(Serialize(rows, term), records, term);
  }

  /** A text whose lines after the first are the records' lines parses as the records, newest first. */
  lemma {:induction false} ParseFromLines(text: string, records: seq<Row>, term: string)
    requires SupportedTerminator(term)
    requires forall j :: 0 <= j < |records| ==> Transportable(records[j])
    requires |Lines(text)| > 0 && Lines(text)[1..] == TextLines(records, term)
    ensures forall j :: 0 <= j < |records| ==> |records[j]| > 0
    ensures Parse(text) == Reverse(AsRead(records, Carriage(term)))
  {
    var lines := Lines(text);
    var cells := SplitEach(lines);
    var read := AsRead(records, Carriage(term));
    ReadRecordLines(records, term);
    CellsAfterHeader(lines, cells, TextLines(records, term), read);
    ReverseAfterFirst(Parse(text), cells, read);
  }

  /** The split lines after the first are the readings of the body lines. */
  lemma {:induction false} CellsAfterHeader(lines: seq<string>, cells: seq<Row>, body: seq<string>, read: seq<Row>)
    requires |lines| > 0 && lines[1..] == body && |body| == |read|
    requires cells == SplitEach(lines)
    requires forall k :: 0 <= k < |body| ==> Split(body[k], ',') == read[k]
    ensures forall k :: 0 <= k < |read| ==> cells[k + 1] == read[k]
  {
    forall k | 0 <= k < |read| ensures cells[k + 1] == read[k] {
      assert lines[k + 1] == body[k];
    }
  }

  /** Dropping the first element and reversing: the shape of `slice(1)` then `reverse()`. */
  lemma {:induction false} ReverseAfterFirst<T>(parsed: seq<T>, cells: seq<T>, rows: seq<T>)
    requires |cells| == |rows| + 1 == |parsed| + 1
    requires forall i :: 0 <= i < |parsed| ==> parsed[i] == cells[|parsed| - i]
    requires forall k :: 0 <= k < |rows| ==> cells[k + 1] == rows[k]
    ensures parsed == Reverse(rows)
  {
    var n := |rows|;
    forall i | 0 <= i < n ensures parsed[i] == Reverse(rows)[i] {
      assert cells[n - i] == cells[(n - 1 - i) + 1];
    }
  }

  /** Every record's line, split on commas, is that record as the reader sees it. */
  lemma {:induction false} ReadRecordLines(records: seq<Row>, term: string)
    requires SupportedTerminator(term)
    requires forall j :: 0 <= j < |records| ==> Transportable(records[j])
    ensures forall j :: 0 <= j < |records| ==> |records[j]| > 0
    ensures forall k :: 0 <= k < |records| ==>
      Split(TextLines(records, term)[k], ',') == AsRead(records, Carriage(term))[k]
  {
    forall k | 0 <= k < |records|
      ensures Split(TextLines(records, term)[k], ',') == AsRead(records, Carriage(term))[k]
    {
      ReadRecordLine(records, term, k);
    }
  }

  /** After the leading row, the lines of the file are the records' lines. */
  lemma {:induction false} TextLinesAfterHeader(header: Row, records: seq<Row>, term: string)
    requires SupportedTerminator(term)
    ensures TextLines([header] + records, term)[1..] == TextLines(records, term)
  {
    var rows := [header] + records;
    assert forall i :: 1 <= i < |rows| ==> rows[i] == records[i - 1];
  }

  /** Record j's line, split on commas, is record j as the reader sees it. */
  lemma {:induction false} ReadRecordLine(records: seq<Row>, term: string, k: nat)
    requires SupportedTerminator(term)
    requires forall j :: 0 <= j < |records| ==> Transportable(records[j])
    requires k < |records|
    ensures forall j :: 0 <= j < |records| ==> |records[j]| > 0
    ensures Split(TextLines(records, term)[k], ',') == AsRead(records, Carriage(term))[k]
  {
    var row := records[k];
    assert Transportable(row);
    if k < |records| - 1 {
      assert TextLines(records, term)[k] == EncodeRow(row, term) + Carriage(term);
      ReadLine(row, term, Carriage(term));
    } else {
      assert TextLines(records, term)[k] == EncodeRow(row, term);
      ReadPlainLine(row, term);
    }
  }

  /** A row whose last field is empty ends its line with the separator. */
  lemma {:induction false} JoinSeparatorBeforeLast(row: Row, sep: char)
    requires |row| > 1 && row[|row| - 1] == []
    ensures |Join(row, sep)| > 0 && Join(row, sep)[|Join(row, sep)| - 1] == sep
  {
    var init := row[..|row| - 1];
    assert row == init + [[]];
    JoinSnoc(init, [], sep);
  }

  // ---- The logger's file as the dashboard shows it

  /** The header row is plain and starts with a letter. */
  lemma HeaderIsTransportable()
    ensures Transportable(FieldNames) && Leads(FieldNames)
  {
    forall i | 0 <= i < |FieldNames| ensures PlainField(FieldNames[i]) {
      PlainName(i);
    }
    assert FieldNames[7] == "profit_%";
  }

  /** Header names are lower-case letters, underscores and a percent sign. */
  lemma PlainName(i: nat)
    requires i < |FieldNames|
    ensures PlainField(FieldNames[i])
  {
    LowercasePlain(FieldNames[i]);
  }

  lemma {:induction false} LowercasePlain(f: string)
    requires forall k :: 0 <= k < |f| ==> 'a' <= f[k] <= 'z' || f[k] == '_' || f[k] == '%'
    ensures PlainField(f)
  {
  }

  /** With an empty carriage the reader sees the records unchanged. */
  lemma {:induction false} AsReadWithoutCarriage(records: seq<Row>)
    requires forall j :: 0 <= j < |records| ==> |records[j]| > 0
    ensures AsRead(records, "") == records
  {
    forall j | 0 <= j < |records| ensures AsRead(records, "")[j] == records[j] {
      var row := records[j];
      assert row[|row| - 1] + "" == row[|row| - 1];
      assert row[..|row| - 1] + [row[|row| - 1]] == row;
    }
  }

  /** With LF line endings the records come back exactly, newest first. */
  lemma {:induction false} ReadBackLf(header: Row, records: seq<Row>)
    requires Transportable(header) && Leads(header)
    requires forall j :: 0 <= j < |records| ==> Transportable(records[j])
    ensures Parse(Serialize([header] + records, "\n")) == Reverse(records)
  {
    LfCarriage();
    ReadBack(header, records, "\n");
    AsReadWithoutCarriage(records);
  }

  /** LF is supported, and its carriage is empty. */
  lemma LfCarriage()
    ensures SupportedTerminator("\n") && Carriage("\n") == ""
  {
  }

  /** With CRLF line endings every record but the newest comes back with a CR after its last field. */
  lemma {:induction false} ReadBackCrLf(header: Row, records: seq<Row>)
    requires Transportable(header) && Leads(header)
    requires forall j :: 0 <= j < |records| ==> Transportable(records[j])
    ensures forall j :: 0 <= j < |records| ==> |records[j]| > 0
    ensures Parse(Serialize([header] + records, ExcelTerminator)) == Reverse(AsRead(records, "\r"))
  {
    ExcelCarriage();
    ReadBack(header, records, ExcelTerminator);
  }

  /** The `excel` dialect's terminator is supported, and its carriage is CR. */
  lemma ExcelCarriage()
    ensures SupportedTerminator(ExcelTerminator) && Carriage(ExcelTerminator) == "\r"
  {
    assert ExcelTerminator[..1] == "\r";
  }

  /**
   * What a reading with a carriage looks like field by field: the newest
   * record comes back exactly, and every older one keeps its eight fields,
   * the first seven unchanged and the carriage after the last (the profit
   * percentage).
   */
  lemma {:induction false} CarriageOnOlderRecords(parsed: seq<Row>, records: seq<Row>, carriage: string)
    requires forall j :: 0 <= j < |records| ==> |records[j]| == 8
    requires |records| > 0 && parsed == Reverse(AsRead(records, carriage))
    ensures |parsed| == |records|
    ensures parsed[0] == records[|records| - 1]
    ensures forall i :: 1 <= i < |records| ==>
      && |parsed[i]| == 8
      && parsed[i][..7] == records[|records| - 1 - i][..7]
      && parsed[i][7] == records[|records| - 1 - i][7] + carriage
  {
    var n := |records|;
    NewestRecordRead(records, carriage);
    forall i | 1 <= i < n
      ensures |parsed[i]| == 8 && parsed[i][..7] == records[n - 1 - i][..7]
      ensures parsed[i][7] == records[n - 1 - i][7] + carriage
    {
      OlderRecordRead(records, carriage, n - 1 - i);
    }
  }

  /** The newest record is read back unchanged. */
  lemma {:induction false} NewestRecordRead(records: seq<Row>, carriage: string)
    requires forall k :: 0 <= k < |records| ==> |records[k]| > 0
    requires |records| > 0
    ensures AsRead(records, carriage)[|records| - 1] == records[|records| - 1]
  {
  }

  /** An older record is read back with its first seven fields unchanged and the carriage on its last. */
  lemma {:induction false} OlderRecordRead(records: seq<Row>, carriage: string, j: nat)
    requires forall k :: 0 <= k < |records| ==> |records[k]| == 8
    requires j < |records| - 1
    ensures |AsRead(records, carriage)[j]| == 8
    ensures AsRead(records, carriage)[j][..7] == records[j][..7]
    ensures AsRead(records, carriage)[j][7] == records[j][7] + carriage
  {
    assert AsRead(records, carriage)[j] == AppendToLast(records[j], carriage);
    assert AppendToLast(records[j], carriage)[..7] == records[j][..7];
  }

  /**
   * With LF line endings, a log created by n calls shows exactly the n
   * records, newest first, each card carrying the record's fields under the
   * names of the columns they were written in.
   */
  lemma {:induction false} DashboardShowsLogNewestFirst(calls: seq<Call>, render: Render)
    requires calls != []
    requires forall j :: 0 <= j < |calls| ==> Transportable(Records(calls, render)[j])
    ensures var text := Contents(LogAll(None, calls, render), "\n");
      && text.Some?
      && Parse(text.value) == Reverse(Records(calls, render))
      && |Cards(text.value)| == |calls|
      && forall i :: 0 <= i < |calls| ==>
           Cards(text.value)[i] == ToCard(Records(calls, render)[|calls| - 1 - i])
  {
    FreshLogLayout(calls, render);
    HeaderedTextShowsNewestFirst(Records(calls, render));
  }

  /** The header line followed by records, written with LF, shows the records as cards, newest first. */
  lemma {:induction false} HeaderedTextShowsNewestFirst(records: seq<Row>)
    requires forall j :: 0 <= j < |records| ==> Transportable(records[j])
    ensures var text := Serialize([FieldNames] + records, "\n");
      && Parse(text) == Reverse(records)
      && |Cards(text)| == |records|
      && forall i :: 0 <= i < |records| ==> Cards(text)[i] == ToCard(records[|records| - 1 - i])
  {
    HeaderIsTransportable();
    ReadBackLf(FieldNames, records);
    CardsOfRecords(Serialize([FieldNames] + records, "\n"), records);
  }

  /** A text that parses as records newest first shows one card per record, newest first. */
  lemma {:induction false} CardsOfRecords(text: string, records: seq<Row>)
    requires Parse(text) == Reverse(records)
    ensures |Cards(text)| == |records|
    ensures forall i :: 0 <= i < |records| ==> Cards(text)[i] == ToCard(records[|records| - 1 - i])
  {
  }

  /**
   * With the `excel` dialect's CRLF line endings, a log created by n calls
   * reads back as its records newest first, every record except the newest
   * with a CR at the end of its last field, because the reader splits on LF
   * only. The read-back is stated as an equality with `AsRead`;
   * `CarriageOnOlderRecords` spells it out field by field.
   */
  lemma {:induction false} DashboardKeepsCarriageReturns(calls: seq<Call>, render: Render)
    requires calls != []
    requires forall j :: 0 <= j < |calls| ==> Transportable(Records(calls, render)[j])
    ensures forall j :: 0 <= j < |calls| ==> |Records(calls, render)[j]| > 0
    ensures var text := Contents(LogAll(None, calls, render), ExcelTerminator);
      && text.Some?
      && Parse(text.value) == Reverse(AsRead(Records(calls, render), "\r"))
  {
    FreshLogLayout(calls, render);
    HeaderIsTransportable();
    ReadBackCrLf(FieldNames, Records(calls, render));
  }

  /**
   * A log file that exists but is empty never gets a header, so the
   * dashboard takes the first record for one and shows only the others.
   */
  lemma {:induction false} EmptyFileHidesFirstRecord(calls: seq<Call>, render: Render)
    requires calls != []
    requires forall j :: 0 <= j < |calls| ==> Transportable(Records(calls, render)[j])
    requires Leads(Records(calls, render)[0])
    ensures var text := Contents(LogAll(Some([]), calls, render), "\n");
      && text.Some?
      && Parse(text.value) == Reverse(Records(calls, render)[1..])
  {
    EmptyFileGetsNoHeader(calls, render);
    HeaderlessReadBack(Records(calls, render));
  }

  /** Without a header, the first written row takes the header's place and is never shown. */
  lemma {:induction false} HeaderlessReadBack(records: seq<Row>)
    requires |records| > 0 && Leads(records[0])
    requires forall j :: 0 <= j < |records| ==> Transportable(records[j])
    ensures Parse(Serialize(records, "\n")) == Reverse(records[1..])
  {
    RestTransportable(records);
    ReadBackSplit(records, records[0], records[1..]);
  }

  lemma {:induction false} RestTransportable(records: seq<Row>)
    requires |records| > 0
    requires forall j :: 0 <= j < |records| ==> Transportable(records[j])
    ensures forall j :: 0 <= j < |records| - 1 ==> Transportable(records[1..][j])
  {
  }

  lemma {:induction false} ReadBackSplit(records: seq<Row>, first: Row, rest: seq<Row>)
    requires records == [first] + rest
    requires Transportable(first) && Leads(first)
    requires forall j :: 0 <= j < |rest| ==> Transportable(rest[j])
    ensures Parse(Serialize(records, "\n")) == Reverse(rest)
  {
    ReadBackLf(first, rest);
  }

  /** The dashboard's names line up with the logger's columns: card field i is column i. */
  lemma {:induction false} CardNamesMatchColumns(timestamp: string, e: Entry, render: Render)
    ensures ToCard(Record(timestamp, e, render)) == Card(
      Some(timestamp), Some(e.symbol), Some(e.buyExchange), Some(e.sellExchange),
      Some(render(e.buyPrice, 6)), Some(render(e.sellPrice, 6)),
      Some(render(e.profit, 6)), Some(render(e.profitPct, 4)))
  {
  }
}
