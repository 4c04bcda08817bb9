/**
 * `log_arbitrage_to_csv`: the append-only opportunity log `orders.csv`.
 * The file is `None` while it does not exist and otherwise the rows it
 * holds; the wall-clock timestamp is an input, and the rounding of the
 * numeric columns is the opaque `render` function.
 */
module OrderLog {
  import opened Wrappers
  import opened Text

  /** One CSV row: its fields in column order. */
  type Row = seq<string>

  /** The header row, which also fixes the column order of every record. */
  const FieldNames: Row :=
    ["datetime", "symbol", "buy_exchange", "sell_exchange", "buy_price", "sell_price", "profit", "profit_%"]

  /** The arguments of one call. */
  datatype Entry = Entry(
    symbol: string,
    buyExchange: string,
    sellExchange: string,
    buyPrice: real,
    sellPrice: real,
    profit: real,
    profitPct: real)

  /** One call: the timestamp `datetime.now()` produced, and the arguments. */
  datatype Call = Call(timestamp: string, entry: Entry)

  /** `render(x, n)` is the text the CSV writer prints for `round(x, n)`. */
  type Render = (real, nat) -> string

  /** The store: absent, or the rows of an existing file. */
  type Store = Option<seq<Row>>

  /** The `data` dictionary of one call: its keys are exactly the header's names. */
  function RecordData(timestamp: string, e: Entry, render: Render): (data: map<string, string>)
    ensures forall k :: k in data <==> k in FieldNames
  {
    map[
      "datetime" := timestamp,
      "symbol" := e.symbol,
      "buy_exchange" := e.buyExchange,
      "sell_exchange" := e.sellExchange,
      "buy_price" := render(e.buyPrice, 6),
      "sell_price" := render(e.sellPrice, 6),
      "profit" := render(e.profit, 6),
      "profit_%" := render(e.profitPct, 4)]
  }

  /** `DictWriter` raises ValueError for a key that is not one of its field names. */
  datatype DictError = UnknownFields

  /**
   * What `DictWriter.writerow` turns a dictionary into: the values in field
   * name order, the empty string for a missing key, an error for a key that
   * is not a field name.
   */
  function DictRow(data: map<string, string>, fieldnames: Row): (r: Result<Row, DictError>)
    ensures r.Failure? <==> exists k :: k in data && k !in fieldnames
    ensures r.Success? ==> |r.value| == |fieldnames|
    ensures r.Success? ==> forall i :: 0 <= i < |fieldnames| && fieldnames[i] in data ==>
      r.value[i] == data[fieldnames[i]]
    ensures r.Success? ==> forall i :: 0 <= i < |fieldnames| && fieldnames[i] !in data ==>
      r.value[i] == ""
  {
    if exists k :: k in data && k !in fieldnames then
      Failure(UnknownFields)
    else
      Success(seq(|fieldnames|, i requires 0 <= i < |fieldnames| =>
        if fieldnames[i] in data then data[fieldnames[i]] else ""))
  }

  /** The data row one call writes: one value per header name, the value the dictionary gives that name. */
  function Record(timestamp: string, e: Entry, render: Render): (row: Row)
    ensures |row| == |FieldNames|
    ensures forall i :: 0 <= i < |FieldNames| ==> row[i] == RecordData(timestamp, e, render)[FieldNames[i]]
  {
    [timestamp, e.symbol, e.buyExchange, e.sellExchange,
     render(e.buyPrice, 6), render(e.sellPrice, 6), render(e.profit, 6), render(e.profitPct, 4)]
  }

  /**
   * `writer.writerow(data)` succeeds and writes `Record`: every key of the
   * dictionary is a field name, and column i holds the value the dictionary
   * gives the header's i-th name.
   */
  lemma {:induction false} RecordFollowsHeader(timestamp: string, e: Entry, render: Render)
    ensures DictRow(RecordData(timestamp, e, render), FieldNames) == Success(Record(timestamp, e, render))
  {
    var data := RecordData(timestamp, e, render);
    var r := DictRow(data, FieldNames);
    assert r.Success? && |r.value| == 8;
    var row := Record(timestamp, e, render);
    assert r.value == row;
  }

  /**
   * One call: a missing store is created with the header and the record;
   * an existing one, even an empty one, keeps all its rows and gains
   * exactly the record.
   */
  function Log(store: Store, call: Call, render: Render): (r: Store)
    ensures r.Some?
    ensures store.Some? ==> store.value <= r.value && |r.value| == |store.value| + 1
    ensures store.None? ==> |r.value| == 2 && r.value[0] == FieldNames
    ensures r.value[|r.value| - 1] == Record(call.timestamp, call.entry, render)
  {
    var row := Record(call.timestamp, call.entry, render);
    match store
    case None => Some([FieldNames, row])
    case Some(rows) => Some(rows + [row])
  }

  /** Successive calls, in call order. */
  function LogAll(store: Store, calls: seq<Call>, render: Render): Store
    decreases |calls|
  {
    if calls == [] then store else LogAll(Log(store, calls[0], render), calls[1..], render)
  }

  /** The data rows of a sequence of calls. */
  function Records(calls: seq<Call>, render: Render): (rows: seq<Row>)
    ensures |rows| == |calls|
  {
    seq(|calls|, i requires 0 <= i < |calls| => Record(calls[i].timestamp, calls[i].entry, render))
  }

  /** Calls against an existing store leave its rows in front and append one record per call, in order. */
  lemma {:induction false} LogAllAppends(rows: seq<Row>, calls: seq<Call>, render: Render)
    ensures LogAll(Some(rows), calls, render) == Some(rows + Records(calls, render))
    decreases |calls|
  {
    if calls != [] {
      var row := Record(calls[0].timestamp, calls[0].entry, render);
      assert Log(Some(rows), calls[0], render) == Some(rows + [row]);
      assert LogAll(Some(rows), calls, render) == LogAll(Some(rows + [row]), calls[1..], render);
      LogAllAppends(rows + [row], calls[1..], render);
      RecordsCons(calls, render);
      assert rows + [row] + Records(calls[1..], render) == rows + ([row] + Records(calls[1..], render));
    } else {
      assert Records(calls, render) == [];
      assert rows + [] == rows;
    }
  }

  /** Starting without a store, n calls leave one header followed by the n records in call order. */
  lemma {:induction false} FreshLogLayout(calls: seq<Call>, render: Render)
    requires calls != []
    ensures LogAll(None, calls, render) == Some([FieldNames] + Records(calls, render))
  {
    var row := Record(calls[0].timestamp, calls[0].entry, render);
    assert Log(None, calls[0], render) == Some([FieldNames, row]);
    assert LogAll(None, calls, render) == LogAll(Some([FieldNames, row]), calls[1..], render);
    LogAllAppends([FieldNames, row], calls[1..], render);
    RecordsCons(calls, render);
    assert [FieldNames, row] + Records(calls[1..], render) == [FieldNames] + ([row] + Records(calls[1..], render));
  }

  /** The records of a non-empty call sequence: the first call's record, then the rest's. */
  lemma {:induction false} RecordsCons(calls: seq<Call>, render: Render)
    requires calls != []
    ensures Records(calls, render) == [Record(calls[0].timestamp, calls[0].entry, render)] + Records(calls[1..], render)
  {
    var rest := Records(calls[1..], render);
    forall i | 1 <= i < |calls| ensures Records(calls, render)[i] == rest[i - 1] {
      assert calls[i] == calls[1..][i - 1];
    }
  }

  /** An existing but empty file never receives the header: it holds only the records. */
  lemma {:induction false} EmptyFileGetsNoHeader(calls: seq<Call>, render: Render)
    ensures LogAll(Some([]), calls, render) == Some(Records(calls, render))
  {
    LogAllAppends([], calls, render);
    assert [] + Records(calls, render) == Records(calls, render);
  }

  // ---- The CSV text (the `excel` dialect of Python's csv module, minimal quoting)

  /** The line terminator of the `excel` dialect. */
  const ExcelTerminator: string := "\r\n"

  /**
   * A field is quoted when it holds the delimiter, the quote character, CR,
   * LF or a terminator character; with an LF or CRLF terminator that is
   * exactly a comma, a quote, a CR or an LF.
   */
  function NeedsQuotes(field: string, term: string): (b: bool)
    ensures term == "\n" || term == ExcelTerminator ==>
      (b <==> ',' in field || '"' in field || '\r' in field || '\n' in field)
  {
    exists i :: 0 <= i < |field| &&
      (field[i] == ',' || field[i] == '"' || field[i] == '\r' || field[i] == '\n' || field[i] in term)
  }

  /** What a CSV reader makes of the inside of a quoted field: every doubled quote collapsed to one. */
  function Undouble(s: string): string
  {
    if s == [] then ""
    else if |s| >= 2 && s[0] == '"' && s[1] == '"' then "\"" + Undouble(s[2..])
    else [s[0]] + Undouble(s[1..])
  }

  /** Every quote character doubled, so that a reader collapsing doubled quotes gets the text back. */
  function DoubleQuotes(s: string): (r: string)
    ensures |r| == |s| + Count(s, '"')
    ensures Undouble(r) == s
  {
    if s == [] then ""
    else
      var rest := DoubleQuotes(s[1..]);
      var head := if s[0] == '"' then "\"\"" else [s[0]];
      var r := head + rest;
      assert s[0] == '"' ==> r[2..] == rest;
      assert s[0] != '"' ==> r[1..] == rest;
      assert [s[0]] + s[1..] == s;
      r
  }

  /**
   * One field as the writer prints it: verbatim when it needs no quoting,
   * otherwise between quotes with the inside reading back as the field.
   */
  function EncodeField(field: string, term: string): (r: string)
    ensures !NeedsQuotes(field, term) ==> r == field
    ensures NeedsQuotes(field, term) ==>
      && |r| == |field| + Count(field, '"') + 2
      && r[0] == '"' && r[|r| - 1] == '"' && Undouble(r[1..|r| - 1]) == field
  {
    if NeedsQuotes(field, term) then "\"" + DoubleQuotes(field) + "\"" else field
  }

  /** The fields of a row, encoded and separated by commas (the terminator is not included). */
  function EncodeRow(row: Row, term: string): string
  {
    Join(seq(|row|, i requires 0 <= i < |row| => EncodeField(row[i], term)), ',')
  }

  /** A row's line starts with its first field's encoding and ends with its last field's. */
  lemma {:induction false} EncodeRowEnds(row: Row, term: string)
    requires |row| > 0
    ensures EncodeField(row[0], term) <= EncodeRow(row, term)
    ensures var line, last := EncodeRow(row, term), EncodeField(row[|row| - 1], term);
      |last| <= |line| && line[|line| - |last|..] == last
  {
    var fields := seq(|row|, i requires 0 <= i < |row| => EncodeField(row[i], term));
    JoinEnds(fields, ',');
  }

  /** The file text of a sequence of rows: each encoded row followed by the terminator. */
  function Serialize(rows: seq<Row>, term: string): string
  {
    if rows == [] then "" else EncodeRow(rows[0], term) + term + Serialize(rows[1..], term)
  }

  /** No rows make an empty file, and a file with rows always ends with a terminator. */
  lemma {:induction false} SerializeEndsWithTerminator(rows: seq<Row>, term: string)
    ensures rows == [] ==> Serialize(rows, term) == ""
    ensures rows != [] ==> var text := Serialize(rows, term);
      |term| <= |text| && text[|text| - |term|..] == term
  {
    if rows != [] {
      var rest := Serialize(rows[1..], term);
      var text := EncodeRow(rows[0], term) + term + rest;
      if rest != [] {
        SerializeEndsWithTerminator(rows[1..], term);
        assert rows[1..] != [];
        assert text[|text| - |term|..] == rest[|rest| - |term|..];
      }
    }
  }

  /** The file text, absent while the file does not exist. */
  function Contents(store: Store, term: string): Option<string>
  {
    match store
    case None => None
    case Some(rows) => Some(Serialize(rows, term))
  }

  /** Fields that need no quoting are written verbatim. */
  lemma {:induction false} PlainRowVerbatim(row: Row, term: string)
    requires forall i :: 0 <= i < |row| ==> !NeedsQuotes(row[i], term)
    ensures EncodeRow(row, term) == Join(row, ',')
  {
    assert seq(|row|, i requires 0 <= i < |row| => EncodeField(row[i], term)) == row;
  }

  lemma {:induction false} SerializeAppend(rows: seq<Row>, row: Row, term: string)
    ensures Serialize(rows + [row], term) == Serialize(rows, term) + EncodeRow(row, term) + term
  {
    if rows == [] {
      assert rows + [row] == [row];
    } else {
      assert (rows + [row])[1..] == rows[1..] + [row];
      SerializeAppend(rows[1..], row, term);
    }
  }

  /**
   * The file is opened for appending and never rewritten: an existing file's
   * text is kept as it is and followed by exactly the new record's line; a
   * missing file gets the header line and then the record's line.
   */
  lemma {:induction false} LogOnlyAppendsText(store: Store, call: Call, render: Render, term: string)
    ensures var row := Record(call.timestamp, call.entry, render);
      Contents(Log(store, call, render), term) ==
        if store.Some? then Some(Contents(store, term).value + EncodeRow(row, term) + term)
        else Some(EncodeRow(FieldNames, term) + term + EncodeRow(row, term) + term)
  {
    var row := Record(call.timestamp, call.entry, render);
    if store.Some? {
      SerializeAppend(store.value, row, term);
    } else {
      assert Log(store, call, render) == Some([FieldNames, row]);
      SerializeTwo(FieldNames, row, term);
    }
  }

  /** The text of two rows: the first row's line, then the second's. */
  lemma {:induction false} SerializeTwo(first: Row, second: Row, term: string)
    ensures Serialize([first, second], term) == EncodeRow(first, term) + term + EncodeRow(second, term) + term
  {
    assert [first, second][1..] == [second];
    assert [second][1..] == [];
    assert Serialize([second], term) == EncodeRow(second, term) + term + "";
  }
}
