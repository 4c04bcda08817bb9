/**
 * The parsing half of the dashboard's `loadData`: the fetched text of
 * `orders.csv` is trimmed, split into lines, stripped of its header line,
 * reversed, and every line is split on commas into positional fields that
 * become one card each. Fetching and rendering are not modelled.
 */
module Dashboard {
  import opened Wrappers
  import opened Text

  /** The lines of the trimmed text; the first one is the header. */
  function Lines(text: string): (lines: seq<string>)
    ensures |lines| == Count(Trim(text), '\n') + 1
    ensures forall i :: 0 <= i < |lines| ==> '\n' !in lines[i]
    ensures Join(lines, '\n') == Trim(text)
  {
    Split(Trim(text), '\n')
  }

  /**
   * The rows the page renders, newest first: one per line after the header,
   * in reverse file order, each the comma-separated fields of its line. The
   * header line (line 0) is never among them.
   */
  function Parse(text: string): (rows: seq<seq<string>>)
    ensures |rows| == |Lines(text)| - 1 == Count(Trim(text), '\n')
    ensures forall i :: 0 <= i < |rows| ==> rows[i] == Split(Lines(text)[|rows| - i], ',')
  {
    var lines := Lines(text);
    ReverseOfTail(lines);
    var body := Reverse(lines[1..]);
    SplitEach(body)
  }

  /** Every line split on commas. */
  function SplitEach(lines: seq<string>): (rows: seq<seq<string>>)
    ensures |rows| == |lines|
    ensures forall i :: 0 <= i < |lines| ==> rows[i] == Split(lines[i], ',')
  {
    seq(|lines|, i requires 0 <= i < |lines| => Split(lines[i], ','))
  }

  /** Reversing all but the first element: position i holds element |s|-1-i. */
  lemma {:induction false} ReverseOfTail<T>(s: seq<T>)
    requires |s| > 0
    ensures |Reverse(s[1..])| == |s| - 1
    ensures forall i :: 0 <= i < |s| - 1 ==> Reverse(s[1..])[i] == s[|s| - 1 - i]
  {
    forall i | 0 <= i < |s| - 1 ensures Reverse(s[1..])[i] == s[|s| - 1 - i] {
      assert s[1..][|s| - 2 - i] == s[|s| - 1 - i];
    }
  }

  /** The eight names one row is destructured into; a name without a field is `undefined`. */
  datatype Card = Card(
    timestamp: Option<string>,
    token: Option<string>,
    buyExchange: Option<string>,
    sellExchange: Option<string>,
    buyPrice: Option<string>,
    sellPrice: Option<string>,
    profit: Option<string>,
    profitPercentage: Option<string>)

  /** Array destructuring: field i, or `undefined` past the end. */
  function Field(fields: seq<string>, i: nat): (f: Option<string>)
    ensures f.Some? <==> i < |fields|
    ensures f.Some? ==> f.value == fields[i]
  {
    if i < |fields| then Some(fields[i]) else None
  }

  /** The values of a card in the order of the destructuring pattern. */
  function Values(card: Card): seq<Option<string>>
  {
    [card.timestamp, card.token, card.buyExchange, card.sellExchange,
     card.buyPrice, card.sellPrice, card.profit, card.profitPercentage]
  }

  /**
   * `const [timestamp, token, ...] = line.split(",")`: the i-th name holds the
   * i-th field when there is one and `undefined` otherwise; fields past the
   * eighth are dropped.
   */
  function ToCard(fields: seq<string>): (card: Card)
    ensures forall i :: 0 <= i < 8 ==>
      Values(card)[i] == (if i < |fields| then Some(fields[i]) else None)
  {
    Card(Field(fields, 0), Field(fields, 1), Field(fields, 2), Field(fields, 3),
         Field(fields, 4), Field(fields, 5), Field(fields, 6), Field(fields, 7))
  }

  /** The cards appended to the page, one per non-header line of the trimmed text. */
  function Cards(text: string): (cards: seq<Card>)
    ensures |cards| == Count(Trim(text), '\n')
    ensures forall i :: 0 <= i < |cards| ==> cards[i] == ToCard(Parse(text)[i])
  {
    var rows := Parse(text);
    seq(|rows|, i requires 0 <= i < |rows| => ToCard(rows[i]))
  }

  /** Text that is empty or only whitespace yields no cards. */
  lemma {:induction false} BlankTextHasNoCards(text: string)
    requires AllWhitespace(text)
    ensures Cards(text) == []
  {
    TrimExact(text, [], []);
    assert text + [] + [] == text;
  }

  /** A header line alone yields no cards. */
  lemma {:induction false} HeaderOnlyHasNoCards(text: string)
    requires '\n' !in Trim(text)
    ensures Cards(text) == []
  {
    CountAbsent(Trim(text), '\n');
  }

  /** Trailing whitespace, such as the newline after the last record, adds no row. */
  lemma {:induction false} TrailingWhitespaceAddsNoRow(text: string, w: string)
    requires AllWhitespace(w)
    ensures Parse(text + w) == Parse(text)
  {
    TrimIgnoresTrailingWhitespace(text, w);
  }
}
