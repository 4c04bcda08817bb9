# arbitrage-dashboard in Dafny

This project models the pure core of the arbitrage-dashboard repository:

- a bot (`bot.py`) that reads the top of the order book for five symbols on
  Binance and KuCoin, and announces a cross-venue trade when the first
  profitable direction it tests (Binance's bid against KuCoin's ask, then the
  reverse) earns at least 0.5 percent of the buy price;
- the logger `log_arbitrage_to_csv` (`log_to_csv.py`), which appends one
  record per call to `orders.csv` and writes the header only when it creates
  the file;
- the dashboard's `loadData` (`app/script.js`), which trims the CSV text,
  drops the header line, reverses the rest and destructures each line into
  eight named fields.

The modules are:

- `OrderBook`: `get_price` over a fetched book or a failed fetch.
- `Arbitrage`: the per-symbol decision, with prices as exact `real`s.
- `Scanner`: the loop over `SYMBOLS`, as written and with per-symbol failures contained.
- `OrderLog`: the logger as a transition on `Option<seq<Row>>`, where `None` means the file does not exist. It also covers the CSV text that Python's `csv` module writes in its `excel` dialect with minimal quoting.
- `Dashboard`: the parsing half of `loadData`.
- `Text`: JavaScript's `split`, `trim` and `reverse`, with their laws.
- `RoundTrip`: the logger's file as the dashboard reads it.

Three inputs are parameters:

- The line terminator of the CSV writer. The `excel` dialect writes CRLF, while the dashboard splits on LF only.
- The wall-clock timestamp of each log call.
- `render(x, n)`: the text the writer prints for `round(x, n)`.

Three behaviours of the code worth knowing:

- When both directions are profitable, the first test (`bid1 > ask2`, Binance's bid against KuCoin's ask) decides. The larger spread does not. If that first direction falls short of 0.5 percent, the symbol is below threshold, and the other direction is never looked at even when it would clear the threshold.
- The two venues are queried one after the other. They are not queried concurrently.
- A zero buy price raises inside the loop and ends the whole pass. See Findings.

## Model

| member | source | states |
|---|---|---|
| OrderBook.FirstPrice | bot.py:41-42 | the price of a side's first level, and absent exactly when the side has no levels |
| OrderBook.GetPrice | bot.py:38-46 | a failed fetch gives neither bid nor ask; otherwise each side is present iff it has levels, and then it is that side's first-level price |
| OrderBook.TopOfBookIsBest | bot.py:41-42 | on books sorted the way exchanges publish them, the chosen bid is the highest bid and the chosen ask is the lowest ask |
| Arbitrage.Settle | bot.py:76-81 | it fails with a division by zero exactly when the buy price is 0; it is below threshold exactly when the margin is under the threshold, where the margin is stated by cross-multiplication without division; a non-zero buy price whose margin reaches the threshold gives an opportunity; an opportunity carries the given venues and prices, profit = sell - buy, pct * buy = profit * 100, and pct >= threshold |
| Arbitrage.PercentageVersusThreshold | bot.py:77-79 | for a non-zero buy price, `profit / buy * 100 >= t` holds iff the profit reaches t percent of the buy price, for both signs of the buy price |
| Arbitrage.Evaluate | bot.py:58-81 | NoData iff some price is missing; Binance bid > KuCoin ask means buy on KuCoin at its ask and sell on Binance at its bid; otherwise KuCoin bid > Binance ask means the reverse trade; NoArbitrage iff all prices are present and neither holds; every opportunity has profit > 0, sell > buy, two different venues and pct >= threshold |
| Arbitrage.UncrossedBooksAreSymmetric | bot.py:62-74 | when neither venue's own book is crossed, swapping the venues' quotes gives the same verdict with the venue names swapped, so the test order does not matter |
| Arbitrage.LowerThresholdKeepsOpportunity | bot.py:79-81 | an opportunity at one threshold is the same opportunity at every lower threshold |
| Arbitrage.SourceOrderBeatsLargerSpread | bot.py:62-71 | Binance 105/100 against KuCoin 110/104: the KuCoin-to-Binance trade with profit 1 is chosen although buying on Binance at 100 and selling on KuCoin at 110 would earn 10 |
| Arbitrage.ThresholdIsInclusive | bot.py:79-81 | a margin of exactly 0.5 percent is an opportunity and not below threshold |
| Arbitrage.ScenarioOpportunity | bot.py:62-81 | Binance 100.00/100.10 against KuCoin 100.80/100.90: buy on Binance at 100.1, sell on KuCoin at 100.8, profit 0.7, margin between 0.699 and 0.7 percent |
| Arbitrage.ScenarioBelowThreshold | bot.py:79-81 | the same quotes against a 1 percent threshold are below threshold |
| Arbitrage.FirstDirectionHidesSecond | bot.py:62-81 | Binance 100.1/100 against KuCoin 110/100 is below threshold: the first direction tested earns 0.1 percent, while the reverse trade would reach 0.5 percent |
| Scanner.ScanAsWritten | bot.py:54-81 | the pass the loop actually makes is a prefix of the full scan, every outcome in it except the last is a success, and it is cut short only right after a division by zero |
| Scanner.EvaluateSymbol | bot.py:55-81 | a failed fetch on either venue gives no data; the pass can only fault when one venue's best ask is 0; an opportunity has a positive profit and reaches 0.5 percent |
| Scanner.Scan | bot.py:48-81 | one outcome per symbol, in `SYMBOLS` order, each the decision on that symbol's two books |
| Scanner.SkipsNeverStopTheScan | bot.py:58-74 | when no symbol raises, the loop as written reaches every symbol: its pass equals the full scan |
| Scanner.ScanConcat | bot.py:54 | scanning two symbol lists back to back equals scanning their concatenation |
| Scanner.Alerts | bot.py:83-90 | the announced trades are exactly the opportunity outcomes: every alert comes from one, and every one is alerted |
| Scanner.AlertsConcat | bot.py:54-90 | the alerts of two consecutive stretches of a pass are the first stretch's alerts followed by the second's, so alerts keep scan order |
| Scanner.AlertOfOne | bot.py:79-90 | a single outcome is announced exactly when it is an opportunity, with its symbol and decision |
| Scanner.AlertsClearThreshold | bot.py:79-90 | every announced trade has a positive profit, sells above its buy price and reaches 0.5 percent |
| Scanner.ZeroAskAbortsCycle | bot.py:76-77 | a KuCoin MATIC/USDT ask of 0 against a Binance bid of 1 ends the pass after its first symbol, while the contained scan still reports all five symbols |
| OrderLog.RecordData | log_to_csv.py:7-16 | the keys of the logged dictionary are exactly the header's names |
| OrderLog.Record | log_to_csv.py:26-31 | the written record has one value per header name, and value i is the one the dictionary gives header name i |
| OrderLog.DictRow | log_to_csv.py:26-31 | `DictWriter` fails exactly when the dictionary has a key that is not a field name; otherwise the row has one value per field name, in field order: the dictionary's value for that name, or the default `""` when the dictionary lacks it |
| OrderLog.RecordFollowsHeader | log_to_csv.py:7-31 | the logged dictionary is accepted, and column i of the written record is the value the dictionary gives header name i |
| OrderLog.Log | log_to_csv.py:18-31 | the file exists afterwards; a missing file becomes exactly the header followed by the record; an existing one, even an empty one, keeps its rows as a prefix and grows by exactly one row, the record |
| OrderLog.LogAllAppends | log_to_csv.py:25-31 | calls on an existing file keep its rows in front and append one record per call, in call order |
| OrderLog.FreshLogLayout | log_to_csv.py:18-31 | starting without a file, n calls leave one header followed by the n records in call order |
| OrderLog.EmptyFileGetsNoHeader | log_to_csv.py:18-30 | an existing but empty file never receives a header: it ends up holding only the records |
| OrderLog.NeedsQuotes | log_to_csv.py:27-31 | with an LF or CRLF terminator, minimal quoting quotes a field exactly when it holds a comma, a quote, a CR or an LF |
| OrderLog.DoubleQuotes | log_to_csv.py:27-31 | every quote is doubled: the result is one character longer per quote, and a reader collapsing doubled quotes gets the text back |
| OrderLog.EncodeField | log_to_csv.py:27-31 | a field that needs no quoting is written as it is; any other is written between quotes, with every quote inside doubled (its length is the field's, plus one per quote, plus two), and its inside reads back as the field |
| OrderLog.EncodeRowEnds | log_to_csv.py:27-31 | a row's line starts with its first field's encoding and ends with its last field's |
| OrderLog.SerializeEndsWithTerminator | log_to_csv.py:25-31 | no rows make an empty text, and a text with rows ends with the line terminator |
| OrderLog.PlainRowVerbatim | log_to_csv.py:27-31 | fields that need no quoting are written as they are, separated by commas |
| OrderLog.SerializeAppend | log_to_csv.py:25 | the text of rows followed by one more row is the old text followed by that row's line |
| OrderLog.LogOnlyAppendsText | log_to_csv.py:25-31 | the file is never rewritten: an existing text is kept and followed by exactly the record's line, and a missing file gets the header line and then the record's line |
| Text.Split | app/script.js:5 | JavaScript's `split` on one character: one part more than the separator's occurrences, no part contains it, and joining the parts gives the input back |
| Text.SplitJoin | app/script.js:9 | splitting the join of separator-free parts gives the parts back |
| Text.TrimStart | app/script.js:5 | drops exactly the leading ECMAScript whitespace: the result is a suffix that is empty or starts with non-whitespace, and everything dropped is whitespace |
| Text.TrimEnd | app/script.js:5 | drops exactly the trailing ECMAScript whitespace: the result is a prefix that is empty or ends with non-whitespace, and everything dropped is whitespace |
| Text.Trim | app/script.js:5 | `trim` gives a text that is empty exactly when the input is all whitespace, and otherwise starts and ends with non-whitespace |
| Text.TrimExact | app/script.js:5 | whitespace, then a text with non-whitespace at both ends, then whitespace, trims to exactly that middle text |
| Text.TrimIgnoresTrailingWhitespace | app/script.js:5 | appending whitespace does not change the trimmed text |
| Text.Reverse | app/script.js:8 | the reversed sequence has the same length and holds element n-1-i at position i |
| Dashboard.Lines | app/script.js:5 | the trimmed text has one line more than it has LFs, no line contains an LF, and joining the lines with LF gives the trimmed text back |
| Dashboard.Parse | app/script.js:5-9 | there is one row per line after the first, so the header never shows; row i is the comma-split of line n-i, which puts the file order in reverse |
| Dashboard.Field | app/script.js:9 | positional destructuring: name i gets field i when the row has one, and `undefined` otherwise |
| Dashboard.ToCard | app/script.js:9 | the eight destructured names hold fields 0 to 7 in order, `undefined` where the line has fewer fields; further fields are dropped |
| Dashboard.Cards | app/script.js:8-20 | the number of cards is the number of LFs in the trimmed text, and card i is row i destructured |
| Dashboard.BlankTextHasNoCards | app/script.js:5-8 | empty or whitespace-only text gives no cards |
| Dashboard.HeaderOnlyHasNoCards | app/script.js:5 | a single line gives no cards |
| Dashboard.TrailingWhitespaceAddsNoRow | app/script.js:5 | trailing whitespace, such as the final line terminator, adds no row |
| RoundTrip.ReadPlainLine | app/script.js:9 | the line the writer makes of a row of plain fields splits on commas back into that row |
| RoundTrip.ReadLine | app/script.js:9 | the same line with the terminator's CR left on it splits into the row with the CR on its last field |
| RoundTrip.LinesOfWrittenText | app/script.js:5 | the reader's lines of the written text are the writer's lines, each except the last still carrying the terminator's CR |
| RoundTrip.ReadBack | app/script.js:5-9 | a file of a leading row and records, written with LF or CRLF, parses as the records newest first, each older record with the terminator's CR on its last field; the leading row never shows |
| RoundTrip.ReadBackLf | app/script.js:5-9 | with LF line endings, a header and records parse back as exactly the records, in reverse order |
| RoundTrip.ReadBackCrLf | app/script.js:5-9 | with CRLF line endings, the records parse back in reverse order, each except the newest with a CR after its last field |
| RoundTrip.CarriageOnOlderRecords | app/script.js:5-9 | the newest record reads back exactly; every older one has eight fields, its first seven unchanged and its last gaining the carriage |
| RoundTrip.DashboardShowsLogNewestFirst | log_to_csv.py:18-31 | a log created by n calls and written with LF gives n cards, newest first, and card i is record n-1-i destructured |
| RoundTrip.HeaderedTextShowsNewestFirst | app/script.js:5-20 | the header line followed by records written with LF shows one card per record, newest first, each card the record destructured |
| RoundTrip.DashboardKeepsCarriageReturns | log_to_csv.py:18-31 | the same log written with the `excel` dialect's CRLF parses as the records newest first, each older one with a CR in its profit percentage field |
| RoundTrip.EmptyFileHidesFirstRecord | log_to_csv.py:18-30 | when the log starts as an existing empty file, and the file is written with LF, the dashboard takes the first record for the header and shows only the others |
| RoundTrip.HeaderlessReadBack | app/script.js:5-9 | a file without a header, written with LF, parses as all its rows but the first, newest first |
| RoundTrip.CardNamesMatchColumns | app/script.js:9 | destructuring a logged record gives each of the dashboard's names the value of the logger's column at the same position |

## Left out

- The network: the `ccxt` clients, `fetch_order_book`, `exchange.close` and the Telegram POST are foreign calls. A fetch is an input, either a book or `Unavailable`, and a notification is an entry of `Alerts`.
- The Web3 provider, the ABI file, the contract object and `.env` loading are left out. They are configuration. The contract is built but never called, so there is no execution, nonce or gas to model.
- The `while True` loop with `asyncio.sleep(60)` and its catch-all is left out. It only repeats passes. `Scanner.ScanAsWritten` models what one pass does before an exception reaches it.
- The order of the two venue fetches and any concurrency are not modelled. Both results are inputs to the decision.
- Prices are exact reals, so float rounding, infinities and NaN are not modelled. Neither is the `:.4f`/`:.2f` formatting of the notification message.
- `round(x, 6)` and `round(x, 4)` in the logger are the opaque parameter `render`. `datetime.now()` is the `timestamp` of each call.
- The logger's file I/O is a transition on the stored rows and their text. A failing `open` is not modelled, and neither is a race between the existence check and the append.
- The bot never calls the logger. The model relates the two only through the file they share.
- The writer's quoting is modelled for minimal quoting. Only fields free of commas, quotes, CR and LF are followed through the reader, because the reader does not understand quoting.
- The dashboard's `fetch`, `document`, `innerHTML` and `window.onload` are browser I/O and rendering. `Cards` stops at the destructured values.
- OrderLog.EncodeRow: a row of one empty field is written as an empty line, while Python's writer prints `""` for it. The logger never writes such a row, because every row it writes has eight fields.
- JavaScript strings are UTF-16 code units, while the model's strings are sequences of Dafny `char`s. The whitespace set of `trim` is the ECMAScript one, listed in `IsJsWhitespace`.

## Findings

| source | as written | input that shows it | evidently intended | confidence | as-written member | corrected member |
|---|---|---|---|---|---|---|
| bot.py:77 | `profit / buy_price` runs inside the symbol loop without a guard. With a zero buy price it raises ZeroDivisionError, which leaves `check_arbitrage_and_execute`. The remaining symbols of the pass are never evaluated, and the exchange clients are not closed. | KuCoin MATIC/USDT ask 0.0 with Binance MATIC/USDT bid 1.0: the pass stops after MATIC/USDT and skips ETH, BTC, USDC and DAI | a bad quote on one symbol affects that symbol only, as a missing price does at bot.py:58-60, and the pass reaches every symbol | medium, not executed | Scanner.ScanAsWritten, Scanner.ZeroAskAbortsCycle | Scanner.Scan |
