# Bank notification parser: a Dafny model

`handle_incoming_email.py` receives bank notification e-mails and turns the
plain text of each one into a single line for a bookkeeping service. This
project models and proves properties of the three pure functions that do
that work:

- `parseAlfabank` recognises a multi-line Alfa-Bank card-operation notice.
  The notice has a card line, one skipped line, an operation-type line, an
  operation-result line, `Сумма:` with an amount and currency, `Остаток:`,
  `На время:`, a place line, and a `DD.MM.YYYY HH:MM:SS` line. From these it
  builds a `;`-joined record with seven fields: the amount with a `-` in
  front, the currency, the place, the card, `YYYY-MM-DD HH:MM:SS`, the
  operation result and type joined by a space, and an empty last field.
  When there is no notice it returns `None`.
- `parseCitialert` tries four Citibank sentence templates in a fixed order:
  purchase, debit, transfer order, credit. It renders the first one that
  matches anywhere in the text through `result`, and returns `""` when none
  matches.
- `result` formats
  `Тип: <op>; Сумма: <summ> <currency>; Счёт: <account>; Категория: <category>`.

## Structure

- `text.dfy` (module `Text`) holds the character classes of Python 2's `re`
  without the UNICODE flag: `\d` is `[0-9]`, `\w` is `[a-zA-Z0-9_]`, and `\s`
  is space, tab, LF, CR, VT and FF. It also holds Python's `sep.join` and
  `s.split(sep)` for a one-character separator, with the round trip of a split
  join and the field count of a split.
- `regex.dfy` (module `Regex`) is a small pattern language. It is just large
  enough to express the five regular expressions of the core.
  - A pattern is a sequence of pieces: literal text, a greedy `k+`/`k*`, an
    optional character ` ?`, a digit mask such as `\d\d:\d\d:\d\d`, and the
    lazy idiom `(.*?)\s*$\s+` as two pieces.
  - `Decomposes` says, piece by piece, what each piece takes given what
    follows it. In every template each greedy run is followed by a character
    outside its class, with two exceptions. The `\s*` of `\s*$\s+` is
    followed by `\s`, so the model takes `\s*$\s+` as one piece. The
    transfer template's last `\w+` ends the pattern, so the text after the
    match must not start with a word character (`Bounded`). Either way there
    is exactly one way to take the text. The lazy idiom takes the rest of the
    current line with trailing whitespace cut off.
  - `MatchSeq` is a matcher proved to agree with that specification.
    `Search` is `re.search`: it finds the match at the leftmost start
    position.
- `alfabank.dfy` (module `Alfabank`) defines the notice as a datatype, its
  text, `FindNotice` (the `re.search` call at lines 70–82), the record, and
  `ParseAlfabank`.
- `citialert.dfy` (module `Citialert`) defines the four templates, an
  `Alert` datatype with one constructor per template, `Find` (one
  `re.search`), the ordered dispatch `FirstMatch` over `Order`, `Result`,
  the decoder `ReadResult` that reads a `result` line back, and
  `ParseCitialert`.

## Model

| member | source | states |
|---|---|---|
| Alfabank.FindNotice | handle_incoming_email.py:70-82 | A notice that is found is well-formed: the card is digits and dots; the skipped line, type and result are single lines; the amount and balance are digits and dots; the currencies are `\w+`; the place has no CR or LF; the clock, day, month, year and time fit their digit masks |
| Alfabank.NoticeRoundTrip | handle_incoming_email.py:70-82 | The search finds every well-formed notice placed at the start of the text, whatever text follows it |
| Alfabank.NoticeAtIff | handle_incoming_email.py:70-82 | A match of the template at position p is exactly a well-formed notice written out at p |
| Alfabank.FindNoticeLeftmost | handle_incoming_email.py:70-82 | The search returns notice n exactly when n stands at some p and no notice starts before p |
| Alfabank.FindNoticeNone | handle_incoming_email.py:70-84 | The search fails exactly when no notice stands anywhere in the text |
| Alfabank.ParseAlfabankLeftmost | handle_incoming_email.py:67-104 | `parseAlfabank` returns `Some(r)` exactly when r is the record of the leftmost notice, so every field comes from that one match |
| Alfabank.ParseAlfabankNone | handle_incoming_email.py:84-106 | `parseAlfabank` returns `None` exactly when the text holds no notice |
| Alfabank.TransactionTime | handle_incoming_email.py:85-88 | No contract of its own; specified by TransactionTimeShape and ExampleNoCalendarCheck |
| Alfabank.Fields | handle_incoming_email.py:93-100 | No contract of its own; specified by RecordSplits, AmountFieldFirst and ExampleRecord |
| Alfabank.Record | handle_incoming_email.py:93-104 | No contract of its own; specified by RecordSplits, RecordFieldCount, RecordEndsWithSemicolon and RecordOneLine |
| Alfabank.ParseAlfabank | handle_incoming_email.py:67-106 | No contract of its own; specified by ParseAlfabankLeftmost and ParseAlfabankNone |
| Alfabank.TransactionTimeShape | handle_incoming_email.py:85-88 | The date field fits `####-##-## ##:##:##`, with the year, month, day and time at their positions, and no calendar check |
| Alfabank.RecordSplits | handle_incoming_email.py:93-104 | When the free-text lines hold no `;`, the record splits on `;` into exactly seven fields in this order: `-`amount, currency, place, card, date, result + space + type, and an empty field |
| Alfabank.RecordFieldCount | handle_incoming_email.py:93-104 | The record has 7 fields plus one for each `;` in the place, type and result lines |
| Alfabank.AmountFieldFirst | handle_incoming_email.py:94 | The first field is always `-` followed by the amount, which is digits and dots |
| Alfabank.RecordEndsWithSemicolon | handle_incoming_email.py:100-104 | The record always ends with `;` |
| Alfabank.RecordOneLine | handle_incoming_email.py:93-104 | The record never contains a line break |
| Alfabank.ExampleRecord | handle_incoming_email.py:67-106 | The card payment at MAGAZIN yields the fields `-500.00`, `RUB`, `MAGAZIN`, `1234`, `2021-02-01 12:00:00`, `Успешно Оплата товаров/услуг`, and an empty field |
| Alfabank.ExampleNoCalendarCheck | handle_incoming_email.py:85-88 | A notice dated 31.04.2021 is accepted, and its date field is `2021-04-31 23:59:59` |
| Alfabank.ExampleSemicolonInPlace | handle_incoming_email.py:93-104 | A place line `OOO;ROMASHKA` gives a record with eight fields |
| Citialert.Find | handle_incoming_email.py:110-124 | An alert found by a template belongs to that template and is well-formed: the amount is digits and dots, the currency `\w+`, the account digits, the operation a single line without trailing whitespace, and the date fits `##/##/####` |
| Citialert.MatchedAlert | handle_incoming_email.py:110-124 | Whatever a template matches spells a well-formed alert of that template, and reading the alert back gives the same captures |
| Citialert.AlertRoundTrip | handle_incoming_email.py:110-124 | Each template finds every well-formed alert of its own kind at the start of the text; a transfer order must not be followed by a word character |
| Citialert.AlertAtIff | handle_incoming_email.py:110-124 | A match of a template at p is exactly a well-formed alert of that template at p |
| Citialert.FindLeftmost | handle_incoming_email.py:110-124 | A template's search returns alert a exactly when a is the leftmost alert of that template |
| Citialert.FindNone | handle_incoming_email.py:110-124 | A template's search fails exactly when the text holds no alert of that template |
| Citialert.Result | handle_incoming_email.py:129-130 | No contract of its own; specified by ResultRoundTrip and SummaryNonEmpty |
| Citialert.Summary | handle_incoming_email.py:111-125 | No contract of its own; the `result` calls at lines 113, 117, 121 and 125, specified by SummaryReads, SummaryIgnoresDate and SummaryNonEmpty |
| Citialert.FirstMatch | handle_incoming_email.py:111-125 | No contract of its own; the `if m:` chain, specified by FirstMatchFirst, FirstMatchNone and FirstMatchChosen |
| Citialert.ParseCitialert | handle_incoming_email.py:109-127 | No contract of its own; specified by ParseCitialertEmpty, ParseCitialertChosen, ParseCitialertReads and PurchaseWins |
| Citialert.FirstMatchFirst | handle_incoming_email.py:111-125 | The dispatch returns a exactly when some template in the list finds a and every template before it finds nothing |
| Citialert.FirstMatchNone | handle_incoming_email.py:111-127 | The dispatch finds nothing exactly when every template finds nothing |
| Citialert.FirstMatchChosen | handle_incoming_email.py:109-127 | With the order purchase, debit, transfer, credit: a is picked exactly when a is the leftmost alert of its template and the text holds no alert of an earlier template |
| Citialert.ParseCitialertEmpty | handle_incoming_email.py:127 | `parseCitialert` returns `""` exactly when the text holds no alert of any template |
| Citialert.ParseCitialertChosen | handle_incoming_email.py:109-127 | A non-empty output is exactly the summary of the alert the dispatch picks |
| Citialert.ParseCitialertReads | handle_incoming_email.py:111-125 | A non-empty output reads back as the picked template's label and the alert's amount, currency, account and category |
| Citialert.PurchaseWins | handle_incoming_email.py:110-112 | Template order beats text order: any purchase alert in the text makes the output a purchase (`покупка`) |
| Citialert.SummaryReads | handle_incoming_email.py:111-125 | The labels are `покупка`, `списание`, `списание` and `зачисление`. The category is the operation line, or `автоплатёж` for a transfer order. The summary reads back as exactly these |
| Citialert.SummaryIgnoresDate | handle_incoming_email.py:111-125 | Replacing the captured date with any other date leaves the output unchanged |
| Citialert.ResultRoundTrip | handle_incoming_email.py:129-130 | A `result` line reads back as its five arguments, provided the type holds no `;`, the amount is digits and dots, the currency is `\w+` and the account is digits |
| Citialert.SummaryNonEmpty | handle_incoming_email.py:129-130 | Every `result` line starts with `Тип: `, so it is never the no-match value `""` |
| Citialert.ExamplePurchase | handle_incoming_email.py:110-112 | A purchase of 1500.00 RUB at MAGAZIN on account 1234 renders as `result("покупка", "1500.00", "RUB", "1234", "MAGAZIN")` |
| Regex.SearchLeftmost | handle_incoming_email.py:70-82 | `re.search` returns position p and the captures exactly when the pattern matches at p and at no earlier position |
| Regex.MatchSeqExact | handle_incoming_email.py:70-82 | The matcher returns exactly the captures of any decomposition of its input |
| Regex.DecompositionUnique | handle_incoming_email.py:70-82 | A text has at most one decomposition under a pattern, so a match has only one reading |
| Text.SplitJoin | handle_incoming_email.py:104 | Splitting a `;`-join gives the fields back when no field holds `;` |
| Text.SplitCount | handle_incoming_email.py:104 | A split has one field more than the text has separators |

## Left out

- `LogSenderHandler.receive` (lines 20–65) is left out. It does the mail
  plumbing: MIME bodies, charset and transfer decoding, mail to the admins
  and to the parser service, and logging. All of it is I/O against App
  Engine libraries.
- The sender check against environment variables (lines 13–16 and 22) is
  left out. It is transport policy, not extraction.
- The `logging` calls (lines 68 and 103) and the `webapp2` wiring
  (line 133) are left out. They are side effects only.
- The model does not implement Python's `re` in general, only the pieces these
  five patterns use. The weaker claim is the one stated under `Regex`: each
  greedy run is followed by a character outside its class, apart from the
  two exceptions given there, so no backtracking alternative exists. The
  lazy operation group is modelled by what `(.*?)\s*$\s+` leaves, not by a backtracking engine.
- Text is a sequence of Unicode characters. The model does no decoding and
  takes no account of Unicode classes, matching Python 2's ASCII `\w`, `\d`
  and `\s`.
- The code has a single card-notice template with no fallback variants. It
  strips no quote characters, puts no balance field in the record, and never
  selects an amount in the user's currency.
- `parseCitialert` is never called by `receive`, and neither parser falls
  back to the other. Both parsers are modelled on their own.
