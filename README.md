# Flashcard CSV codec — a Dafny model

`script.js` keeps the page's flashcards in one global list, `flashcards`. It fills the list from
`flashcards.csv` when the page loads. It writes the list back out as CSV on export, and it appends a
card when the form is submitted. This project models that core:

- **decoding** (`parseCSV`, `cleanCSVField`):
  - split the text on `\n` and drop the header line;
  - trim each line and skip the blank ones;
  - match each line against the six-group row pattern;
  - unquote each captured field;
  - read the box number with `parseInt` and strip the quotes around the date;
- **encoding** (`generateCSV`):
  - the fixed header, then one row per card, joined with `\n`;
  - question and answer text are quoted with every `"` doubled;
  - image paths and the date are quoted without escaping;
  - the box number is written bare;
- **the append rule** of the form handler: trimmed texts, image labels kept only when they contain
  `/`, box 1, and the day of submission;
- **the `flashcards` state**: its initial value, its replacement on load, and the empty list when
  loading fails.

The JavaScript primitives the codec relies on are written out:

- `trim`, with the ECMAScript whitespace and line-terminator sets;
- `split` and `join`;
- `parseInt` without a radix, including the `0x` prefix;
- the text of an integral Number;
- the row pattern as the backtracking search a JavaScript engine performs.

Modules:

- `Wrappers`: `Option`.
- `JsStrings` (`js_strings.dfy`): character classes, `trim`, `split`, `join`.
- `JsNumbers` (`js_numbers.dfy`): `parseInt` and Number-to-text. `None` stands for NaN.
- `RowPattern` (`row_pattern.dfy`): the pattern of `script.js:27`.
  - The first five fields try a lazy quoted alternative first. Each longer closing quote is tried in
    turn before the bare run of non-commas.
  - The sixth field ends at the first closing quote.
  - The pattern is unanchored, so the search tries every start index.
- `FlashcardCsv` (`flashcard_csv.dfy`): the card record, decoding, encoding, and the conditions
  under which decoding undoes encoding.
- `FlashcardDeck` (`flashcard_deck.dfy`): the append rule and class `Deck`, which holds the
  `flashcards` list.

Main results:

- The row pattern matches a trimmed line exactly when the line holds at least five commas, and
  the match always starts at index 0 (`RowPattern.ExecIffFiveCommas`).
- A line with fewer than five commas yields no card. Any other non-blank line yields exactly one
  card, even when its box number is not a number.
- `Decode(Encode(cards)) == cards` holds for every list of *representable* cards
  (`FlashcardCsv.DecodeEncode`). A card is representable when:
  - its texts hold no line terminator and no `"` directly followed by `,`;
  - its image paths and date hold no `"` and no line terminator.
- Every box number survives, NaN included: NaN is written as `NaN`, and `parseInt` reads that
  back as NaN.
- The first condition cannot be dropped. For a question containing `",`, export and import give
  back a different card (`FlashcardCsv.QuoteCommaBreaksRoundTrip`):
  - the lazy quoted alternative closes the first field at the escaped quote;
  - the rest of the question becomes the question image, and every later value lands one field
    later (the box number `1` becomes the date);
  - the box number becomes NaN.
- A card added from the form is representable when the form's inputs meet the same conditions
  (`FlashcardDeck.NewCardRepresentable`).

Three behaviours of the code that a reader might not expect; the model keeps each of them:

- **NaN box numbers are kept.** A non-numeric `box_number` gives a card whose box number is NaN,
  and that card is never dropped: only a line with fewer than five commas is.
- **Trailing text is accepted.** A line with more than six fields is accepted, and everything
  after the sixth group is ignored.
- **`""` is not read as an escape while matching.** The lazy quoted alternative closes at the
  first `"` that is directly followed by `,`, even when that `"` is the second half of an escaped
  `""`. `""` becomes `"` only afterwards, in `cleanCSVField`.

## Model

| member | source | states |
|---|---|---|
| JsStrings.IsWhiteSpace | script.js:24 | the set `trim` removes holds every line terminator, and no comma, quote, sign or decimal digit, so trimming never removes a field delimiter or the start of a number |
| JsStrings.Trim | script.js:24 | the result is no longer than the line, neither starts nor ends with whitespace, and is empty exactly when the line is all whitespace |
| JsStrings.TrimSlice | script.js:24 | `trim` keeps one contiguous piece of the line and everything it cuts away on either side is whitespace |
| JsStrings.TrimPiece | script.js:24 | what `trim` keeps is the piece of the line that starts right after the leading whitespace |
| JsStrings.TrimCutTail | script.js:24 | what `trim` cuts from the end of the line is whitespace |
| JsStrings.TrimUnchanged | script.js:24 | a line that neither starts nor ends with whitespace is left as it is |
| JsStrings.TrimIdempotent | script.js:24 | trimming twice is trimming once |
| JsStrings.LeadingSpace | script.js:24 | the longest whitespace prefix: all of it is whitespace and the next character is not |
| JsStrings.TrailingSpace | script.js:24 | the longest whitespace suffix: all of it is whitespace and the character before it is not |
| JsStrings.CountOf | script.js:22 | occurrences of a character: never more than the length of the text |
| JsStrings.CountZero | script.js:22 | a character occurs zero times exactly when it is absent from the text |
| JsStrings.Split | script.js:22 | `split("\n")` gives one more piece than there are separators, and no piece contains the separator |
| JsStrings.JoinSplit | script.js:22 | joining the pieces of a split with the separator gives the text back |
| JsStrings.SplitJoin | script.js:55 | splitting the join of separator-free lines gives those lines back |
| JsStrings.SplitPeel | script.js:22 | a separator-free first line followed by the separator splits off as the first piece |
| JsStrings.SplitWhole | script.js:22 | a separator-free text splits into itself |
| JsStrings.JoinWith | script.js:53-55 | `Array.prototype.join` with a one-character separator; its behaviour is stated by JoinSplit and SplitJoin (the inverse of `split`), JoinFirstPart, JoinEnds and JoinFreeOf |
| JsStrings.JoinEnds | script.js:53-55 | `join` gives a text that starts with the first character of the first part and ends with the last character of the last part |
| JsStrings.JoinFirstPart | script.js:55 | the joined text opens with the first part, followed by the separator when more parts come; one part alone is the whole text |
| JsStrings.JoinFreeOf | script.js:53-55 | a character absent from every joined part, and other than the separator, is absent from the join |
| JsNumbers.DigitRun | script.js:34 | the longest run of digits at the start of the text |
| JsNumbers.DecimalDigits | script.js:53 | the decimal digits of a natural number: non-empty, all digits, no leading zero, and their value is the number |
| JsNumbers.NumberToString | script.js:53 | the text of an integral Number starts with `-` exactly when the Number is negative; the rest is a non-empty run of decimal digits, without a leading zero, whose value is the Number's magnitude |
| JsNumbers.ParseInt | script.js:34 | `parseInt` gives a number only when the text holds a decimal digit, and a negative one only when the text holds a `-`; its value is fixed by ParseIntPrefix (decimal), ParseMagnitudeHex (after `0x`) and ParseIntNoDigit (NaN) |
| JsNumbers.ParseSigned | script.js:34 | after the leading whitespace, a number needs a decimal digit right away, or a `+` or `-` followed by one, and it is negative only after a `-` |
| JsNumbers.ParseMagnitude | script.js:34 | after the sign, there is a number only when the text starts with a decimal digit (the `0` of a `0x` prefix included), and always one when it starts with a decimal digit and no `0x`/`0X` prefix |
| JsNumbers.ParseIntSkipsSpace | script.js:34 | `parseInt` skips leading whitespace |
| JsNumbers.ParseIntPrefix | script.js:34 | after whitespace and an optional sign, `parseInt` reads the leading decimal digits and ignores what follows them |
| JsNumbers.ParseIntNoDigit | script.js:34 | after whitespace, text that starts with neither a decimal digit nor a sign followed by one is NaN |
| JsNumbers.ParseMagnitudeHex | script.js:34 | after a `0x` or `0X` prefix, the hexadecimal digits up to the first non-digit are read in base 16, and with none the result is NaN |
| JsNumbers.ParseIntOfNumber | script.js:34 | `parseInt` of the text of any integral Number gives that Number back |
| JsNumbers.ParseIntNaN | script.js:34 | `parseInt("NaN")` is NaN |
| JsNumbers.ParseIntHexPrefix | script.js:34 | without a radix, `parseInt("0x1F")` is 31 and `parseInt("0x")` is NaN |
| RowPattern.NonCommaRun | script.js:27 | `[^,]*` consumes the longest comma-free prefix |
| RowPattern.ClosingQuote | script.js:27 | the lazy `".*?"` closes at the first `"` from the given index when no line terminator comes before it; it fails only when every later `"` has a line terminator before it |
| RowPattern.LastField | script.js:27 | the sixth group is a prefix of the text: when the text opens with `"` and a later `"` has no line terminator before it, the group runs to the first such `"` with no quote or terminator inside; otherwise it is the longest comma-free prefix |
| RowPattern.MatchFrom | script.js:27 | a match of fields k..6 has 7-k groups, and rejoined with commas they are a prefix of the text |
| RowPattern.TryQuoted | script.js:27 | the quoted alternative, when it succeeds, captures the right number of groups and consumes a prefix of the text |
| RowPattern.TryBare | script.js:27 | the bare alternative, when it succeeds, captures the right number of groups and consumes a prefix of the text |
| RowPattern.SearchFrom | script.js:27 | the unanchored search returns a match that starts at or after the first index tried and has six groups |
| RowPattern.Exec | script.js:27 | a match of `line.match` has six groups which, rejoined with commas, are the text at the match's index; ExecIffFiveCommas says when it exists and where it starts |
| RowPattern.MatchIffCommas | script.js:27 | fields k..6 match at the start of a text exactly when it holds at least 6-k commas |
| RowPattern.BareIffCommas | script.js:27 | the bare alternative succeeds exactly when enough commas remain |
| RowPattern.TryBareStep | script.js:27 | after a comma-free run ended by a comma, the bare alternative succeeds exactly when the later fields match |
| RowPattern.QuotedNeedsCommas | script.js:27 | the quoted alternative succeeds only when enough commas remain |
| RowPattern.QuotedSkip | script.js:27 | lazy `.*?` moves past a character that neither ends the line nor is a `"` followed by a comma |
| RowPattern.QuotedClose | script.js:27 | the quoted alternative closes at the quote that is followed by a comma when the later fields match |
| RowPattern.NoMatchFrom | script.js:27-28 | with fewer than five commas, no start index gives a match |
| RowPattern.ExecIffFiveCommas | script.js:27-28 | `line.match` succeeds exactly when the line holds at least five commas, and then the match starts at index 0 |
| RowPattern.Quote | script.js:49-53 | `"${s}"` is `s` between two quotes |
| RowPattern.QuotedFieldStep | script.js:27 | a quoted field with no line terminator and no `",` inside is captured whole, quotes included |
| RowPattern.BareFieldStep | script.js:27 | a comma-free field that does not start with `"` is captured whole |
| RowPattern.LastQuotedField | script.js:27 | a quoted sixth field with no `"` or line terminator inside is captured whole |
| RowPattern.WholeFieldStep | script.js:27 | a field captured whole, followed by a comma and matching later fields, becomes the next group |
| RowPattern.FieldsMatch | script.js:27 | fields that are each captured whole, joined with commas, match with exactly those fields as the capture groups |
| FlashcardCsv.EscapeQuotes | script.js:49-51 | `replace(/"/g, '""')` adds one character per quote, keeps the first character and introduces no new characters |
| FlashcardCsv.CollapseQuotes | script.js:42 | `replace(/""/g, '"')` never lengthens the text; its value on runs of quotes and on escaped text is fixed by QuoteRunCollapse, CollapseEscapeThenQuote and CollapseEscape |
| FlashcardCsv.QuoteRunCollapse | script.js:42 | a run of n quotes followed by a non-quote collapses to (n+1)/2 quotes: pairs from the left become single quotes, and an odd last quote stays |
| FlashcardCsv.CollapseEscapeThenQuote | script.js:42-51 | an escaped text followed by a lone quote collapses to the text and the quote, which has no partner |
| FlashcardCsv.CollapsePair | script.js:42 | a leading `""` becomes `"` |
| FlashcardCsv.CollapseLone | script.js:42 | a `"` not followed by another `"` is kept |
| FlashcardCsv.CollapseOther | script.js:42 | a character other than `"` is kept |
| FlashcardCsv.CollapseEscape | script.js:42-51 | collapsing `""` undoes doubling every `"`, for every text |
| FlashcardCsv.QuoteFreeUnchanged | script.js:42-51 | a text without `"` is left alone by both escaping and collapsing |
| FlashcardCsv.EscapeKeepsNoQuoteComma | script.js:49-51 | doubling quotes never puts a `"` directly before a `,` |
| FlashcardCsv.CleanField | script.js:41-43 | a field not starting with `"` is returned unchanged; a field starting with `"` loses its first and last characters (all of it when it is one character long), then has its `""` collapsed, and comes back shorter |
| FlashcardCsv.CleanQuoteRun | script.js:41-43 | a field of n >= 2 quotes cleans to (n-1)/2 quotes, so `"""""` cleans to `""` |
| FlashcardCsv.CleanEscapedField | script.js:41-43 | cleaning a field written with full quote doubling gives its text back |
| FlashcardCsv.CleanQuotedField | script.js:41-43 | cleaning a quote-free text written between quotes gives it back |
| FlashcardCsv.UnquoteDate | script.js:35 | the date is unchanged or loses exactly its enclosing pair of quotes, and it changes exactly when it opens and closes with `"` and no line terminator lies between them |
| FlashcardCsv.UnquoteTerminatorKept | script.js:35 | a quoted date with a `\r` between its quotes is kept unchanged, quotes included |
| FlashcardCsv.UnquoteQuotedDate | script.js:35 | a date between quotes, with no line terminator, loses the quotes |
| FlashcardCsv.UnquoteBareDate | script.js:35 | a date without a `"` at both ends is kept as it is |
| FlashcardCsv.DecodeLine | script.js:27-36 | a trimmed line yields a card exactly when it holds at least five commas |
| FlashcardCsv.RowCards | script.js:24-38 | one line contributes at most one card |
| FlashcardCsv.DecodeRows | script.js:22-38 | there are never more cards than data lines |
| FlashcardCsv.Decode | script.js:20-39 | `parseCSV` yields at most one card per `\n` in the text, so never more cards than non-header lines |
| FlashcardCsv.DecodeRowsAppend | script.js:21-38 | the cards of two runs of lines are the cards of the first run followed by those of the second: line order is kept |
| FlashcardCsv.DecodeOneRow | script.js:24-38 | a line with fewer than five commas after trimming yields no card; otherwise it yields exactly its decoded card |
| FlashcardCsv.DecodedCardHasLine | script.js:21-38 | every decoded card comes from some line that decodes to it |
| FlashcardCsv.DecodeBlankRows | script.js:24-25 | blank lines yield no cards |
| FlashcardCsv.DecodeHeaderOnly | script.js:21-25 | a text with nothing but blank lines after its first line decodes to the empty list |
| FlashcardCsv.BoxText | script.js:53 | the box number is written bare: non-empty, with no `,`, `"` or line terminator |
| FlashcardCsv.ParseBoxText | script.js:34-53 | `parseInt` of a written box number gives it back, NaN included |
| FlashcardCsv.RowFields | script.js:49-53 | the six fields of a row: every field but the box number opens and closes with its own quote, and the box number holds no comma and no quote |
| FlashcardCsv.EncodeRow | script.js:48-53 | a row opens and closes with a quote, and it is a single line when no field of the card holds a newline |
| FlashcardCsv.EncodeRows | script.js:48-54 | one row per card; every row opens and closes with a quote, and no row holds a newline when no card does |
| FlashcardCsv.Encode | script.js:46-56 | the exported text opens with the header, which is the whole text for no cards and is followed by `\n` otherwise |
| FlashcardCsv.Representable | script.js:46-56 | the round-trip condition; a representable card has no newline in any field, so it is written on one line |
| FlashcardCsv.RowShape | script.js:49-53 | a row is its six fields in header order, separated by commas |
| FlashcardCsv.RowFieldsWhole | script.js:48-54 | every field written for a representable card is one the pattern captures whole |
| FlashcardCsv.TextWhole | script.js:49-51 | a question or answer text with no line terminator and no `",`, escaped and quoted, is captured whole |
| FlashcardCsv.PathWhole | script.js:50-52 | an image path with no `"` and no line terminator, quoted, is captured whole |
| FlashcardCsv.BoxWhole | script.js:53 | the bare box number is captured whole |
| FlashcardCsv.RowGroups | script.js:27-53 | the pattern captures exactly the six written fields of a representable card's row |
| FlashcardCsv.DecodeEncodeRow | script.js:27-53 | a representable card's row decodes to that card |
| FlashcardCsv.RowTrimmed | script.js:24-53 | a row starts and ends with `"`, so trimming leaves it unchanged |
| FlashcardCsv.RowNewlineFree | script.js:49-53 | when no field of a card holds a newline, its fields joined with commas hold none |
| FlashcardCsv.EncodeLines | script.js:46-55 | split at `\n`, the exported text is the header followed by exactly one row per card, with nothing after the last row |
| FlashcardCsv.EncodedRowCards | script.js:24-53 | the line written for a representable card contributes exactly that card |
| FlashcardCsv.HeaderOneLine | script.js:47 | the header is a single line |
| FlashcardCsv.DecodeEachRow | script.js:21-39 | lines that each decode to one card decode together to those cards, in the same order |
| FlashcardCsv.DecodeEncodeRows | script.js:21-54 | the rows of representable cards decode to the same cards, in order |
| FlashcardCsv.DecodeEncode | script.js:20-56 | when every card of a list is representable, importing the list's export gives the same list back |
| FlashcardCsv.DecodeEncodeEmpty | script.js:21-55 | the empty list is exported as the header alone, which imports as the empty list |
| FlashcardCsv.SampleEncoded | script.js:46-55 | the card "2+2=?" / "" / "4" / "" / 1 / "2024-01-01" is written as `"2+2=?","","4","",1,"2024-01-01"` |
| FlashcardCsv.SampleRow | script.js:20-39 | the line `"2+2=?","","4","",1,"2024-01-01"` decodes to exactly that card |
| FlashcardCsv.QuotedQuestionRepresentable | script.js:49-51 | a card whose question is `He said "hi"` meets the round-trip condition despite its quotes |
| FlashcardCsv.QuotedQuestionRoundTrip | script.js:20-56 | a question `He said "hi"` survives export and import exactly |
| FlashcardCsv.QuoteCommaTail | script.js:27 | in the text after the second comma of the row written for a question `a",b`, the pattern's groups 3 to 6 are three empty quoted fields and `1`; the row's last field is left unmatched |
| FlashcardCsv.QuoteCommaText | script.js:48-54 | the row written for a question `a",b` splits, at the comma inside the question, into the quoted field `"a""` (the lazy `.*?` closes at the doubled quote) and a bare `b"` |
| FlashcardCsv.QuoteCommaMatch | script.js:27 | in the row written for a question `a",b`, the first group closes at the escaped quote, the second is `b"`, and each written value after it lands one group later, so the box number `1` is the sixth group |
| FlashcardCsv.QuoteCommaGroups | script.js:30-35 | the decoder reads those groups as the question `a"`, the question image `b"`, an empty answer and answer image, a NaN box (read from `""`) and the date `1` |
| FlashcardCsv.QuoteCommaDecoded | script.js:27-53 | that row decodes to a different card, whose box number is NaN |
| FlashcardCsv.QuoteCommaNotRepresentable | script.js:49 | a question `a",b` fails the round-trip condition |
| FlashcardCsv.QuoteCommaLines | script.js:46-55 | a list of that one card is exported as the header line and that card's row |
| FlashcardCsv.QuoteCommaRowCards | script.js:24-38 | that row is imported as the card whose values each sit one field later, with a NaN box |
| FlashcardCsv.DecodeOneLine | script.js:21-38 | a text whose only line after the header is a given line imports as what that line contributes |
| FlashcardCsv.QuoteCommaBreaksRoundTrip | script.js:20-56 | a card whose question holds `",` is not representable, and a list holding only it does not survive export and import |
| FlashcardDeck.ImageOrEmpty | script.js:108-109 | the image field is the label when the label contains `/`, and empty otherwise |
| FlashcardDeck.NewCard | script.js:103-120 | the new card's texts are the trimmed inputs, its image fields are `ImageOrEmpty` of the labels (the label when it contains `/`, empty otherwise), its box number is 1 and its date is the given day |
| FlashcardDeck.TrimKeeps | script.js:103-104 | trimming a text keeps it free of line terminators and of `",` |
| FlashcardDeck.NewCardRepresentable | script.js:103-120 | a card added from inputs without line terminators, `",` in the texts, or `"` in the labels and date, survives export and import |
| FlashcardDeck.Deck.constructor | script.js:2 | the list starts empty |
| FlashcardDeck.Deck.ParseCsv | script.js:20-39 | the list becomes exactly the decoded cards |
| FlashcardDeck.Deck.Load | script.js:5-17 | the list becomes the decoded file, or empty when the file could not be fetched |
| FlashcardDeck.Deck.Submit | script.js:113-120 | the list grows by exactly one card, earlier cards are unchanged, and the new last card is the form's card |
| FlashcardDeck.Deck.Export | script.js:46-56 | the exported text imports back as the same list when every card is representable |

## Left out

- The `fetch` of `flashcards.csv`, the `response.ok` test and the `console.warn` (script.js:6-14).
  A failed load is the `None` argument of `Deck.Load`. `renderFlashcards` after a successful
  load only draws the page.
- The export button's Blob, object URL, download link and file name (script.js:59-71). These are
  browser I/O; the exported text is `Deck.Export`.
- The file-picker buttons and the image-name labels (script.js:74-97). The label text is an
  input of `Deck.Submit`.
- `renderFlashcards` (script.js:131-154) and the instructions toggle (script.js:157-160), which
  only draw the page.
- The clock: `new Date().toISOString().split("T")[0]` (script.js:111) is the `today` argument of
  `Deck.Submit`.
- The form reset after a submission (script.js:123-125), which touches only the form.
- JsNumbers.NumberToString: box numbers are modelled as unbounded integers. Floating-point box
  numbers are not modelled: fractions, integers beyond 2^53 that lose precision, and the exponent
  form that `join` writes from 1e21 up.
- JsNumbers.ParseInt: models `parseInt` on unbounded integers, so results beyond 2^53 are not
  rounded the way a double would be.
- JsStrings.Trim: strings are sequences of Unicode scalar values, not UTF-16 code units. Every
  character class involved lies in the Basic Multilingual Plane, so classifying a character and
  classifying a code unit agree. Lone surrogates cannot be written.
- FlashcardCsv.CleanField: `slice(1, -1)` removes one UTF-16 code unit at each end, but the model
  removes one whole character. They differ on a bare group that starts with `"` and ends in a
  character outside the Basic Multilingual Plane (the line `"x😀,b,c,d,e,f`). There JavaScript
  keeps a lone high surrogate, which the model cannot represent, and the model drops the whole
  character.
