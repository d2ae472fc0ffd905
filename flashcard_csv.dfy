/**
 * The flashcard CSV codec of script.js: `parseCSV` with `cleanCSVField` (decode) and
 * `generateCSV` (encode), together with the conditions under which one undoes the other.
 */
module FlashcardCsv {
  import opened Wrappers
  import opened JsStrings
  import opened JsNumbers
  import opened RowPattern

  /** One flashcard; `boxNumber` is `None` where the script holds NaN. */
  datatype Card = Card(
    questionContent: string,
    questionContentImage: string,
    answerContent: string,
    answerContentImage: string,
    boxNumber: Option<int>,
    lastReviewed: string)

  /** The column names, in the order of the fields of every row. */
  const Columns: seq<string> := [
    "question_content", "question_content_image", "answer_content",
    "answer_content_image", "box_number", "last_reviewed"]

  /** The first line of every exported file; decoding skips the first line whatever it holds. */
  const Header: string := JoinWith(Columns, ',')

  // ---------------------------------------------------------------- quoting

  /** `s.replace(/"/g, '""')`: every `"` doubled. */
  function EscapeQuotes(s: string): (r: string)
    ensures |r| == |s| + CountOf(s, '"')
    ensures s != [] ==> r[0] == s[0]
    ensures forall c :: c in r ==> c in s
  {
    if s == [] then []
    else (if s[0] == '"' then "\"\"" else [s[0]]) + EscapeQuotes(s[1..])
  }

  /** `s.replace(/""/g, '"')`: each `""`, found left to right without overlap, becomes `"`. */
  function CollapseQuotes(s: string): (r: string)
    ensures |r| <= |s|
  {
    if |s| >= 2 && s[0] == '"' && s[1] == '"' then "\"" + CollapseQuotes(s[2..])
    else if s == [] then []
    else [s[0]] + CollapseQuotes(s[1..])
  }

  /** Collapsing undoes escaping, for every string. */
  lemma {:induction false} CollapseEscape(s: string)
    ensures CollapseQuotes(EscapeQuotes(s)) == s
  {
    if s != [] {
      CollapseEscape(s[1..]);
      var e := EscapeQuotes(s[1..]);
      if s[0] == '"' {
        assert EscapeQuotes(s) == "\"\"" + e;
        assert ("\"\"" + e)[2..] == e;
      } else {
        assert EscapeQuotes(s) == [s[0]] + e;
        assert ([s[0]] + e)[1..] == e;
      }
      assert [s[0]] + s[1..] == s;
    }
  }

  /** A run of `n` quotes. */
  function Quotes(n: nat): (r: string)
    ensures |r| == n && forall i :: 0 <= i < n ==> r[i] == '"'
  {
    seq(n, _ => '"')
  }

  /**
   * A run of `n` quotes collapses pair by pair from the left: `n / 2` pairs become single
   * quotes and, when `n` is odd, the last quote stays as it is.
   */
  lemma {:induction false} QuoteRunCollapse(n: nat, b: string)
    requires b == [] || b[0] != '"'
    ensures CollapseQuotes(Quotes(n) + b) == Quotes((n + 1) / 2) + CollapseQuotes(b)
    decreases n
  {
    if n == 0 {
      assert Quotes(n) + b == b;
      assert Quotes((n + 1) / 2) + CollapseQuotes(b) == CollapseQuotes(b);
    } else if n == 1 {
      assert Quotes(n) + b == "\"" + b;
      CollapseLone(b);
      assert Quotes((n + 1) / 2) == "\"";
    } else {
      QuoteRunCollapse(n - 2, b);
      QuoteRunStep(n, b);
    }
  }

  /** Two more quotes in front of the run give one more quote in front of the result. */
  lemma QuoteRunStep(n: nat, b: string)
    requires n >= 2
    requires CollapseQuotes(Quotes(n - 2) + b) == Quotes((n - 1) / 2) + CollapseQuotes(b)
    ensures CollapseQuotes(Quotes(n) + b) == Quotes((n + 1) / 2) + CollapseQuotes(b)
  {
    var rest := Quotes(n - 2) + b;
    var k := (n - 1) / 2;
    assert (n + 1) / 2 == k + 1;
    QuotesCons(n - 1);
    QuotesCons(n - 2);
    Regroup("\"", Quotes(n - 2), b);
    Regroup("\"", "\"" + Quotes(n - 2), b);
    assert Quotes(n) + b == "\"" + ("\"" + rest);
    Regroup("\"", "\"", rest);
    assert Quotes(n) + b == "\"\"" + rest;
    CollapsePair(rest);
    QuotesCons(k);
    Regroup("\"", Quotes(k), CollapseQuotes(b));
  }

  /** A run of quotes one longer is a quote in front of the run. */
  lemma QuotesCons(k: nat)
    ensures Quotes(k + 1) == "\"" + Quotes(k)
  {
  }

  /**
   * An escaped text followed by a lone quote: collapsing restores the text and keeps the
   * quote, which has no partner to pair with.
   */
  lemma {:induction false} CollapseEscapeThenQuote(a: string, b: string)
    requires b == [] || b[0] != '"'
    ensures CollapseQuotes(EscapeQuotes(a) + "\"" + b) == a + "\"" + CollapseQuotes(b)
    decreases |a|
  {
    if a == [] {
      CollapseLone(b);
      assert EscapeQuotes(a) + "\"" + b == "\"" + b;
    } else {
      CollapseEscapeThenQuote(a[1..], b);
      EscapeThenQuoteStep(a, b);
    }
  }

  /** The first character of the text, escaped or not, comes back first. */
  lemma EscapeThenQuoteStep(a: string, b: string)
    requires a != []
    requires CollapseQuotes(EscapeQuotes(a[1..]) + "\"" + b) == a[1..] + "\"" + CollapseQuotes(b)
    ensures CollapseQuotes(EscapeQuotes(a) + "\"" + b) == a + "\"" + CollapseQuotes(b)
  {
    var e := EscapeQuotes(a[1..]);
    var p: string := if a[0] == '"' then "\"\"" else [a[0]];
    var rest := e + "\"" + b;
    assert EscapeQuotes(a) == p + e;
    GroupInFront3(p, e, "\"", b);
    if a[0] == '"' {
      CollapsePair(rest);
    } else {
      CollapseOther(a[0], rest);
    }
    assert CollapseQuotes(p + rest) == [a[0]] + CollapseQuotes(rest);
    GroupInFront3([a[0]], a[1..], "\"", CollapseQuotes(b));
    assert [a[0]] + a[1..] == a;
  }

  /** Regrouping a concatenation of three pieces, kept apart so that it is proved on plain variables. */
  lemma Regroup(a: string, b: string, c: string)
    ensures (a + b) + c == a + (b + c)
  {
  }

  /** Regrouping a concatenation of four pieces, kept apart so that it is proved on plain variables. */
  lemma GroupInFront3(p: string, e: string, q: string, b: string)
    ensures (p + e) + q + b == p + (e + q + b)
  {
  }

  /** An escaped quote collapses to one quote. */
  lemma CollapsePair(rest: string)
    ensures CollapseQuotes("\"\"" + rest) == "\"" + CollapseQuotes(rest)
  {
    assert ("\"\"" + rest)[2..] == rest;
  }

  /** A character other than a quote is kept. */
  lemma CollapseOther(c: char, rest: string)
    requires c != '"'
    ensures CollapseQuotes([c] + rest) == [c] + CollapseQuotes(rest)
  {
    assert ([c] + rest)[1..] == rest;
  }

  /** A quote not followed by another quote is kept. */
  lemma CollapseLone(b: string)
    requires b == [] || b[0] != '"'
    ensures CollapseQuotes("\"" + b) == "\"" + CollapseQuotes(b)
  {
    var s := "\"" + b;
    assert s[1..] == b;
    assert |s| >= 2 ==> s[1] != '"';
  }

  /** A field made of `n` >= 2 quotes cleans to the collapse of the `n - 2` inside. */
  lemma CleanQuoteRun(n: nat)
    requires n >= 2
    ensures CleanField(Quotes(n)) == Quotes((n - 1) / 2)
  {
    assert Quotes(n)[1..n - 1] == Quotes(n - 2);
    QuoteRunCollapse(n - 2, []);
    assert Quotes(n - 2) + [] == Quotes(n - 2);
  }

  /** A string without quotes is left alone by both. */
  lemma {:induction false} QuoteFreeUnchanged(s: string)
    requires '"' !in s
    ensures EscapeQuotes(s) == s && CollapseQuotes(s) == s
  {
    if s != [] {
      QuoteFreeUnchanged(s[1..]);
      assert [s[0]] + s[1..] == s;
    }
  }

  /** Escaping never puts a `"` right before a `,` where there was none. */
  lemma {:induction false} EscapeKeepsNoQuoteComma(s: string)
    requires NoQuoteComma(s)
    ensures NoQuoteComma(EscapeQuotes(s))
  {
    if s != [] {
      var p: string := if s[0] == '"' then "\"\"" else [s[0]];
      var e := EscapeQuotes(s[1..]);
      assert NoQuoteComma(s[1..]) by {
        forall i | 0 <= i < |s[1..]| - 1 && s[1..][i] == '"' ensures s[1..][i + 1] != ',' {
          assert s[i + 1] == '"';
        }
      }
      EscapeKeepsNoQuoteComma(s[1..]);
      var r := p + e;
      assert EscapeQuotes(s) == r;
      forall i | 0 <= i < |r| - 1 && r[i] == '"' ensures r[i + 1] != ',' {
        if i + 1 < |p| {
          assert r[i + 1] == p[i + 1];
        } else if i + 1 == |p| {
          assert r[i + 1] == e[0] == s[1];
        } else {
          assert r[i] == e[i - |p|] && r[i + 1] == e[i - |p| + 1];
        }
      }
    }
  }

  /** `cleanCSVField`: a field opening with `"` loses its first and last characters and has its `""` collapsed. */
  function CleanField(field: string): (r: string)
    ensures (field == [] || field[0] != '"') ==> r == field
    ensures field != [] && field[0] == '"' ==> |r| < |field|
    ensures field != [] && field[0] == '"' ==> r == CollapseQuotes(if |field| >= 2 then field[1..|field| - 1] else [])
    ensures '"' !in field ==> r == field
  {
    if |field| > 0 && field[0] == '"' then
      // `slice(1, -1)` of a one-character string is empty
      CollapseQuotes(if |field| >= 2 then field[1..|field| - 1] else [])
    else field
  }

  /** `date.replace(/^"(.*)"$/, "$1")`: enclosing quotes go only when both are there and no line terminator lies between. */
  function UnquoteDate(d: string): (r: string)
    ensures r == d || (|d| >= 2 && d[0] == '"' && d[|d| - 1] == '"' && r == d[1..|d| - 1])
    ensures r != d <==> |d| >= 2 && d[0] == '"' && d[|d| - 1] == '"' && NoLineTerminator(d[1..|d| - 1])
  {
    if |d| >= 2 && d[0] == '"' && d[|d| - 1] == '"' && NoLineTerminator(d[1..|d| - 1]) then d[1..|d| - 1]
    else d
  }

  /** Cleaning a field written with full quote-doubling gives back its text. */
  lemma CleanEscapedField(s: string)
    ensures CleanField(Quote(EscapeQuotes(s))) == s
  {
    CollapseEscape(s);
  }

  /** Cleaning a quote-free field written between quotes gives back its text. */
  lemma CleanQuotedField(s: string)
    requires '"' !in s
    ensures CleanField(Quote(s)) == s
  {
    QuoteFreeUnchanged(s);
  }

  /** A date written between quotes loses them again when it holds no line terminator. */
  lemma UnquoteQuotedDate(s: string)
    requires NoLineTerminator(s)
    ensures UnquoteDate(Quote(s)) == s
  {
  }

  /** `.` does not match a line terminator, so a quoted date with a `\r` inside keeps its quotes. */
  lemma UnquoteTerminatorKept()
    ensures UnquoteDate(Quote("x\ry")) == Quote("x\ry")
  {
    var d := Quote("x\ry");
    assert d[1..|d| - 1] == "x\ry";
    assert IsLineTerminator(d[1..|d| - 1][1]);
  }

  /** A date without enclosing quotes is kept as it is. */
  lemma UnquoteBareDate(d: string)
    requires d == [] || d[0] != '"' || d[|d| - 1] != '"' || |d| < 2
    ensures UnquoteDate(d) == d
  {
  }

  // ---------------------------------------------------------------- decoding

  /** The card built from one trimmed line, or `None` when the row pattern does not match it. */
  function DecodeLine(line: string): (r: Option<Card>)
    ensures r.Some? <==> CountOf(line, ',') >= 5
  {
    ExecIffFiveCommas(line);
    match Exec(line)
    case None => None
    case Some(m) =>
      var g := m.groups;
      Some(Card(CleanField(g[0]), CleanField(g[1]), CleanField(g[2]), CleanField(g[3]),
                ParseInt(g[4]), UnquoteDate(g[5])))
  }

  /** What one data line contributes: it is trimmed, dropped when blank, and decoded otherwise. */
  function RowCards(row: string): (cards: seq<Card>)
    ensures |cards| <= 1
  {
    var line := Trim(row);
    var card := if line == "" then None else DecodeLine(line);
    if card.Some? then [card.value] else []
  }

  /** The cards of the data lines after the header, in the order of the lines. */
  function DecodeRows(rows: seq<string>): (cards: seq<Card>)
    ensures |cards| <= |rows|
  {
    if rows == [] then [] else RowCards(rows[0]) + DecodeRows(rows[1..])
  }

  /** `parseCSV`: split on `\n`, drop the header line, decode the rest. */
  function Decode(csv: string): (cards: seq<Card>)
    ensures |cards| <= CountOf(csv, '\n')
  {
    DecodeRows(Split(csv, '\n')[1..])
  }

  /** Decoding works line by line: the cards of two runs of lines come in the order of the lines. */
  lemma {:induction false} DecodeRowsAppend(a: seq<string>, b: seq<string>)
    ensures DecodeRows(a + b) == DecodeRows(a) + DecodeRows(b)
  {
    if a != [] {
      assert (a + b)[0] == a[0];
      assert (a + b)[1..] == a[1..] + b;
      DecodeRowsAppend(a[1..], b);
      var x := RowCards(a[0]);
      assert DecodeRows(a + b) == x + DecodeRows(a[1..] + b);
      assert DecodeRows(a) == x + DecodeRows(a[1..]);
      assert x + (DecodeRows(a[1..]) + DecodeRows(b)) == (x + DecodeRows(a[1..])) + DecodeRows(b);
    } else {
      assert a + b == b;
    }
  }

  /** A single data line gives no card when its trimmed text has fewer than five commas, and exactly one otherwise. */
  lemma DecodeOneRow(row: string)
    ensures CountOf(Trim(row), ',') < 5 ==> DecodeRows([row]) == []
    ensures CountOf(Trim(row), ',') >= 5 ==> DecodeRows([row]) == [DecodeLine(Trim(row)).value]
  {
    assert [row][1..] == [];
  }

  /** Every decoded card is the decoding of one of the lines. */
  lemma {:induction false} DecodedCardHasLine(rows: seq<string>, c: Card)
    requires c in DecodeRows(rows)
    ensures exists i :: 0 <= i < |rows| && DecodeLine(Trim(rows[i])) == Some(c)
  {
    if c in RowCards(rows[0]) {
      assert DecodeLine(Trim(rows[0])) == Some(c);
    } else {
      DecodedCardHasLine(rows[1..], c);
      var i :| 0 <= i < |rows[1..]| && DecodeLine(Trim(rows[1..][i])) == Some(c);
      assert rows[1..][i] == rows[i + 1];
    }
  }

  /** Lines that are blank once trimmed give no cards. */
  lemma {:induction false} DecodeBlankRows(rows: seq<string>)
    requires forall i :: 0 <= i < |rows| ==> Trim(rows[i]) == ""
    ensures DecodeRows(rows) == []
  {
    if rows != [] {
      DecodeBlankRows(rows[1..]);
    }
  }

  /** Text holding only its header line, or only blank lines after it, decodes to no cards. */
  lemma DecodeHeaderOnly(csv: string)
    requires forall i :: 1 <= i < |Split(csv, '\n')| ==> Trim(Split(csv, '\n')[i]) == ""
    ensures Decode(csv) == []
  {
    var rows := Split(csv, '\n')[1..];
    forall i | 0 <= i < |rows| ensures Trim(rows[i]) == "" {
      assert rows[i] == Split(csv, '\n')[i + 1];
    }
    DecodeBlankRows(rows);
  }

  // ---------------------------------------------------------------- encoding

  /** The box number as `join` writes it: its decimal digits, or `NaN`. */
  function BoxText(b: Option<int>): (r: string)
    ensures r != [] && r[0] != '"'
    ensures forall i :: 0 <= i < |r| ==> r[i] != ',' && r[i] != '"' && !IsLineTerminator(r[i])
  {
    match b
    case None => "NaN"
    case Some(n) => NumberToString(n)
  }

  /** `parseInt` reads the box number back from its text, NaN included. */
  lemma ParseBoxText(b: Option<int>)
    ensures ParseInt(BoxText(b)) == b
  {
    match b
    case None => ParseIntNaN();
    case Some(n) => ParseIntOfNumber(n);
  }

  /**
   * The six fields of one exported row, in header order: every field but the box number is
   * enclosed in quotes, and the box number holds neither a comma nor a quote.
   */
  function RowFields(c: Card): (fs: seq<string>)
    ensures |fs| == 6
    ensures Enclosed(fs[0]) && Enclosed(fs[1]) && Enclosed(fs[2]) && Enclosed(fs[3]) && Enclosed(fs[5])
    ensures fs[4] != [] && ',' !in fs[4] && '"' !in fs[4]
  {
    var b := BoxText(c.boxNumber);
    assert forall i :: 0 <= i < |b| ==> b[i] != ',' && b[i] != '"';
    [Quote(EscapeQuotes(c.questionContent)), Quote(c.questionContentImage),
     Quote(EscapeQuotes(c.answerContent)), Quote(c.answerContentImage),
     b, Quote(c.lastReviewed)]
  }

  /** A field that opens and closes with a quote of its own. */
  predicate Enclosed(f: string) {
    |f| >= 2 && f[0] == '"' && Last(f) == '"'
  }

  /**
   * One exported row: the six fields joined with commas.  It opens and closes with a quote,
   * and it is a single line when no field of the card holds a newline.
   */
  function EncodeRow(c: Card): (row: string)
    ensures row != [] && row[0] == '"' && Last(row) == '"'
    ensures NewlineFree(c) ==> '\n' !in row
  {
    var fs := RowFields(c);
    JoinEnds(fs, ',');
    RowNewlineFree(c);
    JoinWith(fs, ',')
  }

  /**
   * `flashcards.map(...)`: the row of each card, in the order of the cards.  Every row opens
   * and closes with a quote, and no row holds a newline when no card does.
   */
  function EncodeRows(cards: seq<Card>): (rows: seq<string>)
    ensures |rows| == |cards|
    ensures forall i :: 0 <= i < |rows| ==> rows[i] != [] && rows[i][0] == '"' && Last(rows[i]) == '"'
    ensures (forall c :: c in cards ==> NewlineFree(c)) ==> forall r :: r in rows ==> '\n' !in r
  {
    assert forall i :: 0 <= i < |cards| ==> cards[i] in cards;
    seq(|cards|, i requires 0 <= i < |cards| => EncodeRow(cards[i]))
  }

  /**
   * `generateCSV`: the header and one row per card, joined with `\n`, no trailing newline.
   * The text opens with the header, which is a line of its own when there are cards.
   */
  function Encode(cards: seq<Card>): (csv: string)
    ensures Header <= csv
    ensures cards == [] ==> csv == Header
    ensures cards != [] ==> |csv| > |Header| && csv[|Header|] == '\n'
  {
    var rows := EncodeRows(cards);
    JoinFirstPart(Header, rows, '\n');
    JoinWith([Header] + rows, '\n')
  }

  // ---------------------------------------------------------------- round trip

  /**
   * A card that survives export and import: its texts hold no line terminator and no `"`
   * right before a `,`; its image paths and date hold no `"` and no line terminator.
   * Every box number survives, NaN included.
   */
  predicate Representable(c: Card)
    ensures Representable(c) ==> NewlineFree(c)
  {
    && NoLineTerminator(c.questionContent) && NoQuoteComma(c.questionContent)
    && NoLineTerminator(c.answerContent) && NoQuoteComma(c.answerContent)
    && '"' !in c.questionContentImage && NoLineTerminator(c.questionContentImage)
    && '"' !in c.answerContentImage && NoLineTerminator(c.answerContentImage)
    && '"' !in c.lastReviewed && NoLineTerminator(c.lastReviewed)
  }

  /** A row spelled out field by field. */
  lemma RowShape(c: Card)
    ensures var fs := RowFields(c);
            EncodeRow(c) == fs[0] + [','] + (fs[1] + [','] + (fs[2] + [','] + (fs[3] + [','] + (fs[4] + [','] + fs[5]))))
  {
    var fs := RowFields(c);
    assert JoinWith(fs[4..], ',') == fs[4] + [','] + fs[5] by { assert fs[4..][1..] == [fs[5]]; }
    assert JoinWith(fs[3..], ',') == fs[3] + [','] + JoinWith(fs[4..], ',') by { assert fs[3..][1..] == fs[4..]; }
    assert JoinWith(fs[2..], ',') == fs[2] + [','] + JoinWith(fs[3..], ',') by { assert fs[2..][1..] == fs[3..]; }
    assert JoinWith(fs[1..], ',') == fs[1] + [','] + JoinWith(fs[2..], ',') by { assert fs[1..][1..] == fs[2..]; }
  }

  /** A quoted field whose body has no line terminator and no `",` is captured whole. */
  lemma QuotedWhole(body: string)
    requires NoLineTerminator(body) && NoQuoteComma(body)
    ensures WholeField(Quote(body))
  {
    var f := Quote(body);
    assert f[1..|f| - 1] == body;
  }

  /** A quoted field whose body has no quote and no line terminator is captured whole as the sixth. */
  lemma LastQuotedWhole(body: string)
    requires '"' !in body && NoLineTerminator(body)
    ensures WholeLastField(Quote(body))
  {
    var f := Quote(body);
    assert f[1..|f| - 1] == body;
  }

  /** Every field written for a representable card is one the pattern captures whole. */
  lemma RowFieldsWhole(c: Card)
    requires Representable(c)
    ensures var fs := RowFields(c);
            (forall i :: 0 <= i < 5 ==> WholeField(fs[i])) && WholeLastField(fs[5])
  {
    var fs := RowFields(c);
    TextWhole(c.questionContent);
    PathWhole(c.questionContentImage);
    TextWhole(c.answerContent);
    PathWhole(c.answerContentImage);
    BoxWhole(c.boxNumber);
    LastQuotedWhole(c.lastReviewed);
    assert WholeField(fs[0]) && WholeField(fs[1]) && WholeField(fs[2]) && WholeField(fs[3]) && WholeField(fs[4]);
    forall i | 0 <= i < 5 ensures WholeField(fs[i]) {
      assert i == 0 || i == 1 || i == 2 || i == 3 || i == 4;
    }
  }

  /** A question or answer text, escaped and quoted, is captured whole. */
  lemma TextWhole(s: string)
    requires NoLineTerminator(s) && NoQuoteComma(s)
    ensures WholeField(Quote(EscapeQuotes(s)))
  {
    EscapeKeepsNoQuoteComma(s);
    QuotedWhole(EscapeQuotes(s));
  }

  /** An image path, quoted, is captured whole. */
  lemma PathWhole(s: string)
    requires '"' !in s && NoLineTerminator(s)
    ensures WholeField(Quote(s))
  {
    QuoteFreeNoQuoteComma(s);
    QuotedWhole(s);
  }

  /** A box number's text is captured whole by the bare alternative. */
  lemma BoxWhole(b: Option<int>)
    ensures WholeField(BoxText(b))
  {
  }

  /** The row pattern captures exactly the six written fields of a representable card's row. */
  lemma RowGroups(c: Card)
    requires Representable(c)
    ensures Exec(EncodeRow(c)).Some?
    ensures Exec(EncodeRow(c)).value.groups == RowFields(c)
  {
    var row := EncodeRow(c);
    RowFieldsWhole(c);
    FieldsMatch(RowFields(c), 1);
    MatchIffCommas(row, 1);
    ExecIffFiveCommas(row);
  }

  /** A representable card's row decodes to the card. */
  lemma DecodeEncodeRow(c: Card)
    requires Representable(c)
    ensures DecodeLine(EncodeRow(c)) == Some(c)
  {
    RowGroups(c);
    CleanEscapedField(c.questionContent);
    CleanQuotedField(c.questionContentImage);
    CleanEscapedField(c.answerContent);
    CleanQuotedField(c.answerContentImage);
    ParseBoxText(c.boxNumber);
    UnquoteQuotedDate(c.lastReviewed);
  }

  /** A row starts and ends with a quote, so trimming leaves it alone. */
  lemma RowTrimmed(c: Card)
    ensures Trim(EncodeRow(c)) == EncodeRow(c)
  {
    TrimUnchanged(EncodeRow(c));
  }

  /** No field of the card contains a newline character. */
  predicate NewlineFree(c: Card) {
    && '\n' !in c.questionContent && '\n' !in c.questionContentImage
    && '\n' !in c.answerContent && '\n' !in c.answerContentImage
    && '\n' !in c.lastReviewed
  }

  /** A card whose fields hold no newline is written on one line. */
  lemma RowNewlineFree(c: Card)
    ensures NewlineFree(c) ==> '\n' !in JoinWith(RowFields(c), ',')
  {
    if NewlineFree(c) {
      var fs := RowFields(c);
      FieldsNewlineFree(c, fs);
      JoinFreeOf(fs, ',', '\n');
    }
  }

  /** No field written for a newline-free card holds a newline. */
  lemma FieldsNewlineFree(c: Card, fs: seq<string>)
    requires NewlineFree(c) && fs == RowFields(c)
    ensures forall p :: p in fs ==> '\n' !in p
  {
    var q := EscapeQuotes(c.questionContent);
    var a := EscapeQuotes(c.answerContent);
    assert '\n' !in q && '\n' !in a;
    QuoteFreeOf(q, '\n');
    QuoteFreeOf(c.questionContentImage, '\n');
    QuoteFreeOf(a, '\n');
    QuoteFreeOf(c.answerContentImage, '\n');
    QuoteFreeOf(c.lastReviewed, '\n');
    BoxTextFreeOf(c.boxNumber, '\n');
    assert fs == [Quote(q), Quote(c.questionContentImage), Quote(a), Quote(c.answerContentImage),
                  BoxText(c.boxNumber), Quote(c.lastReviewed)];
  }

  /** Putting quotes around a text adds no character other than `"`. */
  lemma QuoteFreeOf(s: string, ch: char)
    requires ch != '"' && ch !in s
    ensures ch !in Quote(s)
  {
  }

  /** The text of a box number holds no line terminator. */
  lemma BoxTextFreeOf(b: Option<int>, ch: char)
    requires IsLineTerminator(ch)
    ensures ch !in BoxText(b)
  {
    var r := BoxText(b);
    forall i | 0 <= i < |r| ensures r[i] != ch {
      assert !IsLineTerminator(r[i]);
    }
  }

  /**
   * The exported text, split at `\n`, is the header followed by exactly one row per card,
   * in order, with nothing after the last row, when no field holds a newline.
   */
  lemma EncodeLines(cards: seq<Card>)
    requires forall c :: c in cards ==> NewlineFree(c)
    ensures Split(Encode(cards), '\n') == [Header] + EncodeRows(cards)
    ensures |Split(Encode(cards), '\n')| == |cards| + 1
  {
    HeaderOneLine();
    SplitJoin([Header] + EncodeRows(cards), '\n');
  }

  /** The line written for a representable card contributes exactly that card. */
  lemma EncodedRowCards(c: Card)
    requires Representable(c)
    ensures RowCards(EncodeRow(c)) == [c]
  {
    RowTrimmed(c);
    DecodeEncodeRow(c);
    assert EncodeRow(c)[0] == '"';
  }

  /** The header is a single line. */
  lemma HeaderOneLine()
    ensures '\n' !in Header
  {
    assert forall p :: p in Columns ==> '\n' !in p;
    JoinFreeOf(Columns, ',', '\n');
  }

  /** Lines that each decode to one card decode, together, to those cards in order. */
  lemma {:induction false} DecodeEachRow(rows: seq<string>, cards: seq<Card>)
    requires |rows| == |cards|
    requires forall i :: 0 <= i < |rows| ==> RowCards(rows[i]) == [cards[i]]
    ensures DecodeRows(rows) == cards
  {
    if rows != [] {
      var rest := cards[1..];
      forall i | 0 <= i < |rows[1..]| ensures RowCards(rows[1..][i]) == [rest[i]] {
        assert rows[1..][i] == rows[i + 1] && rest[i] == cards[i + 1];
      }
      DecodeEachRow(rows[1..], rest);
      assert DecodeRows(rows) == RowCards(rows[0]) + DecodeRows(rows[1..]);
      assert [cards[0]] + rest == cards;
    }
  }

  /** Representable cards, exported as rows, decode to the same cards in the same order. */
  lemma DecodeEncodeRows(cards: seq<Card>)
    requires forall c :: c in cards ==> Representable(c)
    ensures DecodeRows(EncodeRows(cards)) == cards
  {
    var rows := EncodeRows(cards);
    forall i | 0 <= i < |rows| ensures RowCards(rows[i]) == [cards[i]] {
      EncodedRowCards(cards[i]);
    }
    DecodeEachRow(rows, cards);
  }

  /** A list of one card is written as that card's row. */
  lemma EncodeRowsOne(c: Card)
    ensures EncodeRows([c]) == [EncodeRow(c)]
  {
  }

  /** Exporting representable cards and importing the text gives back the same list. */
  lemma DecodeEncode(cards: seq<Card>)
    ensures (forall c :: c in cards ==> Representable(c)) ==> Decode(Encode(cards)) == cards
  {
    if forall c :: c in cards ==> Representable(c) {
      EncodeLines(cards);
      assert Split(Encode(cards), '\n')[1..] == EncodeRows(cards);
      DecodeEncodeRows(cards);
    }
  }

  /** An empty list is exported as the header alone, which imports as an empty list. */
  lemma DecodeEncodeEmpty()
    ensures Encode([]) == Header
    ensures Decode(Encode([])) == []
  {
    DecodeEncode([]);
  }

  // ---------------------------------------------------------------- a worked row

  /** The card on the row `"2+2=?","","4","",1,"2024-01-01"`. */
  const SampleCard := Card("2+2=?", "", "4", "", Some(1), "2024-01-01")

  /** The six fields export writes for the sample card: only quotes are added. */
  lemma SampleFields()
    ensures RowFields(SampleCard) == [Quote("2+2=?"), Quote(""), Quote("4"), Quote(""), "1", Quote("2024-01-01")]
  {
    QuoteFreeUnchanged("2+2=?");
    QuoteFreeUnchanged("4");
    assert BoxText(Some(1)) == "1";
  }

  /**
   * The sample's fields between quotes, spelled out as literals.  Kept apart from
   * `SampleEncoded` because each literal equality is costly for the solver in a larger proof.
   */
  lemma SampleQuotes()
    ensures Quote("2+2=?") == "\"2+2=?\""
    ensures Quote("") == "\"\""
    ensures Quote("4") == "\"4\""
    ensures Quote("2024-01-01") == "\"2024-01-01\""
  {
  }

  /** The sample card meets the round-trip condition. */
  lemma SampleRepresentable()
    ensures Representable(SampleCard)
  {
    assert NoLineTerminator("2+2=?") && NoQuoteComma("2+2=?");
    assert NoLineTerminator("4") && NoQuoteComma("4");
    assert '"' !in "" && NoLineTerminator("");
    assert '"' !in "2024-01-01" && NoLineTerminator("2024-01-01");
  }

  /** The row `"2+2=?","","4","",1,"2024-01-01"`, written field by field. */
  const SampleText: string :=
    "\"2+2=?\"" + "," + "\"\"" + "," + "\"4\"" + "," + "\"\"" + "," + "1" + "," + "\"2024-01-01\""

  /**
   * Six fields joined with commas, regrouped to the right, the way `RowShape` spells a row.
   * Proved on plain variables so that `SampleEncoded` need not regroup the literals itself.
   */
  lemma RowConcat(a: string, b: string, c: string, d: string, e: string, f: string)
    ensures a + "," + b + "," + c + "," + d + "," + e + "," + f
         == a + [','] + (b + [','] + (c + [','] + (d + [','] + (e + [','] + f))))
  {
  }

  /** That row is exactly what export writes for the sample card. */
  lemma SampleEncoded()
    ensures EncodeRow(SampleCard) == SampleText
  {
    var fs := RowFields(SampleCard);
    SampleFields();
    SampleQuotes();
    RowShape(SampleCard);
    assert fs[0] == "\"2+2=?\"" && fs[1] == "\"\"" && fs[2] == "\"4\"";
    assert fs[3] == "\"\"" && fs[4] == "1" && fs[5] == "\"2024-01-01\"";
    RowConcat(fs[0], fs[1], fs[2], fs[3], fs[4], fs[5]);
  }

  /** Import reads the sample card, and only it, back from that row. */
  lemma SampleRow()
    ensures RowCards(SampleText) == [SampleCard]
  {
    SampleEncoded();
    SampleRepresentable();
    EncodedRowCards(SampleCard);
  }

  /** The question `He said "hi"` holds quotes, but no line terminator and no `",`. */
  lemma QuotedQuestionClean()
    ensures NoLineTerminator("He said \"hi\"") && NoQuoteComma("He said \"hi\"")
  {
  }

  /** The card with that question, no images, box 1 and a date meets the round-trip condition. */
  lemma QuotedQuestionRepresentable()
    ensures Representable(Card("He said \"hi\"", "", "", "", Some(1), "2024-01-01"))
  {
    QuotedQuestionClean();
    assert '"' !in "2024-01-01" && NoLineTerminator("2024-01-01");
  }

  /** A question holding quotes, `He said "hi"`, comes back exactly. */
  lemma QuotedQuestionRoundTrip()
    ensures var c := Card("He said \"hi\"", "", "", "", Some(1), "2024-01-01");
            Decode(Encode([c])) == [c]
  {
    var c := Card("He said \"hi\"", "", "", "", Some(1), "2024-01-01");
    QuotedQuestionRepresentable();
    assert forall x :: x in [c] ==> Representable(x);
    DecodeEncode([c]);
  }

  // ---------------------------------------------------------------- a row that does not survive

  /** A card whose question holds `",`: its row is `"a"",b","","","",1,""`. */
  const QuoteCommaCard := Card("a\",b", "", "", "", Some(1), "")

  /** The fields export writes for it: the question's quote is doubled, nothing else changes. */
  lemma QuoteCommaFields()
    ensures RowFields(QuoteCommaCard) == [Quote("a\"\",b"), Quote(""), Quote(""), Quote(""), "1", Quote("")]
  {
    assert EscapeQuotes("a\",b") == "a\"\",b";
    assert BoxText(Some(1)) == "1";
  }

  /** The same row, cut where the pattern will cut it. */
  lemma QuoteCommaText()
    ensures EncodeRow(QuoteCommaCard) == Quote("a\"") + [','] + ("b\"" + [','] + QuoteCommaThird)
  {
    var fs := RowFields(QuoteCommaCard);
    QuoteCommaFields();
    RowShape(QuoteCommaCard);
    var rest := fs[1] + [','] + (fs[2] + [','] + (fs[3] + [','] + (fs[4] + [','] + fs[5])));
    assert rest == QuoteCommaThird;
    QuoteCommaSplit(rest);
  }

  /** The escaped question `"a"",b"` is the quoted field `"a""` and the text `b"`, joined by a comma. */
  lemma QuoteCommaSplit(rest: string)
    ensures Quote("a\"\",b") + [','] + rest == Quote("a\"") + [','] + ("b\"" + [','] + rest)
  {
    assert Quote("a\"\",b") == Quote("a\"") + [','] + "b\"";
  }


  /** The text after the second comma of that row: three empty quoted fields, `1` and one more empty quoted field. */
  const QuoteCommaSixth: string := "1" + [','] + Quote("")
  const QuoteCommaFifth: string := Quote("") + [','] + QuoteCommaSixth
  const QuoteCommaFourth: string := Quote("") + [','] + QuoteCommaFifth
  const QuoteCommaThird: string := Quote("") + [','] + QuoteCommaFourth

  /**
   * A well-formed quoted field in front of a matching tail adds its group in front of the tail's.
   * This is `QuotedFieldStep` with the tail's groups passed in, so that the callers below can
   * name them as a literal list instead of unfolding the match of the tail once more.
   */
  lemma QuotedGroupStep(body: string, tail: string, k: nat, gs: seq<string>)
    requires 1 <= k < 6
    requires NoLineTerminator(body) && NoQuoteComma(body)
    requires MatchFrom(tail, k + 1) == Some(gs)
    ensures MatchFrom(Quote(body) + [','] + tail, k) == Some([Quote(body)] + gs)
  {
    QuotedFieldStep(body, tail, k);
  }

  /**
   * One group put in front of four or five others.  Proved here on plain variables; written
   * out inside the lemmas below, where the groups are long string literals, the same
   * sequence equality makes the solver do far more work.
   */
  lemma GroupInFront(g: string, gs: seq<string>)
    ensures |gs| == 4 ==> [g] + gs == [g, gs[0], gs[1], gs[2], gs[3]]
    ensures |gs| == 5 ==> [g] + gs == [g, gs[0], gs[1], gs[2], gs[3], gs[4]]
  {
  }

  /** The last group stops at the comma after `1`. */
  lemma QuoteCommaSixthGroup()
    ensures MatchFrom(QuoteCommaSixth, 6) == Some(["1"])
  {
    var t := QuoteCommaSixth;
    assert t[0] == '1' && t[1] == ',';
    assert NonCommaRun(t) == 1;
    assert t[..1] == "1";
  }

  lemma QuoteCommaFifthGroup()
    ensures MatchFrom(QuoteCommaFifth, 5) == Some([Quote(""), "1"])
  {
    QuoteCommaSixthGroup();
    QuotedGroupStep("", QuoteCommaSixth, 5, ["1"]);
    assert [Quote("")] + ["1"] == [Quote(""), "1"];
  }

  lemma QuoteCommaFourthGroup()
    ensures MatchFrom(QuoteCommaFourth, 4) == Some([Quote(""), Quote(""), "1"])
  {
    QuoteCommaFifthGroup();
    QuotedGroupStep("", QuoteCommaFifth, 4, [Quote(""), "1"]);
    assert [Quote("")] + [Quote(""), "1"] == [Quote(""), Quote(""), "1"];
  }

  /** The last four fields the pattern finds in that row. */
  lemma QuoteCommaTail()
    ensures MatchFrom(QuoteCommaThird, 3) == Some([Quote(""), Quote(""), Quote(""), "1"])
  {
    QuoteCommaFourthGroup();
    QuotedGroupStep("", QuoteCommaFourth, 3, [Quote(""), Quote(""), "1"]);
    assert [Quote("")] + [Quote(""), Quote(""), "1"] == [Quote(""), Quote(""), Quote(""), "1"];
  }

  /** From the second group on: the rest of the question, bare, then the last four fields. */
  lemma QuoteCommaSecondGroup()
    ensures MatchFrom("b\"" + [','] + QuoteCommaThird, 2) == Some(["b\"", Quote(""), Quote(""), Quote(""), "1"])
  {
    QuoteCommaTail();
    BareFieldStep("b\"", QuoteCommaThird, 2);
    GroupInFront("b\"", [Quote(""), Quote(""), Quote(""), "1"]);
  }

  /**
   * The six groups the pattern finds in that row: the first field closes at the escaped
   * quote, the rest of the question becomes the second field, and every later value lands one
   * field further on, so that the box number `1` is the sixth.
   */
  lemma QuoteCommaMatch()
    ensures MatchFrom(Quote("a\"") + [','] + ("b\"" + [','] + QuoteCommaThird), 1)
         == Some([Quote("a\""), "b\"", Quote(""), Quote(""), Quote(""), "1"])
  {
    var t2 := "b\"" + [','] + QuoteCommaThird;
    var gs := ["b\"", Quote(""), Quote(""), Quote(""), "1"];
    QuoteCommaSecondGroup();
    assert "a\""[1] == '"' && "a\""[0] != '"';
    assert NoLineTerminator("a\"") && NoQuoteComma("a\"");
    QuotedFieldStep("a\"", t2, 1);
    GroupInFront(Quote("a\""), gs);
  }

  /** The first group loses its enclosing quotes; the quote left inside has no partner to collapse with. */
  lemma QuoteCommaFirstGroup()
    ensures CleanField(Quote("a\"")) == "a\""
  {
    var f := Quote("a\"");
    assert |f| == 4 && f[0] == '"';
    assert f[1..|f| - 1] == "a\"";
    assert CollapseQuotes("\"") == "\"";
    assert CollapseQuotes("a\"") == "a\"";
  }

  /** What the decoder makes of each of those groups. */
  lemma QuoteCommaGroups()
    ensures CleanField(Quote("a\"")) == "a\"" && CleanField("b\"") == "b\"" && CleanField(Quote("")) == ""
    ensures ParseInt(Quote("")) == None && UnquoteDate("1") == "1"
  {
    QuoteCommaFirstGroup();
    assert Quote("")[1..1] == [];
    assert LeadingSpace(Quote("")) == 0;
    assert Quote("")[0..] == Quote("");
  }

  /** The card import reads from that row. */
  lemma QuoteCommaDecoded()
    ensures DecodeLine(EncodeRow(QuoteCommaCard)) == Some(Card("a\"", "b\"", "", "", None, "1"))
  {
    var t := Quote("a\"") + [','] + ("b\"" + [','] + QuoteCommaThird);
    QuoteCommaText();
    QuoteCommaMatch();
    MatchIffCommas(t, 1);
    ExecIffFiveCommas(t);
    QuoteCommaGroups();
  }

  /** The card is not representable: its question has a `"` right before a `,`. */
  lemma QuoteCommaNotRepresentable()
    ensures !Representable(QuoteCommaCard)
  {
    var q := QuoteCommaCard.questionContent;
    assert q[1] == '"' && q[2] == ',';
  }

  /** Exporting a list of that one card gives the header line and that card's row. */
  lemma QuoteCommaLines()
    ensures Split(Encode([QuoteCommaCard]), '\n')[1..] == [EncodeRow(QuoteCommaCard)]
  {
    var c := QuoteCommaCard;
    QuoteCommaNewlineFree();
    EncodeLines([c]);
    EncodeRowsOne(c);
  }

  /** No field of that card holds a newline. */
  lemma QuoteCommaNewlineFree()
    ensures NewlineFree(QuoteCommaCard)
  {
    assert '\n' !in QuoteCommaCard.questionContent;
  }

  /** That row, read back on import, gives the card whose values each sit one field later. */
  lemma QuoteCommaRowCards()
    ensures RowCards(EncodeRow(QuoteCommaCard)) == [Card("a\"", "b\"", "", "", None, "1")]
  {
    var row := EncodeRow(QuoteCommaCard);
    RowTrimmed(QuoteCommaCard);
    QuoteCommaDecoded();
    assert row[0] == '"';
  }

  /**
   * A question holding `",` is not representable, and its export does not import back: the
   * lazy quoted alternative closes the first field at the escaped quote before the comma, the
   * rest of the question becomes the question image, every later value lands one field later
   * (the box number `1` becomes the date), and the box number read is NaN.
   */
  lemma QuoteCommaBreaksRoundTrip()
    ensures !Representable(QuoteCommaCard)
    ensures Decode(Encode([QuoteCommaCard])) == [Card("a\"", "b\"", "", "", None, "1")]
    ensures Decode(Encode([QuoteCommaCard])) != [QuoteCommaCard]
  {
    QuoteCommaNotRepresentable();
    QuoteCommaLines();
    QuoteCommaRowCards();
    DecodeOneLine(Encode([QuoteCommaCard]), EncodeRow(QuoteCommaCard));
    assert |"a\""| != |QuoteCommaCard.questionContent|;
  }

  /** Text whose only line after the header is `row` imports as what that line contributes. */
  lemma DecodeOneLine(csv: string, row: string)
    requires Split(csv, '\n')[1..] == [row]
    ensures Decode(csv) == RowCards(row)
  {
    assert DecodeRows([row]) == RowCards(row) + DecodeRows([]);
  }
}
