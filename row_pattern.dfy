/**
 * The regular expression that splits one trimmed CSV line into six capture groups:
 *
 *   (".*?"|[^,]*),(".*?"|[^,]*),(".*?"|[^,]*),(".*?"|[^,]*),(".*?"|[^,]*),(".*?"|[^,]*)
 *
 * modelled as the deterministic backtracking search a JavaScript engine performs.  For each
 * of the first five fields the quoted alternative is tried first: an opening `"`, then the
 * shortest run of characters other than line terminators that ends in a `"` followed by `,`
 * and by a successful match of the remaining fields; longer runs are tried in turn when the
 * rest fails, and only after all of them fail the bare alternative, the longest comma-free
 * run, is tried.  The sixth field ends at the first closing quote or is the longest
 * comma-free run.  The pattern has no anchor, so `match` tries each start index in turn.
 *
 * Matching at an index only depends on the text from that index on, so the matcher works
 * on suffixes.
 */
module RowPattern {
  import opened Wrappers
  import opened JsStrings

  /** Length of the longest comma-free prefix of `t`: what `[^,]*` consumes. */
  function NonCommaRun(t: string): (n: nat)
    ensures n <= |t|
    ensures forall i :: 0 <= i < n ==> t[i] != ','
    ensures n < |t| ==> t[n] == ','
  {
    if |t| > 0 && t[0] != ',' then 1 + NonCommaRun(t[1..]) else 0
  }

  /**
   * The index of the `"` that ends a lazy `".*?"` opened at index 0, searching from `j`:
   * the first `"` at or after `j`, provided no line terminator comes before it.
   */
  function ClosingQuote(t: string, j: nat): (r: Option<nat>)
    requires 1 <= j <= |t|
    ensures r.Some? ==> j <= r.value < |t| && t[r.value] == '"'
    ensures r.Some? ==> forall i :: j <= i < r.value ==> t[i] != '"' && !IsLineTerminator(t[i])
    ensures r.None? ==> forall q :: j <= q < |t| && t[q] == '"' ==> exists m :: j <= m < q && IsLineTerminator(t[m])
    decreases |t| - j
  {
    if j == |t| then None
    else if t[j] == '"' then Some(j)
    else if IsLineTerminator(t[j]) then None
    else ClosingQuote(t, j + 1)
  }

  /**
   * `t` opens with `"` and some later `"` has no line terminator before it: the quoted
   * alternative of the sixth field can close.
   */
  predicate CanClose(t: string) {
    |t| > 0 && t[0] == '"' &&
    exists q :: 1 <= q < |t| && t[q] == '"' && forall m :: 1 <= m < q ==> !IsLineTerminator(t[m])
  }

  /**
   * The sixth group, matched at the start of `t`; nothing has to follow it.  When the quoted
   * alternative can close, the group runs to the first `"` after the opening one; otherwise
   * it is the longest comma-free prefix.
   */
  function LastField(t: string): (g: string)
    ensures g <= t
    ensures CanClose(t) ==> |g| >= 2 && Last(g) == '"' &&
                            forall m :: 1 <= m < |g| - 1 ==> g[m] != '"' && !IsLineTerminator(g[m])
    ensures !CanClose(t) ==> (forall m :: 0 <= m < |g| ==> g[m] != ',') && (|g| == |t| || t[|g|] == ',')
  {
    var close := if |t| > 0 && t[0] == '"' then ClosingQuote(t, 1) else None;
    if close.Some? then
      assert CanClose(t) by {
        var q := close.value;
        assert 1 <= q < |t| && t[q] == '"' && forall m :: 1 <= m < q ==> !IsLineTerminator(t[m]);
      }
      t[..close.value + 1]
    else
      t[..NonCommaRun(t)]
  }

  /** Prepending a group and a comma keeps the rejoined groups a prefix of the text. */
  lemma GroupThenComma(t: string, n: nat, rest: seq<string>)
    requires n < |t| && t[n] == ','
    requires rest != [] && JoinWith(rest, ',') <= t[n + 1..]
    ensures JoinWith([t[..n]] + rest, ',') <= t
  {
    JoinWithCons(t[..n], rest, ',');
    var j := JoinWith(rest, ',');
    var m := n + 1 + |j|;
    assert j == t[n + 1..][..|j|];
    assert t[n + 1..][..|j|] == t[n + 1..m];
    assert t[..m] == t[..n] + [','] + t[n + 1..m];
  }

  /**
   * Fields `k`..6 of the pattern matched at the start of `t`: their capture groups, which,
   * rejoined with commas, are the text the match consumed.
   */
  function MatchFrom(t: string, k: nat): (r: Option<seq<string>>)
    requires 1 <= k <= 6
    ensures r.Some? ==> |r.value| == 7 - k && JoinWith(r.value, ',') <= t
    decreases 6 - k, |t| + 1
  {
    if k == 6 then Some([LastField(t)])
    else
      var quoted := if |t| > 0 && t[0] == '"' then TryQuoted(t, 1, k) else None;
      if quoted.Some? then quoted else TryBare(t, k)
  }

  /**
   * The quoted alternative for field `k` < 6 opened at index 0 of `t`, with every closing
   * quote before index `j` already rejected: lazy `.*?` first tries to close at `j`.
   */
  function TryQuoted(t: string, j: nat, k: nat): (r: Option<seq<string>>)
    requires 1 <= k < 6 && 1 <= j <= |t| && t[0] == '"'
    ensures r.Some? ==> |r.value| == 7 - k && JoinWith(r.value, ',') <= t
    decreases 6 - k, |t| - j
  {
    var rest := if j + 1 < |t| && t[j] == '"' && t[j + 1] == ',' then MatchFrom(t[j + 2..], k + 1) else None;
    if rest.Some? then
      GroupThenComma(t, j + 1, rest.value);
      Some([t[..j + 1]] + rest.value)
    else if j < |t| && !IsLineTerminator(t[j]) then TryQuoted(t, j + 1, k)
    else None
  }

  /** The bare alternative for field `k` < 6: the longest comma-free run, then a comma. */
  function TryBare(t: string, k: nat): (r: Option<seq<string>>)
    requires 1 <= k < 6
    ensures r.Some? ==> |r.value| == 7 - k && JoinWith(r.value, ',') <= t
    decreases 6 - k, 0
  {
    var n := NonCommaRun(t);
    var rest := if n < |t| then MatchFrom(t[n + 1..], k + 1) else None;
    if rest.Some? then
      GroupThenComma(t, n, rest.value);
      Some([t[..n]] + rest.value)
    else None
  }

  /** A successful `match`: the index it starts at and its six capture groups. */
  datatype Match = Match(index: nat, groups: seq<string>)

  /** The unanchored search, trying start indices `i`, `i + 1`, ... up to `|s|`. */
  function SearchFrom(s: string, i: nat): (r: Option<Match>)
    requires i <= |s|
    ensures r.Some? ==> i <= r.value.index <= |s| && |r.value.groups| == 6
    ensures r.Some? ==> JoinWith(r.value.groups, ',') <= s[r.value.index..]
    decreases |s| - i
  {
    var m := MatchFrom(s[i..], 1);
    if m.Some? then Some(Match(i, m.value))
    else if i < |s| then SearchFrom(s, i + 1)
    else None
  }

  /**
   * `s.match(pattern)`: the leftmost match of the row pattern in `s`, if any: six groups
   * that, rejoined with commas, are the text found at the match's index.
   */
  function Exec(s: string): (r: Option<Match>)
    ensures r.Some? ==> r.value.index <= |s| && |r.value.groups| == 6
    ensures r.Some? ==> JoinWith(r.value.groups, ',') <= s[r.value.index..]
  {
    SearchFrom(s, 0)
  }

  /** Characters that are all different from `c` do not change the count of `c`. */
  lemma {:induction false} CountSkip(t: string, n: nat, c: char)
    requires n <= |t|
    requires forall i :: 0 <= i < n ==> t[i] != c
    ensures CountOf(t, c) == CountOf(t[n..], c)
    decreases n
  {
    if n > 0 {
      CountSkip(t[1..], n - 1, c);
      assert t[1..][n - 1..] == t[n..];
    }
  }

  /** A suffix holds no more occurrences than the whole. */
  lemma {:induction false} CountSuffix(t: string, j: nat, c: char)
    requires j <= |t|
    ensures CountOf(t[j..], c) <= CountOf(t, c)
    decreases j
  {
    if j > 0 {
      CountSuffix(t[1..], j - 1, c);
      assert t[1..][j - 1..] == t[j..];
    }
  }

  /** Dropping the first character of a non-empty string. */
  lemma CountStep(t: string, j: nat, c: char)
    requires j < |t|
    ensures CountOf(t[j..], c) == (if t[j] == c then 1 else 0) + CountOf(t[j + 1..], c)
  {
    assert t[j..][1..] == t[j + 1..];
  }

  /** Fields `k`..6 match at the start of `t` exactly when `t` holds at least `6 - k` commas. */
  lemma {:induction false} MatchIffCommas(t: string, k: nat)
    requires 1 <= k <= 6
    ensures MatchFrom(t, k).Some? <==> CountOf(t, ',') >= 6 - k
    decreases 6 - k, |t| + 1
  {
    if k < 6 {
      BareIffCommas(t, k);
      if |t| > 0 && t[0] == '"' {
        QuotedNeedsCommas(t, 1, k);
        CountSuffix(t, 1, ',');
      }
    }
  }

  /** With a comma after the run, the bare alternative succeeds when the later fields match. */
  lemma TryBareStep(t: string, k: nat, n: nat)
    requires 1 <= k < 6
    requires n == NonCommaRun(t) && n < |t|
    ensures TryBare(t, k).Some? <==> MatchFrom(t[n + 1..], k + 1).Some?
  {
    var rest := MatchFrom(t[n + 1..], k + 1);
    if rest.Some? {
      assert TryBare(t, k) == Some([t[..n]] + rest.value);
    } else {
      assert TryBare(t, k) == None;
    }
  }

  /** The comma that ends the run is one of the commas of `t`; the others come after it. */
  lemma CountAfterRun(t: string, n: nat)
    requires n == NonCommaRun(t) && n < |t|
    ensures CountOf(t, ',') == 1 + CountOf(t[n + 1..], ',')
  {
    CountSkip(t, n, ',');
    CountStep(t, n, ',');
  }

  /** A text without a comma fails the bare alternative and counts no comma. */
  lemma NoCommaAtAll(t: string, k: nat)
    requires 1 <= k < 6
    requires NonCommaRun(t) == |t|
    ensures TryBare(t, k).None? && CountOf(t, ',') == 0
  {
    CountSkip(t, |t|, ',');
    assert t[|t|..] == [];
  }

  /** The bare alternative succeeds exactly when enough commas remain. */
  lemma {:induction false} BareIffCommas(t: string, k: nat)
    requires 1 <= k < 6
    ensures TryBare(t, k).Some? <==> CountOf(t, ',') >= 6 - k
    decreases 6 - k, 0
  {
    var n := NonCommaRun(t);
    if n < |t| {
      var u := t[n + 1..];
      TryBareStep(t, k, n);
      CountAfterRun(t, n);
      MatchIffCommas(u, k + 1);
      CommaShift(TryBare(t, k).Some?, MatchFrom(u, k + 1).Some?, CountOf(t, ','), CountOf(u, ','), 6 - k);
    } else {
      NoCommaAtAll(t, k);
    }
  }

  /**
   * One comma consumed: needing `need - 1` more after it is needing `need` before it.  The
   * step of `BareIffCommas`, stated over plain booleans and counts so that the solver does
   * not reason about matches and counts at the same time.
   */
  lemma CommaShift(here: bool, after: bool, countHere: int, countAfter: int, need: int)
    requires here <==> after
    requires after <==> countAfter >= need - 1
    requires countHere == 1 + countAfter
    ensures here <==> countHere >= need
  {
  }

  /** The quoted alternative only succeeds when enough commas remain. */
  lemma {:induction false} QuotedNeedsCommas(t: string, j: nat, k: nat)
    requires 1 <= k < 6 && 1 <= j <= |t| && t[0] == '"'
    ensures TryQuoted(t, j, k).Some? ==> CountOf(t[j..], ',') >= 6 - k
    decreases 6 - k, |t| - j
  {
    if j < |t| {
      CountStep(t, j, ',');
      if j + 1 < |t| && t[j] == '"' && t[j + 1] == ',' {
        CountStep(t, j + 1, ',');
        MatchIffCommas(t[j + 2..], k + 1);
      }
      if !IsLineTerminator(t[j]) {
        QuotedNeedsCommas(t, j + 1, k);
      }
    }
  }

  /** With fewer than five commas in `s`, no start index yields a match. */
  lemma {:induction false} NoMatchFrom(s: string, i: nat)
    requires i <= |s|
    requires CountOf(s, ',') < 5
    ensures SearchFrom(s, i).None?
    decreases |s| - i
  {
    CountSuffix(s, i, ',');
    MatchIffCommas(s[i..], 1);
    if i < |s| {
      NoMatchFrom(s, i + 1);
    }
  }

  /**
   * The row pattern matches a line exactly when the line holds at least five commas, and a
   * match always starts at index 0: the unanchored search never has to move on.
   */
  lemma ExecIffFiveCommas(s: string)
    ensures Exec(s).Some? <==> CountOf(s, ',') >= 5
    ensures Exec(s).Some? ==> Exec(s).value.index == 0 && Exec(s).value.groups == MatchFrom(s, 1).value
  {
    assert s[0..] == s;
    MatchIffCommas(s, 1);
    if CountOf(s, ',') < 5 {
      NoMatchFrom(s, 0);
    }
  }

  /** `"${s}"`: `s` between two double quotes, as a template literal writes it. */
  function Quote(s: string): (r: string)
    ensures |r| == |s| + 2 && r[0] == '"' && r[|r| - 1] == '"' && r[1..|r| - 1] == s
  {
    "\"" + s + "\""
  }

  /** No `"` in `s` is immediately followed by `,`: a quoted field cannot close early. */
  predicate NoQuoteComma(s: string) {
    forall i :: 0 <= i < |s| - 1 ==> s[i] == '"' ==> s[i + 1] != ','
  }

  /** A text without quotes has no `",` in it. */
  lemma QuoteFreeNoQuoteComma(s: string)
    requires '"' !in s
    ensures NoQuoteComma(s)
  {
    forall i | 0 <= i < |s| - 1 ensures s[i] != '"' {
      assert s[i] in s;
    }
  }

  /** Scanning for the closing quote skips the whole body of a well-formed quoted field. */
  lemma {:induction false} QuotedScan(body: string, tail: string, k: nat, j: nat)
    requires 1 <= k < 6
    requires NoLineTerminator(body) && NoQuoteComma(body)
    requires MatchFrom(tail, k + 1).Some?
    requires 1 <= j <= |body| + 1
    ensures var t := Quote(body) + [','] + tail;
            TryQuoted(t, j, k) == Some([Quote(body)] + MatchFrom(tail, k + 1).value)
    decreases |body| + 1 - j
  {
    var t := Quote(body) + [','] + tail;
    if j <= |body| {
      BodyChar(body, tail, j);
      QuotedSkip(t, j, k);
      QuotedScan(body, tail, k, j + 1);
    } else {
      QuotedClose(body, tail, k);
    }
  }

  /** Inside the body of a quoted field, a character neither ends the line nor closes the field. */
  lemma BodyChar(body: string, tail: string, j: nat)
    requires NoLineTerminator(body) && NoQuoteComma(body)
    requires 1 <= j <= |body|
    ensures var t := Quote(body) + [','] + tail;
            j + 1 < |t| && !IsLineTerminator(t[j]) && (t[j] == '"' ==> t[j + 1] != ',')
  {
    var t := Quote(body) + [','] + tail;
    assert t[j] == body[j - 1];
    assert body[j - 1] in body;
    if j < |body| {
      assert t[j + 1] == body[j];
    } else {
      assert t[j + 1] == '"';
    }
  }

  /** Lazy `.*?` moves past a character that neither closes the field nor ends the line. */
  lemma QuotedSkip(t: string, j: nat, k: nat)
    requires 1 <= k < 6 && 1 <= j < |t| && t[0] == '"'
    requires !IsLineTerminator(t[j])
    requires j + 1 < |t| && t[j] == '"' ==> t[j + 1] != ','
    ensures TryQuoted(t, j, k) == TryQuoted(t, j + 1, k)
  {
  }

  /** At the quote that ends the body, followed by a comma, the quoted alternative closes. */
  lemma QuotedClose(body: string, tail: string, k: nat)
    requires 1 <= k < 6
    requires MatchFrom(tail, k + 1).Some?
    ensures var t := Quote(body) + [','] + tail;
            TryQuoted(t, |body| + 1, k) == Some([Quote(body)] + MatchFrom(tail, k + 1).value)
  {
    var t := Quote(body) + [','] + tail;
    var j := |body| + 1;
    assert t[j] == '"' && t[j + 1] == ',';
    assert t[j + 2..] == tail;
    assert t[..j + 1] == Quote(body);
  }

  /**
   * A field written as `"body"` followed by a comma is captured whole, quotes included,
   * when its body has no line terminator and no `"` right before a `,`, and the fields
   * after it match.
   */
  lemma QuotedFieldStep(body: string, tail: string, k: nat)
    requires 1 <= k < 6
    requires NoLineTerminator(body) && NoQuoteComma(body)
    requires MatchFrom(tail, k + 1).Some?
    ensures MatchFrom(Quote(body) + [','] + tail, k) == Some([Quote(body)] + MatchFrom(tail, k + 1).value)
  {
    QuotedScan(body, tail, k, 1);
  }

  /**
   * A comma-free field that does not start with `"` is captured whole by the bare
   * alternative when the fields after it match.
   */
  lemma BareFieldStep(v: string, tail: string, k: nat)
    requires 1 <= k < 6
    requires forall i :: 0 <= i < |v| ==> v[i] != ','
    requires v == [] || v[0] != '"'
    requires MatchFrom(tail, k + 1).Some?
    ensures MatchFrom(v + [','] + tail, k) == Some([v] + MatchFrom(tail, k + 1).value)
  {
    var t := v + [','] + tail;
    var n := NonCommaRun(t);
    assert t[|v|] == ',';
    assert n == |v|;
    assert t[..n] == v;
    assert t[n + 1..] == tail;
  }

  /** Scanning for the quote that closes the sixth field. */
  lemma {:induction false} LastQuotedScan(body: string, j: nat)
    requires '"' !in body && NoLineTerminator(body)
    requires 1 <= j <= |body| + 1
    ensures ClosingQuote(Quote(body), j) == Some(|body| + 1)
    decreases |body| + 1 - j
  {
    var t := Quote(body);
    if j <= |body| {
      assert t[j] == body[j - 1];
      LastQuotedScan(body, j + 1);
    }
  }

  /** A sixth field written as `"body"`, with no `"` and no line terminator inside, is captured whole. */
  lemma LastQuotedField(body: string)
    requires '"' !in body && NoLineTerminator(body)
    ensures MatchFrom(Quote(body), 6) == Some([Quote(body)])
  {
    LastQuotedScan(body, 1);
    assert Quote(body)[..|body| + 2] == Quote(body);
  }

  /**
   * A field the pattern captures whole when a comma follows it: either quoted, with a body
   * free of line terminators and of `",`, or bare, with no comma and no leading quote.
   */
  predicate WholeField(f: string) {
    || (|f| >= 2 && f == Quote(f[1..|f| - 1]) && NoLineTerminator(f[1..|f| - 1]) && NoQuoteComma(f[1..|f| - 1]))
    || ((forall i :: 0 <= i < |f| ==> f[i] != ',') && (f == [] || f[0] != '"'))
  }

  /** A sixth field the pattern captures whole: quoted, with no quote or line terminator inside. */
  predicate WholeLastField(f: string) {
    |f| >= 2 && f == Quote(f[1..|f| - 1]) && '"' !in f[1..|f| - 1] && NoLineTerminator(f[1..|f| - 1])
  }

  /**
   * Fields `k`..6 that are each captured whole, joined with commas, are matched exactly:
   * the capture groups are the fields themselves.
   */
  lemma {:induction false} FieldsMatch(fs: seq<string>, k: nat)
    requires 1 <= k <= 6 && |fs| == 7 - k
    requires forall i :: 0 <= i < |fs| - 1 ==> WholeField(fs[i])
    requires WholeLastField(fs[|fs| - 1])
    ensures MatchFrom(JoinWith(fs, ','), k) == Some(fs)
    decreases 6 - k
  {
    var f := fs[0];
    if k == 6 {
      LastQuotedField(f[1..|f| - 1]);
      assert fs == [f];
    } else {
      var rest := fs[1..];
      forall i | 0 <= i < |rest| - 1 ensures WholeField(rest[i]) {
        assert rest[i] == fs[i + 1];
      }
      assert rest[|rest| - 1] == fs[|fs| - 1];
      FieldsMatch(rest, k + 1);
      JoinWithCons(f, rest, ',');
      assert [f] + rest == fs;
      WholeFieldStep(f, JoinWith(rest, ','), k);
    }
  }

  /** A field captured whole, a comma and a matching tail: the field is the next group. */
  lemma WholeFieldStep(f: string, tail: string, k: nat)
    requires 1 <= k < 6
    requires WholeField(f)
    requires MatchFrom(tail, k + 1).Some?
    ensures MatchFrom(f + [','] + tail, k) == Some([f] + MatchFrom(tail, k + 1).value)
  {
    if |f| >= 2 && f == Quote(f[1..|f| - 1]) && NoLineTerminator(f[1..|f| - 1]) && NoQuoteComma(f[1..|f| - 1]) {
      QuotedFieldStep(f[1..|f| - 1], tail, k);
    } else {
      BareFieldStep(f, tail, k);
    }
  }
}
