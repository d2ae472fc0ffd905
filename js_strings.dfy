/**
 * The JavaScript string primitives the flashcard script relies on:
 * `String.prototype.trim`, `split` on a one-character separator, `Array.prototype.join`
 * and the character classes of the ECMAScript grammar that they and the regular
 * expressions use.  Strings are sequences of Unicode scalar values; every character
 * class below lies in the Basic Multilingual Plane, so it classifies a UTF-16 code unit
 * and the scalar value it encodes alike.
 */
module JsStrings {

  /** ECMAScript LineTerminator: the characters a regular-expression `.` does not match. */
  predicate IsLineTerminator(c: char) {
    c == '\n' || c == '\r' || c == '\U{2028}' || c == '\U{2029}'
  }

  /**
   * ECMAScript WhiteSpace together with LineTerminator: what `trim` removes.  It holds every
   * line terminator, and no comma, quote, sign or decimal digit.
   */
  predicate IsWhiteSpace(c: char)
    ensures IsLineTerminator(c) ==> IsWhiteSpace(c)
    ensures IsWhiteSpace(c) ==> c != ',' && c != '"' && c != '-' && c != '+' && !('0' <= c <= '9')
  {
    || IsLineTerminator(c)
    || c == '\t' || c == '\U{B}' || c == '\U{C}' || c == ' '
    || c == '\U{A0}' || c == '\U{FEFF}' || c == '\U{1680}'
    || ('\U{2000}' <= c <= '\U{200A}')
    || c == '\U{202F}' || c == '\U{205F}' || c == '\U{3000}'
  }

  predicate NoLineTerminator(s: string) {
    forall c :: c in s ==> !IsLineTerminator(c)
  }

  /** Length of the longest whitespace prefix of `s`. */
  function LeadingSpace(s: string): (n: nat)
    ensures n <= |s|
    ensures forall i :: 0 <= i < n ==> IsWhiteSpace(s[i])
    ensures n < |s| ==> !IsWhiteSpace(s[n])
  {
    if |s| > 0 && IsWhiteSpace(s[0]) then 1 + LeadingSpace(s[1..]) else 0
  }

  /** Length of the longest whitespace suffix of `s`. */
  function TrailingSpace(s: string): (n: nat)
    ensures n <= |s|
    ensures forall i :: |s| - n <= i < |s| ==> IsWhiteSpace(s[i])
    ensures n < |s| ==> !IsWhiteSpace(s[|s| - n - 1])
  {
    if |s| > 0 && IsWhiteSpace(s[|s| - 1]) then 1 + TrailingSpace(s[..|s| - 1]) else 0
  }

  /** `s.trim()`: `s` without its leading and trailing whitespace. */
  function Trim(s: string): (r: string)
    ensures |r| <= |s|
    ensures r != [] ==> !IsWhiteSpace(r[0]) && !IsWhiteSpace(r[|r| - 1])
    ensures r == [] <==> forall i :: 0 <= i < |s| ==> IsWhiteSpace(s[i])
  {
    var lo := LeadingSpace(s);
    var t := s[lo..];
    t[..|t| - TrailingSpace(t)]
  }

  /**
   * `trim` cuts `s` at two points and keeps what lies between: everything cut away is
   * whitespace.
   */
  lemma TrimSlice(s: string)
    ensures LeadingSpace(s) + |Trim(s)| <= |s|
    ensures Trim(s) == s[LeadingSpace(s)..LeadingSpace(s) + |Trim(s)|]
    ensures forall i :: 0 <= i < LeadingSpace(s) ==> IsWhiteSpace(s[i])
    ensures forall i :: LeadingSpace(s) + |Trim(s)| <= i < |s| ==> IsWhiteSpace(s[i])
  {
    TrimPiece(s);
    TrimCutTail(s);
  }

  /** What `trim` keeps starts after the leading whitespace and is a contiguous piece of `s`. */
  lemma TrimPiece(s: string)
    ensures LeadingSpace(s) + |Trim(s)| <= |s|
    ensures Trim(s) == s[LeadingSpace(s)..LeadingSpace(s) + |Trim(s)|]
  {
    var lo := LeadingSpace(s);
    var t := s[lo..];
    var n := TrailingSpace(t);
    assert Trim(s) == t[..|t| - n];
    assert t[..|t| - n] == s[lo..|s| - n];
  }

  /** What `trim` cuts from the end of `s` is whitespace. */
  lemma TrimCutTail(s: string)
    ensures LeadingSpace(s) + |Trim(s)| <= |s|
    ensures forall i :: LeadingSpace(s) + |Trim(s)| <= i < |s| ==> IsWhiteSpace(s[i])
  {
    var lo := LeadingSpace(s);
    var t := s[lo..];
    var n := TrailingSpace(t);
    assert |Trim(s)| == |t| - n;
    forall i | |s| - n <= i < |s| ensures IsWhiteSpace(s[i]) {
      assert s[i] == t[i - lo];
    }
  }

  /** A string that neither starts nor ends with whitespace is its own trim. */
  lemma TrimUnchanged(s: string)
    requires s == [] || (!IsWhiteSpace(s[0]) && !IsWhiteSpace(s[|s| - 1]))
    ensures Trim(s) == s
  {
    if s != [] {
      assert LeadingSpace(s) == 0;
      assert s[0..] == s;
      assert TrailingSpace(s) == 0;
    }
  }

  /** Trimming twice is trimming once. */
  lemma TrimIdempotent(s: string)
    ensures Trim(Trim(s)) == Trim(s)
  {
    TrimUnchanged(Trim(s));
  }

  /** The last element of a non-empty sequence. */
  function Last<T>(xs: seq<T>): T
    requires xs != []
  {
    xs[|xs| - 1]
  }

  /** Number of occurrences of `c` in `s`. */
  function CountOf(s: string, c: char): (n: nat)
    ensures n <= |s|
  {
    if s == [] then 0 else (if s[0] == c then 1 else 0) + CountOf(s[1..], c)
  }

  /** A character occurs zero times exactly when it is absent. */
  lemma {:induction false} CountZero(s: string, c: char)
    ensures CountOf(s, c) == 0 <==> c !in s
  {
    if s != [] {
      CountZero(s[1..], c);
      assert s == [s[0]] + s[1..];
    }
  }

  /** `parts.join([sep])`; joining no parts gives the empty string. */
  function JoinWith(parts: seq<string>, sep: char): string
  {
    if |parts| == 0 then ""
    else if |parts| == 1 then parts[0]
    else parts[0] + [sep] + JoinWith(parts[1..], sep)
  }

  lemma JoinWithCons(x: string, xs: seq<string>, sep: char)
    ensures JoinWith([x] + xs, sep) == if xs == [] then x else x + [sep] + JoinWith(xs, sep)
  {
    if xs != [] {
      assert ([x] + xs)[1..] == xs;
    }
  }

  /** The joined text begins with the first part and ends with the last one. */
  lemma {:induction false} JoinEnds(parts: seq<string>, sep: char)
    requires parts != [] && Last(parts) != []
    ensures JoinWith(parts, sep) != []
    ensures parts[0] != [] ==> JoinWith(parts, sep)[0] == parts[0][0]
    ensures Last(JoinWith(parts, sep)) == Last(Last(parts))
  {
    if |parts| > 1 {
      JoinEnds(parts[1..], sep);
      assert Last(parts[1..]) == Last(parts);
    }
  }

  /** `s.split(sep)`: the separator-free pieces of `s`, in order. */
  function Split(s: string, sep: char): (parts: seq<string>)
    ensures |parts| == CountOf(s, sep) + 1
    ensures forall p :: p in parts ==> sep !in p
    decreases |s|
  {
    if s == [] then [""]
    else
      var rest := Split(s[1..], sep);
      if s[0] == sep then [""] + rest
      else [[s[0]] + rest[0]] + rest[1..]
  }

  /** Joining the pieces with the separator gives back the string. */
  lemma {:induction false} JoinSplit(s: string, sep: char)
    ensures JoinWith(Split(s, sep), sep) == s
    decreases |s|
  {
    if s != [] {
      JoinSplit(s[1..], sep);
      if s[0] == sep {
        JoinSplitAtSep(s, sep);
      } else {
        JoinSplitInPiece(s, sep);
      }
    }
  }

  /** A leading separator starts a new, empty piece. */
  lemma JoinSplitAtSep(s: string, sep: char)
    requires s != [] && s[0] == sep
    requires JoinWith(Split(s[1..], sep), sep) == s[1..]
    ensures JoinWith(Split(s, sep), sep) == s
  {
    var rest := Split(s[1..], sep);
    assert Split(s, sep) == [""] + rest;
    JoinWithCons("", rest, sep);
    assert [s[0]] + s[1..] == s;
  }

  /** Any other leading character joins the first piece of the rest. */
  lemma JoinSplitInPiece(s: string, sep: char)
    requires s != [] && s[0] != sep
    requires JoinWith(Split(s[1..], sep), sep) == s[1..]
    ensures JoinWith(Split(s, sep), sep) == s
  {
    var rest := Split(s[1..], sep);
    assert Split(s, sep) == [[s[0]] + rest[0]] + rest[1..];
    JoinPrepend(s[0], rest, sep);
    assert [s[0]] + s[1..] == s;
  }

  /** The joined text opens with the first part, followed by the separator when more parts come. */
  lemma JoinFirstPart(x: string, xs: seq<string>, sep: char)
    ensures x <= JoinWith([x] + xs, sep)
    ensures xs == [] ==> JoinWith([x] + xs, sep) == x
    ensures xs != [] ==> |JoinWith([x] + xs, sep)| > |x| && JoinWith([x] + xs, sep)[|x|] == sep
  {
    JoinWithCons(x, xs, sep);
  }

  /** A character put in front of the first part comes out in front of the joined text. */
  lemma JoinPrepend(c: char, parts: seq<string>, sep: char)
    requires parts != []
    ensures JoinWith([[c] + parts[0]] + parts[1..], sep) == [c] + JoinWith(parts, sep)
  {
    JoinWithCons(parts[0], parts[1..], sep);
    JoinWithCons([c] + parts[0], parts[1..], sep);
    assert [parts[0]] + parts[1..] == parts;
  }

  /** Splitting a separator-free piece followed by a separator peels that piece off. */
  lemma {:induction false} SplitPeel(x: string, rest: string, sep: char)
    requires sep !in x
    ensures Split(x + [sep] + rest, sep) == [x] + Split(rest, sep)
    decreases |x|
  {
    var s := x + [sep] + rest;
    if x == [] {
      assert s[1..] == rest;
    } else {
      assert s[1..] == x[1..] + [sep] + rest;
      SplitPeel(x[1..], rest, sep);
      assert [x[0]] + x[1..] == x;
    }
  }

  /** A separator-free string splits into itself. */
  lemma {:induction false} SplitWhole(x: string, sep: char)
    requires sep !in x
    ensures Split(x, sep) == [x]
    decreases |x|
  {
    if x != [] {
      SplitWhole(x[1..], sep);
      assert [x[0]] + x[1..] == x;
    }
  }

  /** Splitting undoes joining when no part contains the separator. */
  lemma {:induction false} SplitJoin(parts: seq<string>, sep: char)
    requires |parts| >= 1
    requires forall p :: p in parts ==> sep !in p
    ensures Split(JoinWith(parts, sep), sep) == parts
    decreases |parts|
  {
    if |parts| == 1 {
      SplitWhole(parts[0], sep);
    } else {
      SplitJoin(parts[1..], sep);
      SplitPeel(parts[0], JoinWith(parts[1..], sep), sep);
      assert [parts[0]] + parts[1..] == parts;
    }
  }

  /** A character found in none of the parts, and other than the separator, is not in their join. */
  lemma {:induction false} JoinFreeOf(parts: seq<string>, sep: char, c: char)
    requires c != sep
    requires forall p :: p in parts ==> c !in p
    ensures c !in JoinWith(parts, sep)
  {
    if |parts| > 1 {
      JoinFreeOf(parts[1..], sep, c);
    }
  }
}
