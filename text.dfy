/** String helpers with Python's semantics: str.strip(), str.split(sep),
    str.split() on whitespace, str.lower()/str.upper(), int() on a decimal
    token, f"{n}" on a natural number, and the ordering `<` of str. */
module Text {

  datatype Option<+T> = None | Some(value: T)

  /** Python's str.isspace(): the characters str.strip() and str.split() treat as whitespace. */
  predicate IsSpace(c: char)
  {
    ('\t' <= c <= '\r') || ('\U{1C}' <= c <= '\U{1F}') || c == ' ' || c == '\U{85}' || c == '\U{A0}'
    || c == '\U{1680}' || ('\U{2000}' <= c <= '\U{200A}') || c == '\U{2028}' || c == '\U{2029}'
    || c == '\U{202F}' || c == '\U{205F}' || c == '\U{3000}'
  }

  predicate NoSpace(s: string)
  {
    forall k :: 0 <= k < |s| ==> !IsSpace(s[k])
  }

  predicate AllSpace(s: string)
  {
    forall k :: 0 <= k < |s| ==> IsSpace(s[k])
  }

  // ---------------------------------------------------------------- strip

  /** The first index at or after `i` that is not whitespace (or |s|). */
  function SkipSpaces(s: string, i: nat): (e: nat)
    requires i <= |s|
    ensures i <= e <= |s| && AllSpace(s[i..e]) && (e < |s| ==> !IsSpace(s[e]))
    decreases |s| - i
  {
    if i == |s| || !IsSpace(s[i]) then i
    else
      var e := SkipSpaces(s, i + 1);
      assert s[i..e] == [s[i]] + s[i + 1..e];
      e
  }

  /** The last index at or before `j`, but not before `lo`, that follows a non-whitespace character. */
  function TrimEnd(s: string, lo: nat, j: nat): (e: nat)
    requires lo <= j <= |s|
    ensures lo <= e <= j && AllSpace(s[e..j]) && (e > lo ==> !IsSpace(s[e - 1]))
    decreases j
  {
    if j == lo || !IsSpace(s[j - 1]) then j
    else
      var e := TrimEnd(s, lo, j - 1);
      assert s[e..j] == s[e..j - 1] + [s[j - 1]];
      e
  }

  /** str.strip(): the slice of `s` left after removing leading and trailing whitespace. */
  function Strip(s: string): (r: string)
    ensures var i := SkipSpaces(s, 0); var j := TrimEnd(s, i, |s|);
      && r == s[i..j] && AllSpace(s[..i]) && AllSpace(s[j..])
      && (r != [] ==> !IsSpace(r[0]) && !IsSpace(r[|r| - 1]))
  {
    var i := SkipSpaces(s, 0);
    var j := TrimEnd(s, i, |s|);
    var r := s[i..j];
    assert s[..i] == s[0..i] && s[j..] == s[j..|s|];
    assert r != [] ==> r[0] == s[i] && r[|r| - 1] == s[j - 1];
    r
  }

  // ---------------------------------------------------------------- split(sep)

  /** str.split(sep) for a one-character separator: always at least one piece. */
  function Split(s: string, sep: char): (r: seq<string>)
    ensures |r| >= 1
    ensures forall k :: 0 <= k < |r| ==> sep !in r[k]
  {
    if s == [] then [""]
    else
      var rest := Split(s[1..], sep);
      if s[0] == sep then [""] + rest
      else [[s[0]] + rest[0]] + rest[1..]
  }

  /** There is one more piece than there are separators. */
  lemma {:induction false} SplitCount(s: string, sep: char)
    ensures |Split(s, sep)| == multiset(s)[sep] + 1
  {
    if s != [] {
      SplitCount(s[1..], sep);
      assert s == [s[0]] + s[1..];
    }
  }

  /** sep.join(pieces) */
  function Join(pieces: seq<string>, sep: string): string
  {
    if pieces == [] then ""
    else if |pieces| == 1 then pieces[0]
    else pieces[0] + sep + Join(pieces[1..], sep)
  }

  /** Splitting undoes joining, and joining undoes splitting. */
  lemma {:induction false} JoinSplit(s: string, sep: char)
    ensures Join(Split(s, sep), [sep]) == s
  {
    if s != [] {
      var rest := Split(s[1..], sep);
      JoinSplit(s[1..], sep);
      if s[0] != sep {
        if |rest| > 1 {
          assert rest == [rest[0]] + rest[1..];
          calc {
            Join(Split(s, sep), [sep]);
            ([s[0]] + rest[0]) + [sep] + Join(rest[1..], [sep]);
            [s[0]] + (rest[0] + [sep] + Join(rest[1..], [sep]));
            [s[0]] + Join(rest, [sep]);
          }
        }
        assert s == [s[0]] + s[1..];
      } else {
        assert s == [sep] + s[1..];
      }
    }
  }

  /** A string without the separator is one piece. */
  lemma {:induction false} SplitNoSep(s: string, sep: char)
    requires sep !in s
    ensures Split(s, sep) == [s]
  {
    if s != [] {
      SplitNoSep(s[1..], sep);
      assert s == [s[0]] + s[1..];
    }
  }

  /** `a` + sep + `b` with no separator in `a` splits into `a` and the pieces of `b`. */
  lemma {:induction false} SplitAtFirst(a: string, b: string, sep: char)
    requires sep !in a
    ensures Split(a + [sep] + b, sep) == [a] + Split(b, sep)
  {
    if a == [] {
      assert a + [sep] + b == [sep] + b;
      assert ([sep] + b)[1..] == b;
    } else {
      SplitAtFirst(a[1..], b, sep);
      assert (a + [sep] + b)[1..] == a[1..] + [sep] + b;
      assert [a[0]] + a[1..] == a;
    }
  }

  // ---------------------------------------------------------------- split()

  /** Index of the end of the run of non-space characters starting at `i`. */
  function WordEnd(s: string, i: nat): (e: nat)
    requires i <= |s|
    ensures i <= e <= |s| && NoSpace(s[i..e]) && (e < |s| ==> IsSpace(s[e]))
    decreases |s| - i
  {
    if i == |s| || IsSpace(s[i]) then i
    else
      var e := WordEnd(s, i + 1);
      assert s[i..e] == [s[i]] + s[i + 1..e];
      e
  }

  /** str.split() with no argument: the maximal runs of non-whitespace characters. */
  function Words(s: string): (r: seq<string>)
    ensures forall k :: 0 <= k < |r| ==> r[k] != [] && NoSpace(r[k])
    decreases |s|
  {
    if s == [] then []
    else if IsSpace(s[0]) then Words(s[1..])
    else
      var e := WordEnd(s, 0);
      [s[..e]] + Words(s[e..])
  }

  /** Words of a single-space join of non-empty, space-free words are those words. */
  lemma {:induction false} WordsOfJoin(ws: seq<string>)
    requires forall k :: 0 <= k < |ws| ==> ws[k] != [] && NoSpace(ws[k])
    ensures Words(Join(ws, " ")) == ws
  {
    if ws == [] {
    } else if |ws| == 1 {
      WordsOfWord(ws[0], "");
      assert ws[0] + "" == ws[0];
    } else {
      WordsOfJoin(ws[1..]);
      var tail := " " + Join(ws[1..], " ");
      WordsOfWord(ws[0], tail);
      assert Join(ws, " ") == ws[0] + tail;
      assert Words(tail) == Words(Join(ws[1..], " "));
      assert ws == [ws[0]] + ws[1..];
    }
  }

  /** A leading word followed by nothing or by whitespace is split off whole. */
  lemma WordsOfWord(w: string, tail: string)
    requires w != [] && NoSpace(w)
    requires tail != [] ==> IsSpace(tail[0])
    ensures Words(w + tail) == [w] + Words(tail)
  {
    var s := w + tail;
    WordEndOfWord(s, w, 0);
    assert s[..|w|] == w && s[|w|..] == tail;
  }

  lemma {:induction false} WordEndOfWord(s: string, w: string, i: nat)
    requires |w| <= |s| && s[..|w|] == w && NoSpace(w)
    requires |w| < |s| ==> IsSpace(s[|w|])
    requires i <= |w|
    ensures WordEnd(s, i) == |w|
    decreases |w| - i
  {
    if i < |w| {
      assert s[i] == w[i];
      WordEndOfWord(s, w, i + 1);
    }
  }

  // ---------------------------------------------------------------- case

  /** str.lower() on one character, for ASCII and the Latin-1 letters. */
  function LowerChar(c: char): char
  {
    if ('A' <= c <= 'Z') || ('\U{C0}' <= c <= '\U{DE}' && c != '\U{D7}') then (c as int + 32) as char else c
  }

  /** str.upper() on one character, for ASCII and the Latin-1 letters that map within Latin-1. */
  function UpperChar(c: char): char
  {
    if ('a' <= c <= 'z') || ('\U{E0}' <= c <= '\U{FE}' && c != '\U{F7}') then (c as int - 32) as char else c
  }

  /** A string that neither starts nor ends with whitespace is its own strip. */
  lemma StripTrimmed(s: string)
    requires s != [] ==> !IsSpace(s[0]) && !IsSpace(s[|s| - 1])
    ensures Strip(s) == s
  {
    var i := SkipSpaces(s, 0);
    assert i == 0;
    assert TrimEnd(s, 0, |s|) == |s|;
  }

  /** A name as the roster stores it, stripped and lower-cased, is unchanged by
      stripping or lower-casing it again. */
  lemma LowerStripNormal(p: string)
    ensures var r := Lower(Strip(p)); Strip(r) == r && Lower(r) == r
  {
    var r := Lower(Strip(p));
    StripTrimmed(r);
    assert Lower(r) == r;
  }

  function Lower(s: string): (r: string)
    ensures |r| == |s| && forall k :: 0 <= k < |s| ==> r[k] == LowerChar(s[k])
  {
    seq(|s|, k requires 0 <= k < |s| => LowerChar(s[k]))
  }

  function Upper(s: string): (r: string)
    ensures |r| == |s| && forall k :: 0 <= k < |s| ==> r[k] == UpperChar(s[k])
  {
    seq(|s|, k requires 0 <= k < |s| => UpperChar(s[k]))
  }

  // ---------------------------------------------------------------- numbers

  predicate IsDigit(c: char) { '0' <= c <= '9' }

  function DigitValue(c: char): nat
    requires IsDigit(c)
  {
    c as int - '0' as int
  }

  function DigitChar(d: nat): (c: char)
    requires d < 10
    ensures IsDigit(c) && DigitValue(c) == d
  {
    ('0' as int + d) as char
  }

  /** f"{n}": the decimal digits of `n`, without leading zeros. */
  function NatToString(n: nat): (r: string)
    ensures r != [] && forall k :: 0 <= k < |r| ==> IsDigit(r[k])
    ensures |r| > 1 ==> r[0] != '0'
  {
    if n < 10 then [DigitChar(n)]
    else NatToString(n / 10) + [DigitChar(n % 10)]
  }

  /** The digit-group grammar int() accepts: digits, with single underscores between digits. */
  predicate IsDigitGroup(u: string)
  {
    && u != []
    && IsDigit(u[0]) && IsDigit(u[|u| - 1])
    && (forall k :: 0 <= k < |u| ==> IsDigit(u[k]) || u[k] == '_')
    && (forall k :: 0 <= k < |u| - 1 ==> !(u[k] == '_' && u[k + 1] == '_'))
  }

  /** The number written by the digits of `u`, underscores ignored. */
  function DigitsValue(u: string): nat
  {
    if u == [] then 0
    else if IsDigit(u[|u| - 1]) then 10 * DigitsValue(u[..|u| - 1]) + DigitValue(u[|u| - 1])
    else DigitsValue(u[..|u| - 1])
  }

  /** int(t) for a token without whitespace and without '-': an optional '+' then a digit group. */
  function ParseNat(t: string): Option<nat>
  {
    var u := if t != [] && t[0] == '+' then t[1..] else t;
    if IsDigitGroup(u) then Some(DigitsValue(u)) else None
  }

  lemma {:induction false} DigitsValueOfNat(n: nat)
    ensures DigitsValue(NatToString(n)) == n
  {
    var s := NatToString(n);
    if n >= 10 {
      DigitsValueOfNat(n / 10);
      assert s[..|s| - 1] == NatToString(n / 10);
    }
  }

  /** int(f"{n}") == n */
  lemma ParseNatOfString(n: nat)
    ensures ParseNat(NatToString(n)) == Some(n)
  {
    DigitsValueOfNat(n);
  }

  // ---------------------------------------------------------------- order of kept elements

  /** `r` is `s` with some elements left out, the rest in their original order. */
  ghost predicate Subsequence<T>(r: seq<T>, s: seq<T>)
    decreases |s|
  {
    || r == []
    || (s != [] && (|| Subsequence(r, s[..|s| - 1])
                    || (r[|r| - 1] == s[|s| - 1] && Subsequence(r[..|r| - 1], s[..|s| - 1]))))
  }

  // ---------------------------------------------------------------- ordering

  /** Python's `a < b` on str: code-point lexicographic order, a proper prefix first. */
  predicate LexLess(a: string, b: string)
  {
    if a == [] then b != []
    else if b == [] then false
    else if a[0] != b[0] then a[0] < b[0]
    else LexLess(a[1..], b[1..])
  }

  lemma {:induction false} LexLessIrreflexive(a: string)
    ensures !LexLess(a, a)
  {
    if a != [] { LexLessIrreflexive(a[1..]); }
  }

  /** Two different strings are ordered one way or the other. */
  lemma {:induction false} LexLessTotal(a: string, b: string)
    ensures a == b || LexLess(a, b) || LexLess(b, a)
  {
    if a != [] && b != [] && a[0] == b[0] {
      LexLessTotal(a[1..], b[1..]);
      if a[1..] == b[1..] {
        assert a == [a[0]] + a[1..] && b == [b[0]] + b[1..];
      }
    }
  }

  lemma {:induction false} LexLessAsymmetric(a: string, b: string)
    ensures !(LexLess(a, b) && LexLess(b, a))
  {
    if a != [] && b != [] && a[0] == b[0] { LexLessAsymmetric(a[1..], b[1..]); }
  }

  lemma {:induction false} LexLessTransitive(a: string, b: string, c: string)
    requires LexLess(a, b) && LexLess(b, c)
    ensures LexLess(a, c)
  {
    if a != [] && b != [] && c != [] && a[0] == b[0] && b[0] == c[0] {
      LexLessTransitive(a[1..], b[1..], c[1..]);
    }
  }
}
