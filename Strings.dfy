/** The JavaScript string operations the storefront relies on, on `seq<char>`:
    decimal conversion of numbers (template literals), `parseInt` on its decimal
    domain, `Array.prototype.join`, `String.prototype.split` on one separator
    character, `String.prototype.trim`, and the order `localeCompare` gives
    item codes, taken as code-point lexicographic order. */
module Strings {

  // ---------------------------------------------------------------------------
  // Digits and decimal numbers
  // ---------------------------------------------------------------------------

  predicate IsDigit(c: char) {
    '0' <= c <= '9'
  }

  predicate AllDigits(s: string) {
    forall i :: 0 <= i < |s| ==> IsDigit(s[i])
  }

  function DigitChar(d: nat): (c: char)
    requires d < 10
    ensures IsDigit(c)
  {
    ['0', '1', '2', '3', '4', '5', '6', '7', '8', '9'][d]
  }

  function DigitValue(c: char): (d: nat)
    requires IsDigit(c)
    ensures d < 10
  {
    (c as int - '0' as int) as nat
  }

  lemma DigitRoundTrip(d: nat)
    requires d < 10
    ensures DigitValue(DigitChar(d)) == d
  {
  }

  /** The decimal text of a natural number, as a template literal writes it. */
  function NatToString(n: nat): (s: string)
    ensures |s| >= 1 && AllDigits(s)
    decreases n
  {
    if n < 10 then [DigitChar(n)] else NatToString(n / 10) + [DigitChar(n % 10)]
  }

  /** The decimal text of an integer, with a leading `-` when negative. */
  function IntToString(i: int): (r: string)
    ensures |r| >= 1 && (r[0] == '-' <==> i < 0)
    ensures i >= 0 ==> AllDigits(r)
    ensures i < 0 ==> |r| >= 2 && AllDigits(r[1..])
  {
    if i < 0 then "-" + NatToString(-i) else NatToString(i)
  }

  /** The value of a string of decimal digits. */
  function DigitsValue(s: string): nat
    requires AllDigits(s)
  {
    if s == [] then 0 else DigitsValue(s[..|s| - 1]) * 10 + DigitValue(s[|s| - 1])
  }

  function Pow10(k: nat): (r: nat)
    ensures r >= 1
  {
    if k == 0 then 1 else 10 * Pow10(k - 1)
  }

  /** A number from 10^(k-1) up to below 10^k is written with exactly k digits. */
  lemma {:induction false} NatToStringLength(n: nat, k: nat)
    requires k >= 1 && Pow10(k - 1) <= n < Pow10(k)
    ensures |NatToString(n)| == k
  {
    if k > 1 {
      assert n >= 10 * Pow10(k - 2);
      NatToStringLength(n / 10, k - 1);
    }
  }

  lemma {:induction false} DigitsValueOfNatToString(n: nat)
    ensures DigitsValue(NatToString(n)) == n
    decreases n
  {
    var s := NatToString(n);
    if n < 10 {
      DigitRoundTrip(n);
    } else {
      DigitsValueOfNatToString(n / 10);
      assert s[..|s| - 1] == NatToString(n / 10);
      DigitRoundTrip(n % 10);
    }
  }

  // ---------------------------------------------------------------------------
  // White space (the StrWhiteSpaceChar set of ECMAScript, used by trim and parseInt)
  // ---------------------------------------------------------------------------

  predicate IsJsWhitespace(c: char) {
    c == '\t' || c == '\n' || c == '\U{B}' || c == '\U{C}' || c == '\r' || c == ' '
    || c == '\U{A0}' || c == '\U{1680}' || ('\U{2000}' <= c <= '\U{200A}')
    || c == '\U{2028}' || c == '\U{2029}' || c == '\U{202F}' || c == '\U{205F}'
    || c == '\U{3000}' || c == '\U{FEFF}'
  }

  function TrimStart(s: string): (r: string)
    ensures r == [] || !IsJsWhitespace(r[0])
    ensures exists i :: 0 <= i <= |s| && r == s[i..] && forall k :: 0 <= k < i ==> IsJsWhitespace(s[k])
  {
    if s != [] && IsJsWhitespace(s[0]) then
      var r := TrimStart(s[1..]);
      ghost var i :| 0 <= i <= |s[1..]| && r == s[1..][i..] && forall k :: 0 <= k < i ==> IsJsWhitespace(s[1..][k]);
      assert r == s[i + 1..];
      r
    else
      assert s == s[0..];
      s
  }

  function TrimEnd(s: string): (r: string)
    ensures r == [] || !IsJsWhitespace(r[|r| - 1])
    ensures exists j :: 0 <= j <= |s| && r == s[..j] && forall k :: j <= k < |s| ==> IsJsWhitespace(s[k])
  {
    if s != [] && IsJsWhitespace(s[|s| - 1]) then
      var p := s[..|s| - 1];
      var r := TrimEnd(p);
      ghost var j :| 0 <= j <= |p| && r == p[..j] && forall k :: j <= k < |p| ==> IsJsWhitespace(p[k]);
      assert r == s[..j];
      r
    else
      assert s == s[..|s|];
      s
  }

  /** `String.prototype.trim`. */
  function Trim(s: string): (r: string)
    ensures |r| <= |s| && r <= TrimStart(s)
  {
    TrimEnd(TrimStart(s))
  }

  lemma TrimmedHasNoOuterWhitespace(s: string)
    ensures var r := Trim(s); r == [] || (!IsJsWhitespace(r[0]) && !IsJsWhitespace(r[|r| - 1]))
  {
    var t := TrimStart(s);
    var r := Trim(s);
    if r != [] {
      assert r[0] == t[0];
    }
  }

  lemma TrimIdempotent(s: string)
    ensures Trim(Trim(s)) == Trim(s)
  {
    TrimmedHasNoOuterWhitespace(s);
  }

  predicate NoWhitespace(s: string) {
    forall k :: 0 <= k < |s| ==> !IsJsWhitespace(s[k])
  }

  /** A string without whitespace trims to itself. */
  lemma TrimOfNoWhitespace(s: string)
    requires NoWhitespace(s)
    ensures Trim(s) == s
  {
    assert TrimStart(s) == s;
    assert TrimEnd(s) == s;
  }

  // ---------------------------------------------------------------------------
  // parseInt (radix 10)
  // ---------------------------------------------------------------------------

  /** A number produced by `parseInt`: an integer or `NaN`. */
  datatype ParsedInt = Num(value: int) | NaN

  /** The longest prefix of `s` made of decimal digits. */
  function DigitPrefix(s: string): (p: string)
    ensures AllDigits(p) && p <= s
    ensures |p| < |s| ==> !IsDigit(s[|p|])
  {
    if s != [] && IsDigit(s[0]) then [s[0]] + DigitPrefix(s[1..]) else []
  }

  /** What follows an optional leading sign. */
  function Unsigned(t: string): (u: string)
    ensures u == t || (t != [] && u == t[1..])
  {
    if t != [] && (t[0] == '-' || t[0] == '+') then t[1..] else t
  }

  /** `parseInt(s)`: leading white space is skipped, then an optional sign, then the
      longest run of decimal digits; `NaN` when there is no digit. */
  function ParseInt(s: string): (r: ParsedInt)
    ensures s == [] ==> r == NaN
    ensures r.Num? ==> exists k :: 0 <= k < |s| && IsDigit(s[k])
  {
    var t := TrimStart(s);
    var negative := t != [] && t[0] == '-';
    var digits := DigitPrefix(Unsigned(t));
    if digits == [] then NaN
    else
      DigitOfParsed(s);
      if negative then Num(0 - DigitsValue(digits) as int) else Num(DigitsValue(digits))
  }

  /** The digits `parseInt` reads are characters of its input. */
  lemma DigitOfParsed(s: string)
    requires DigitPrefix(Unsigned(TrimStart(s))) != []
    ensures exists k :: 0 <= k < |s| && IsDigit(s[k])
  {
    var u := Unsigned(TrimStart(s));
    SuffixOfSuffix(s, TrimStart(s), u);
    DigitPrefixHead(u);
    DigitInSuffix(s, u);
  }

  lemma DigitPrefixHead(u: string)
    requires DigitPrefix(u) != []
    ensures u != [] && IsDigit(u[0])
  {
    assert DigitPrefix(u)[0] == u[0];
  }

  lemma DigitInSuffix(s: string, u: string)
    requires |u| <= |s| && u == s[|s| - |u|..] && u != [] && IsDigit(u[0])
    ensures exists k :: 0 <= k < |s| && IsDigit(s[k])
  {
    assert s[|s| - |u|] == u[0];
  }

  lemma SuffixOfSuffix(s: string, t: string, u: string)
    requires exists i :: 0 <= i <= |s| && t == s[i..]
    requires u == t || (t != [] && u == t[1..])
    ensures |u| <= |s| && u == s[|s| - |u|..]
  {
    var i :| 0 <= i <= |s| && t == s[i..];
    if u != t {
      assert u == s[i + 1..];
    }
  }

  lemma {:induction false} DigitPrefixOfDigits(s: string)
    requires AllDigits(s)
    ensures DigitPrefix(s) == s
  {
    if s != [] {
      DigitPrefixOfDigits(s[1..]);
    }
  }

  lemma TrimStartOfNonBlank(s: string)
    requires s != [] && !IsJsWhitespace(s[0])
    ensures TrimStart(s) == s
  {
  }

  lemma ParseIntOfDigits(d: string)
    requires d != [] && AllDigits(d)
    ensures ParseInt(d) == Num(DigitsValue(d))
  {
    DigitPrefixOfDigits(d);
    assert IsDigit(d[0]) && !IsJsWhitespace(d[0]);
    TrimStartOfNonBlank(d);
  }

  lemma ParseIntOfNegatedDigits(d: string)
    requires d != [] && AllDigits(d)
    ensures ParseInt("-" + d) == Num(0 - DigitsValue(d) as int)
  {
    var s := "-" + d;
    assert s[0] == '-' && !IsJsWhitespace('-');
    TrimStartOfNonBlank(s);
    var t := TrimStart(s);
    assert t[1..] == d;
    DigitPrefixOfDigits(d);
    assert DigitPrefix(t[1..]) == d;
  }

  /** `parseInt` reads back the decimal text of every integer. */
  lemma ParseIntOfIntToString(i: int)
    ensures ParseInt(IntToString(i)) == Num(i)
  {
    var n: nat := if i < 0 then -i else i;
    DigitsValueOfNatToString(n);
    if i < 0 {
      ParseIntOfNegatedDigits(NatToString(n));
    } else {
      ParseIntOfDigits(NatToString(n));
    }
  }

  // ---------------------------------------------------------------------------
  // join and split
  // ---------------------------------------------------------------------------

  /** `Array.prototype.join(sep)` on an array of strings. */
  function Join(parts: seq<string>, sep: string): (r: string)
    ensures parts == [] ==> r == ""
    ensures parts != [] ==> parts[0] <= r
  {
    if |parts| == 0 then ""
    else if |parts| == 1 then parts[0]
    else parts[0] + sep + Join(parts[1..], sep)
  }

  /** `String.prototype.split(c)` for a one-character separator: always at least one
      piece, and no piece holds the separator. */
  function Split(s: string, c: char): (pieces: seq<string>)
    ensures |pieces| >= 1
  {
    if s == [] then [""]
    else
      var rest := Split(s[1..], c);
      if s[0] == c then [""] + rest else [[s[0]] + rest[0]] + rest[1..]
  }

  lemma {:induction false} SplitPiecesAvoidSeparator(s: string, c: char)
    ensures forall i :: 0 <= i < |Split(s, c)| ==> c !in Split(s, c)[i]
  {
    if s != [] {
      SplitPiecesAvoidSeparator(s[1..], c);
    }
  }

  /** Every character of a piece is a character of the split string. */
  lemma {:induction false} SplitPiecesFromString(s: string, c: char)
    ensures forall i, k :: 0 <= i < |Split(s, c)| && 0 <= k < |Split(s, c)[i]| ==> Split(s, c)[i][k] in s
  {
    if s != [] {
      SplitPiecesFromString(s[1..], c);
      var rest := Split(s[1..], c);
      var pieces := Split(s, c);
      forall i, k | 0 <= i < |pieces| && 0 <= k < |pieces[i]| ensures pieces[i][k] in s {
        if s[0] == c {
          assert pieces[i] == ([""] + rest)[i];
          if i > 0 {
            assert pieces[i][k] in s[1..];
          }
        } else if i == 0 {
          if k > 0 {
            assert pieces[0][k] == rest[0][k - 1];
            assert rest[0][k - 1] in s[1..];
          }
        } else {
          assert pieces[i] == rest[i];
          assert rest[i][k] in s[1..];
        }
      }
    }
  }

  /** Joining the pieces of a split with the separator gives back the string. */
  lemma {:induction false} JoinSplit(s: string, c: char)
    ensures Join(Split(s, c), [c]) == s
  {
    if s != [] {
      var rest := Split(s[1..], c);
      JoinSplit(s[1..], c);
      if s[0] == c {
        assert Split(s, c) == [""] + rest;
        assert Split(s, c)[1..] == rest;
      } else {
        var pieces := Split(s, c);
        assert pieces == [[s[0]] + rest[0]] + rest[1..];
        if |rest| == 1 {
          assert pieces == [[s[0]] + rest[0]];
        } else {
          assert pieces[1..] == rest[1..];
          assert Join(rest, [c]) == rest[0] + [c] + Join(rest[1..], [c]);
        }
      }
    }
  }

  // ---------------------------------------------------------------------------
  // Lexicographic order (localeCompare, taken on code points)
  // ---------------------------------------------------------------------------

  predicate LexLe(a: string, b: string) {
    a == [] || (b != [] && (a[0] < b[0] || (a[0] == b[0] && LexLe(a[1..], b[1..]))))
  }

  lemma {:induction false} LexLeTotal(a: string, b: string)
    ensures LexLe(a, b) || LexLe(b, a)
  {
    if a != [] && b != [] && a[0] == b[0] {
      LexLeTotal(a[1..], b[1..]);
    }
  }

  lemma {:induction false} LexLeTransitive(a: string, b: string, c: string)
    requires LexLe(a, b) && LexLe(b, c)
    ensures LexLe(a, c)
  {
    if a != [] && b != [] && c != [] && a[0] == b[0] && b[0] == c[0] {
      LexLeTransitive(a[1..], b[1..], c[1..]);
    }
  }

  lemma {:induction false} LexLeAntisymmetric(a: string, b: string)
    requires LexLe(a, b) && LexLe(b, a)
    ensures a == b
  {
    if a != [] && b != [] {
      LexLeAntisymmetric(a[1..], b[1..]);
      assert a == [a[0]] + a[1..];
      assert b == [b[0]] + b[1..];
    }
  }
}
