/**
 * String helpers with the semantics of the Python 2 string methods and
 * number conversions that the modelled code calls, plus the prefix scanners
 * of C's sscanf("%d") and sscanf("%f").  Characters are code points; only
 * ASCII case folding and ASCII whitespace are modelled, as in Python 2 `str`.
 */
module Text {
  import opened Wrappers

  type String = seq<char>

  /** A non-empty sequence is its front followed by its last element. */
  lemma LastSplit<T>(s: seq<T>)
    requires |s| > 0
    ensures s == s[..|s| - 1] + [s[|s| - 1]]
  {
  }

  predicate IsSpace(c: char) {
    c == ' ' || c == '\t' || c == '\n' || c == '\r' || c == '\U{0b}' || c == '\U{0c}'
  }

  predicate IsDigit(c: char) { '0' <= c <= '9' }

  predicate IsAsciiLetter(c: char) { ('a' <= c <= 'z') || ('A' <= c <= 'Z') }

  predicate AllDigits(s: String) { forall i :: 0 <= i < |s| ==> IsDigit(s[i]) }

  predicate NoSpace(s: String) { forall i :: 0 <= i < |s| ==> !IsSpace(s[i]) }

  // ---------------------------------------------------------------- strip

  function StripLeft(s: String): (r: String)
    ensures |r| <= |s| && r == s[|s| - |r|..]
    ensures |r| > 0 ==> !IsSpace(r[0])
    ensures forall i {:trigger IsSpace(s[i])} :: 0 <= i < |s| - |r| ==> IsSpace(s[i])
  {
    if |s| > 0 && IsSpace(s[0]) then StripLeft(s[1..]) else s
  }

  function StripRight(s: String): (r: String)
    ensures |r| <= |s| && r == s[..|r|]
    ensures |r| > 0 ==> !IsSpace(r[|r| - 1])
    ensures forall i {:trigger IsSpace(s[i])} :: |r| <= i < |s| ==> IsSpace(s[i])
  {
    if |s| > 0 && IsSpace(s[|s| - 1]) then StripRight(s[..|s| - 1]) else s
  }

  /** Python `s.strip()`. */
  function Strip(s: String): (r: String)
    ensures |r| <= |s|
    ensures |r| > 0 ==> !IsSpace(r[0]) && !IsSpace(r[|r| - 1])
  {
    StripRight(StripLeft(s))
  }

  lemma StripUnchanged(s: String)
    requires |s| == 0 || (!IsSpace(s[0]) && !IsSpace(s[|s| - 1]))
    ensures Strip(s) == s
  {
  }

  lemma StripNoSpace(s: String)
    requires NoSpace(s)
    ensures Strip(s) == s
  {
    StripUnchanged(s);
  }

  // ---------------------------------------------------------------- lower

  function LowerChar(c: char): char {
    if 'A' <= c <= 'Z' then (c as int + 32) as char else c
  }

  /**
   * Python 2 `str.lower()` on a byte string: only 'A'..'Z' change, as in the
   * C locale; other characters are left as they are.
   */
  function Lower(s: String): (r: String)
    ensures |r| == |s| && forall i :: 0 <= i < |s| ==> r[i] == LowerChar(s[i])
  {
    seq(|s|, i requires 0 <= i < |s| => LowerChar(s[i]))
  }

  // ---------------------------------------------------------------- split

  /** Index of the first occurrence of `c` in `s`, if any. */
  function Find(s: String, c: char): (r: Option<nat>)
    ensures r.Some? ==> r.value < |s| && s[r.value] == c && c !in s[..r.value]
    ensures r.None? ==> c !in s
  {
    if |s| == 0 then None
    else if s[0] == c then Some(0)
    else match Find(s[1..], c)
      case None => None
      case Some(j) => Some(j + 1)
  }

  /** Index of the last occurrence of `c` in `s`, if any. */
  function RFind(s: String, c: char): (r: Option<nat>)
    ensures r.Some? ==> r.value < |s| && s[r.value] == c && c !in s[r.value + 1..]
    ensures r.None? ==> c !in s
  {
    if |s| == 0 then None
    else if s[|s| - 1] == c then Some(|s| - 1)
    else RFind(s[..|s| - 1], c)
  }

  /** Python `s.split(sep)` for a one-character separator. */
  function Split(s: String, sep: char): (r: seq<String>)
    ensures |r| >= 1
    ensures forall i :: 0 <= i < |r| ==> sep !in r[i]
    decreases |s|
  {
    match Find(s, sep)
    case None => [s]
    case Some(j) => [s[..j]] + Split(s[j + 1..], sep)
  }

  /** Python `sep.join(parts)` for a one-character separator. */
  function Join(parts: seq<String>, sep: char): String {
    if |parts| == 0 then []
    else if |parts| == 1 then parts[0]
    else parts[0] + [sep] + Join(parts[1..], sep)
  }

  lemma {:induction false} SplitJoin(s: String, sep: char)
    ensures Join(Split(s, sep), sep) == s
    decreases |s|
  {
    match Find(s, sep)
    case None =>
    case Some(j) =>
      var rest := Split(s[j + 1..], sep);
      SplitJoin(s[j + 1..], sep);
      var parts := [s[..j]] + rest;
      assert parts[0] == s[..j] && parts[1..] == rest;
      assert Join(parts, sep) == s[..j] + [sep] + Join(rest, sep);
      assert s == s[..j] + [sep] + s[j + 1..];
  }

  /** The first separator of `u + [c] + v` is the one after `u` when `u` has none. */
  lemma {:induction false} FindAfterPrefix(u: String, c: char, v: String)
    requires c !in u
    ensures Find(u + [c] + v, c) == Some(|u|)
    decreases |u|
  {
    if |u| > 0 {
      FindAfterPrefix(u[1..], c, v);
      assert (u + [c] + v)[1..] == u[1..] + [c] + v;
    }
  }

  /** `sep.join(parts).split(sep) == parts` when no part holds the separator. */
  lemma {:induction false} JoinSplit(parts: seq<String>, sep: char)
    requires |parts| > 0 && forall i :: 0 <= i < |parts| ==> sep !in parts[i]
    ensures Split(Join(parts, sep), sep) == parts
    decreases |parts|
  {
    if |parts| > 1 {
      var rest := parts[1..];
      JoinSplit(rest, sep);
      SplitAfterPart(parts[0], sep, Join(rest, sep));
      assert parts == [parts[0]] + rest;
    }
  }

  /** Splitting `u + sep + v` where u holds no separator: u, then the pieces of v. */
  lemma SplitAfterPart(u: String, sep: char, v: String)
    requires sep !in u
    ensures Split(u + [sep] + v, sep) == [u] + Split(v, sep)
  {
    var s := u + [sep] + v;
    FindAfterPrefix(u, sep, v);
    assert s[..|u|] == u;
    assert s[|u| + 1..] == v;
  }

  /** Python `s.split()`: the maximal runs of non-whitespace characters. */
  function SplitWS(s: String): (r: seq<String>)
    ensures forall i :: 0 <= i < |r| ==> |r[i]| > 0 && NoSpace(r[i])
    decreases |s|
  {
    var t := StripLeft(s);
    if |t| == 0 then []
    else
      var n := TokenLen(t);
      var rest := SplitWS(t[n..]);
      var tok := t[..n];
      assert |tok| > 0 && NoSpace(tok);
      ConsTokens(tok, rest);
      [tok] + rest
  }

  lemma ConsTokens(tok: String, rest: seq<String>)
    requires |tok| > 0 && NoSpace(tok)
    requires forall i :: 0 <= i < |rest| ==> |rest[i]| > 0 && NoSpace(rest[i])
    ensures forall i :: 0 <= i < |[tok] + rest| ==> |([tok] + rest)[i]| > 0 && NoSpace(([tok] + rest)[i])
  {
    forall i | 0 <= i < |[tok] + rest|
      ensures |([tok] + rest)[i]| > 0 && NoSpace(([tok] + rest)[i])
    {
      if i > 0 { assert ([tok] + rest)[i] == rest[i - 1]; }
    }
  }

  /** Length of the leading run of non-whitespace characters. */
  function TokenLen(s: String): (n: nat)
    ensures n <= |s| && NoSpace(s[..n])
    ensures n < |s| ==> IsSpace(s[n])
    ensures |s| > 0 && !IsSpace(s[0]) ==> n > 0
  {
    if |s| == 0 || IsSpace(s[0]) then 0 else 1 + TokenLen(s[1..])
  }

  lemma TokenLenAll(s: String)
    requires NoSpace(s)
    ensures TokenLen(s) == |s|
  {
    if |s| > 0 {
      assert NoSpace(s[1..]) by {
        forall i | 0 <= i < |s[1..]| ensures !IsSpace(s[1..][i]) {
          assert s[1..][i] == s[i + 1];
        }
      }
      TokenLenAll(s[1..]);
    }
  }

  /** Python `s.split(sep, 1)`: (head, Some(tail)) at the first separator. */
  function SplitFirst(s: String, sep: char): (r: (String, Option<String>))
    ensures r.1.None? ==> r.0 == s && sep !in s
    ensures r.1.Some? ==> s == r.0 + [sep] + r.1.value && sep !in r.0
  {
    match Find(s, sep)
    case None => (s, None)
    case Some(j) =>
      assert s == s[..j] + [sep] + s[j + 1..];
      (s[..j], Some(s[j + 1..]))
  }

  /** Python `s.rsplit(sep, 1)`: (Some(head), tail) at the last separator. */
  function RSplitLast(s: String, sep: char): (r: (Option<String>, String))
    ensures r.0.None? ==> r.1 == s && sep !in s
    ensures r.0.Some? ==> s == r.0.value + [sep] + r.1 && sep !in r.1
  {
    match RFind(s, sep)
    case None => (None, s)
    case Some(j) =>
      assert s == s[..j] + [sep] + s[j + 1..];
      (Some(s[..j]), s[j + 1..])
  }

  // ---------------------------------------------------------------- decimal digits

  function DigitValue(c: char): nat
    requires IsDigit(c)
  {
    c as int - '0' as int
  }

  function DigitChar(d: nat): (c: char)
    requires d < 10
    ensures IsDigit(c) && DigitValue(c) == d
  {
    (d + '0' as int) as char
  }

  /** Value of a string of decimal digits, most significant first. */
  function DigitsValue(s: String): nat
    requires AllDigits(s)
  {
    if |s| == 0 then 0 else 10 * DigitsValue(s[..|s| - 1]) + DigitValue(s[|s| - 1])
  }

  /** `"%d" % n` for a natural number. */
  function NatToString(n: nat): (r: String)
    ensures |r| > 0 && AllDigits(r)
  {
    if n < 10 then [DigitChar(n)] else NatToString(n / 10) + [DigitChar(n % 10)]
  }

  /** `"%d" % n` (also `str(n)`). */
  function IntToString(n: int): (r: String)
    ensures |r| > 0 && NoSpace(r)
  {
    if n < 0 then "-" + NatToString(-n) else NatToString(n)
  }

  /** The characters of `"%d" % n`: digits, after a '-' for a negative n. */
  lemma IntToStringChars(n: int)
    ensures forall c :: c in IntToString(n) ==> c == '-' || IsDigit(c)
    ensures IntToString(n) != "+"
  {
    var d := IntToString(n);
    if n < 0 {
      var t := NatToString(-n);
      assert d == "-" + t;
      forall c | c in d ensures c == '-' || IsDigit(c) {
        if c != '-' {
          assert c in t;
        }
      }
    } else {
      assert IsDigit(d[0]);
    }
  }

  lemma {:induction false} NatToStringValue(n: nat)
    ensures DigitsValue(NatToString(n)) == n
  {
    if n >= 10 {
      NatToStringValue(n / 10);
      var s := NatToString(n);
      assert s[..|s| - 1] == NatToString(n / 10);
    }
  }

  // ---------------------------------------------------------------- Python int()

  /**
   * Python 2 `int(s)` on a string: surrounding whitespace, an optional sign,
   * more whitespace (PyOS_strtoul and PyLong_FromString skip it after the
   * sign), then decimal digits.
   */
  function ParseInt(s: String): (r: Option<int>)
    ensures r.Some? ==> |Strip(s)| > 0
  {
    var t := Strip(s);
    if |t| > 0 && (t[0] == '-' || t[0] == '+') then
      var d := t[SkipSpaces(t, 1)..];
      if |d| > 0 && AllDigits(d) then
        Some(if t[0] == '-' then -(DigitsValue(d) as int) else DigitsValue(d))
      else None
    else if |t| > 0 && AllDigits(t) then Some(DigitsValue(t))
    else None
  }

  /** `int(str(n)) == n`. */
  lemma ParseIntToString(n: int)
    ensures ParseInt(IntToString(n)) == Some(n)
  {
    var s := IntToString(n);
    StripNoSpace(s);
    if n < 0 {
      NatToStringValue(-n);
      assert s[1..] == NatToString(-n);
    } else {
      NatToStringValue(n);
    }
  }

  /** Over a run of whitespace that ends at k, SkipSpaces stops exactly at k. */
  lemma {:induction false} SkipSpacesOver(s: String, i: nat, k: nat)
    requires i <= k <= |s|
    requires forall j :: i <= j < k ==> IsSpace(s[j])
    requires k < |s| ==> !IsSpace(s[k])
    ensures SkipSpaces(s, i) == k
    decreases k - i
  {
    if i < k {
      SkipSpacesOver(s, i + 1, k);
    }
  }

  /** On a stripped string starting with a sign, `int()` reads the digits after the sign and its whitespace. */
  lemma ParseIntSigned(t: String, k: nat, d: String)
    requires Strip(t) == t && |t| > 0 && (t[0] == '-' || t[0] == '+')
    requires 1 <= k <= |t| && k == SkipSpaces(t, 1) && d == t[k..] && |d| > 0 && AllDigits(d)
    ensures ParseInt(t) == Some(if t[0] == '-' then -(DigitsValue(d) as int) else DigitsValue(d))
  {
  }

  /** The whitespace after the sign of `[sign] + ws + d` ends where d starts. */
  lemma SignSpacesEnd(sign: char, ws: String, d: String)
    requires forall i :: 0 <= i < |ws| ==> IsSpace(ws[i])
    requires |d| > 0 && !IsSpace(d[0])
    ensures var s := [sign] + ws + d; SkipSpaces(s, 1) == 1 + |ws| && s[1 + |ws|..] == d
  {
    var s := [sign] + ws + d;
    assert forall j :: 1 <= j < 1 + |ws| ==> s[j] == ws[j - 1];
    assert s[1 + |ws|] == d[0];
    SkipSpacesOver(s, 1, 1 + |ws|);
    assert s[1 + |ws|..] == d;
  }

  /** A sign, whitespace and a non-empty digit string, read by `int()`. */
  lemma ParseIntSpaced(sign: char, ws: String, d: String)
    requires sign == '-' || sign == '+'
    requires forall i :: 0 <= i < |ws| ==> IsSpace(ws[i])
    requires |d| > 0 && AllDigits(d)
    ensures ParseInt([sign] + ws + d) == Some(if sign == '-' then -(DigitsValue(d) as int) else DigitsValue(d))
  {
    var s := [sign] + ws + d;
    assert s[0] == sign && s[|s| - 1] == d[|d| - 1];
    assert !IsSpace(d[0]) && !IsSpace(d[|d| - 1]);
    StripUnchanged(s);
    SignSpacesEnd(sign, ws, d);
    ParseIntSigned(s, 1 + |ws|, d);
  }

  /** `int()` reads a sign followed by whitespace and digits: `int("- 5") == -5`. */
  lemma ParseIntSpaceAfterSign(sign: char, ws: String, n: nat)
    requires sign == '-' || sign == '+'
    requires forall i :: 0 <= i < |ws| ==> IsSpace(ws[i])
    ensures ParseInt([sign] + ws + NatToString(n)) == Some(if sign == '-' then -(n as int) else n)
  {
    NatToStringValue(n);
    ParseIntSpaced(sign, ws, NatToString(n));
  }

  lemma ParseIntMinusSpaceFive()
    ensures ParseInt("- 5") == Some(-5)
  {
    var five := NatToString(5);
    assert five == "5";
    assert ['-'] + " " + five == "- 5";
    ParseIntSpaceAfterSign('-', " ", 5);
  }

  // ---------------------------------------------------------------- C sscanf

  // The scanners work on positions of one string, so that a conversion
  // never takes suffixes of the string it reads.

  /** The position after the whitespace starting at i. */
  function SkipSpaces(s: String, i: nat): (j: nat)
    requires i <= |s|
    ensures i <= j <= |s| && (j < |s| ==> !IsSpace(s[j]))
    decreases |s| - i
  {
    if i < |s| && IsSpace(s[i]) then SkipSpaces(s, i + 1) else i
  }

  /** The position after an optional sign at i. */
  function SkipSign(s: String, i: nat): (j: nat)
    requires i <= |s|
    ensures i <= j <= |s| && j <= i + 1
    ensures j == i + 1 <==> i < |s| && (s[i] == '-' || s[i] == '+')
  {
    if i < |s| && (s[i] == '-' || s[i] == '+') then i + 1 else i
  }

  predicate DigitsIn(s: String, i: nat, j: nat)
    requires i <= j <= |s|
  {
    forall k :: i <= k < j ==> IsDigit(s[k])
  }

  /** The position after the decimal digits starting at i. */
  function SkipDigits(s: String, i: nat): (j: nat)
    requires i <= |s|
    ensures i <= j <= |s| && DigitsIn(s, i, j) && (j < |s| ==> !IsDigit(s[j]))
    decreases |s| - i
  {
    if i < |s| && IsDigit(s[i]) then SkipDigits(s, i + 1) else i
  }

  /** Value of the digits s[i..j], most significant first. */
  function DigitsValueIn(s: String, i: nat, j: nat): nat
    requires i <= j <= |s| && DigitsIn(s, i, j)
    decreases j - i
  {
    if j == i then 0 else 10 * DigitsValueIn(s, i, j - 1) + DigitValue(s[j - 1])
  }

  /** The digits s[i..j] have the value the digit string s[i..j] has. */
  lemma {:induction false} DigitsValueInSlice(s: String, i: nat, j: nat)
    requires i <= j <= |s| && DigitsIn(s, i, j)
    ensures AllDigits(s[i..j]) && DigitsValueIn(s, i, j) == DigitsValue(s[i..j])
    decreases j - i
  {
    if j > i {
      DigitsValueInSlice(s, i, j - 1);
      assert s[i..j][..j - i - 1] == s[i..j - 1];
    }
  }

  /**
   * The conversion `%d` of `sscanf` at position i: skips whitespace and reads an
   * optional sign and at least one digit.  Returns the value and the position after it.
   */
  function ScanIntAt(s: String, i: nat): (r: Option<(int, nat)>)
    requires i <= |s|
    ensures r.Some? ==> i < r.value.1 <= |s|
  {
    var w := SkipSpaces(s, i);
    var g := SkipSign(s, w);
    var n := SkipDigits(s, g);
    if n == g then None
    else
      var v := DigitsValueIn(s, g, n);
      Some((if g > w && s[w] == '-' then -(v as int) else v, n))
  }

  /** Number of conversions `sscanf(s, "%d %d", ...)` completes, with their values. */
  function ScanTwoInts(s: String): (r: (nat, int, int))
    ensures r.0 <= 2
  {
    match ScanIntAt(s, 0)
    case None => (0, 0, 0)
    case Some((a, n)) =>
      match ScanIntAt(s, n)
      case None => (1, a, 0)
      case Some((b, _)) => (2, a, b)
  }

  function Pow10(e: nat): (r: real)
    ensures r >= 1.0
  {
    if e == 0 then 1.0 else 10.0 * Pow10(e - 1)
  }

  /** Scale `m` by ten to the power `e` (possibly negative). */
  function ScaleByPow10(m: real, e: int): real {
    if e >= 0 then m * Pow10(e) else m / Pow10(-e)
  }

  /** The position after a well-formed exponent `e[sign]digits` at m, or m itself. */
  function ExponentEnd(s: String, m: nat): (n: nat)
    requires m <= |s|
    ensures m <= n <= |s|
  {
    if m < |s| && (s[m] == 'e' || s[m] == 'E') then
      var g := SkipSign(s, m + 1);
      var d := SkipDigits(s, g);
      if d == g then m else d
    else m
  }

  function ExponentValue(s: String, m: nat): int
    requires m <= |s| && ExponentEnd(s, m) > m
  {
    var g := SkipSign(s, m + 1);
    var d := SkipDigits(s, g);
    var v := DigitsValueIn(s, g, d);
    if g > m + 1 && s[m + 1] == '-' then -(v as int) else v
  }

  /**
   * The longest decimal floating-point literal ([sign] digits [. digits]
   * [exponent], with at least one mantissa digit) starting at position i, as
   * its value and the position after it.  Hexadecimal, infinity and NaN are
   * not modelled.
   */
  function ScanDecimalAt(s: String, i: nat): (r: Option<(real, nat)>)
    requires i <= |s|
    ensures r.Some? ==> i < r.value.1 <= |s|
  {
    var g := SkipSign(s, i);
    var a := SkipDigits(s, g);
    var hasDot := a < |s| && s[a] == '.';
    var b := if hasDot then SkipDigits(s, a + 1) else a;
    var fd := if hasDot then b - (a + 1) else 0;
    if a - g + fd == 0 then None
    else
      var e := ExponentEnd(s, b);
      var ev := if e > b then ExponentValue(s, b) else 0;
      var frac := if hasDot then DigitsValueIn(s, a + 1, b) else 0;
      var mantissa := DigitsValueIn(s, g, a) as real * Pow10(fd) + frac as real;
      var mag := ScaleByPow10(mantissa, ev - fd);
      Some((if g > i && s[i] == '-' then -mag else mag, e))
  }

  /** The conversion `%f` of `sscanf`: optional leading whitespace, then a decimal literal. */
  function ScanFloat(s: String): (r: Option<real>) {
    match ScanDecimalAt(s, SkipSpaces(s, 0))
    case None => None
    case Some((v, _)) => Some(v)
  }

  /** Python `float(s)`: the whole stripped string must be a decimal literal. */
  function ParseFloat(s: String): (r: Option<real>) {
    var t := Strip(s);
    match ScanDecimalAt(t, 0)
    case Some((v, n)) => if n == |t| then Some(v) else None
    case None => None
  }

  // ---------------------------------------------------------------- misc

  predicate StartsWith(s: String, p: String) {
    |p| <= |s| && s[..|p|] == p
  }
}
