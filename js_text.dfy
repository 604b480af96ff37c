/**
 * The JavaScript built-ins the application applies to strings and numbers:
 * `String.prototype.trim`, the UTF-16 `length` of a string, conversion of an
 * integer to its decimal text (template literals) and `parseInt` without a
 * radix. Strings are sequences of Unicode scalar values.
 */
module JsText {
  import opened Wrappers

  /** The WhiteSpace and LineTerminator code points that `trim` removes. */
  predicate IsWhitespace(c: char) {
    || c == '\t' || c == '\n' || c == '\U{000B}' || c == '\U{000C}' || c == '\r'
    || c == ' ' || c == '\U{00A0}' || c == '\U{1680}'
    || ('\U{2000}' <= c <= '\U{200A}')
    || c == '\U{2028}' || c == '\U{2029}' || c == '\U{202F}' || c == '\U{205F}'
    || c == '\U{3000}' || c == '\U{FEFF}'
  }

  /** `trimStart`: drops the leading whitespace; the result is a suffix that does not start with whitespace. */
  function TrimStart(s: string): (r: string)
    ensures |r| <= |s| && r == s[|s| - |r|..]
    ensures r == [] || !IsWhitespace(r[0])
  {
    if s != [] && IsWhitespace(s[0]) then TrimStart(s[1..]) else s
  }

  /** Everything `trimStart` drops is whitespace. */
  lemma {:induction false} TrimStartDropsWhitespace(s: string)
    ensures forall i :: 0 <= i < |s| - |TrimStart(s)| ==> IsWhitespace(s[i])
  {
    if s != [] && IsWhitespace(s[0]) {
      TrimStartDropsWhitespace(s[1..]);
      forall i | 1 <= i < |s| - |TrimStart(s)| ensures IsWhitespace(s[i]) {
        assert s[i] == s[1..][i - 1];
      }
    }
  }

  /** `trimEnd`: drops the trailing whitespace; the result is a prefix that does not end with whitespace. */
  function TrimEnd(s: string): (r: string)
    ensures |r| <= |s| && r == s[..|r|]
    ensures r == [] || !IsWhitespace(r[|r| - 1])
  {
    if s != [] && IsWhitespace(s[|s| - 1]) then TrimEnd(s[..|s| - 1]) else s
  }

  /** Everything `trimEnd` drops is whitespace. */
  lemma {:induction false} TrimEndDropsWhitespace(s: string)
    ensures forall i :: |TrimEnd(s)| <= i < |s| ==> IsWhitespace(s[i])
  {
    if s != [] && IsWhitespace(s[|s| - 1]) {
      TrimEndDropsWhitespace(s[..|s| - 1]);
      forall i | |TrimEnd(s)| <= i < |s| - 1 ensures IsWhitespace(s[i]) {
        assert s[i] == s[..|s| - 1][i];
      }
    }
  }

  /** `trim`. */
  function Trim(s: string): string {
    TrimEnd(TrimStart(s))
  }

  /**
   * `trim` removes exactly a run of whitespace at each end: the input is the
   * result with whitespace added before and after, and the result neither
   * starts nor ends with whitespace.
   */
  lemma TrimSplits(s: string)
    ensures var t, i := Trim(s), |s| - |TrimStart(s)|;
      && (t == [] || (!IsWhitespace(t[0]) && !IsWhitespace(t[|t| - 1])))
      && i + |t| <= |s|
      && s[i..i + |t|] == t
      && (forall k :: 0 <= k < i ==> IsWhitespace(s[k]))
      && (forall k :: i + |t| <= k < |s| ==> IsWhitespace(s[k]))
  {
    TrimKeepsMiddle(s);
    TrimDropsTrailing(s);
    TrimStartDropsWhitespace(s);
    var a := TrimStart(s);
    var t := TrimEnd(a);
    if t != [] {
      assert t[0] == a[0];
    }
  }

  lemma TrimKeepsMiddle(s: string)
    ensures var t, i := Trim(s), |s| - |TrimStart(s)|;
      i + |t| <= |s| && s[i..i + |t|] == t
  {
    var a := TrimStart(s);
    var t := TrimEnd(a);
    var i := |s| - |a|;
    PrefixOfSuffix(s, i, a, t);
  }

  /** A prefix `t` of the suffix `a` of `s` that starts at `i` is the slice of `s` from `i`. */
  lemma PrefixOfSuffix<T>(s: seq<T>, i: nat, a: seq<T>, t: seq<T>)
    requires i <= |s| && a == s[i..] && |t| <= |a| && t == a[..|t|]
    ensures i + |t| <= |s| && s[i..i + |t|] == t
  {
  }

  lemma TrimDropsTrailing(s: string)
    ensures var t, i := Trim(s), |s| - |TrimStart(s)|;
      i + |t| <= |s| && forall k :: i + |t| <= k < |s| ==> IsWhitespace(s[k])
  {
    var a := TrimStart(s);
    var t := TrimEnd(a);
    var i := |s| - |a|;
    assert a == s[i..];
    TrimEndDropsWhitespace(a);
    forall k | i + |t| <= k < |s| ensures IsWhitespace(s[k]) {
      var j := k - i;
      assert |t| <= j < |a|;
      assert IsWhitespace(a[j]);
      assert s[k] == a[j];
    }
  }

  lemma {:induction false} AllWhitespaceTrimsAway(s: string)
    requires forall k :: 0 <= k < |s| ==> IsWhitespace(s[k])
    ensures TrimStart(s) == []
  {
    if s != [] {
      AllWhitespaceTrimsAway(s[1..]);
    }
  }

  /** A string trims to the empty string exactly when it is all whitespace. */
  lemma TrimEmptyIff(s: string)
    ensures Trim(s) == [] <==> forall k :: 0 <= k < |s| ==> IsWhitespace(s[k])
  {
    var a := TrimStart(s);
    if Trim(s) == [] {
      TrimEndDropsWhitespace(a);
      assert a == [];
      TrimStartDropsWhitespace(s);
    }
    if forall k :: 0 <= k < |s| ==> IsWhitespace(s[k]) {
      AllWhitespaceTrimsAway(s);
    }
  }

  /** Trimming twice is trimming once. */
  lemma TrimIdempotent(s: string)
    ensures Trim(Trim(s)) == Trim(s)
  {
    var t := Trim(s);
    TrimSplits(s);
    assert TrimStart(t) == t;
    assert TrimEnd(t) == t;
  }

  /** The number of UTF-16 code units of `s`: JavaScript's `s.length`. */
  function Utf16Length(s: string): (n: nat)
    ensures |s| <= n <= 2 * |s|
  {
    if s == [] then 0
    else (if s[0] as int > 0xFFFF then 2 else 1) + Utf16Length(s[1..])
  }

  /** A string of characters outside the Basic Multilingual Plane takes two code units per character. */
  lemma {:induction false} AstralLength(s: string)
    requires forall i :: 0 <= i < |s| ==> s[i] as int > 0xFFFF
    ensures Utf16Length(s) == 2 * |s|
  {
    if s != [] {
      AstralLength(s[1..]);
    }
  }

  predicate IsDecimalDigit(c: char) {
    '0' <= c <= '9'
  }

  predicate IsHexDigit(c: char) {
    IsDecimalDigit(c) || ('a' <= c <= 'f') || ('A' <= c <= 'F')
  }

  function DigitValue(c: char): nat
    requires IsHexDigit(c)
  {
    if IsDecimalDigit(c) then c as int - '0' as int
    else if 'a' <= c <= 'f' then c as int - 'a' as int + 10
    else c as int - 'A' as int + 10
  }

  predicate IsDigitIn(c: char, radix: nat) {
    if radix == 16 then IsHexDigit(c) else IsDecimalDigit(c)
  }

  /** The decimal digits of a natural number, most significant first, without leading zeros. */
  function NatDigits(n: nat): (r: string)
    ensures r != []
    ensures forall i :: 0 <= i < |r| ==> IsDecimalDigit(r[i])
    ensures r[0] == '0' ==> n == 0 && |r| == 1
  {
    if n < 10 then ['0' + (n as char)]
    else NatDigits(n / 10) + ['0' + ((n % 10) as char)]
  }

  /** The text an integer becomes in a template literal (`${n}`). */
  function DecimalString(n: int): string {
    if n < 0 then "-" + NatDigits(-n) else NatDigits(n)
  }

  /** The value of a string of digits in the given radix. */
  function DigitsValue(s: string, radix: nat): nat
    requires forall i :: 0 <= i < |s| ==> IsDigitIn(s[i], radix)
  {
    if s == [] then 0
    else
      assert IsDigitIn(s[|s| - 1], radix);
      DigitsValue(s[..|s| - 1], radix) * radix + DigitValue(s[|s| - 1])
  }

  /** The length of the longest prefix of `s` made of digits of the radix. */
  function DigitRun(s: string, radix: nat): (n: nat)
    ensures n <= |s|
    ensures forall i :: 0 <= i < n ==> IsDigitIn(s[i], radix)
    ensures n < |s| ==> !IsDigitIn(s[n], radix)
  {
    if s != [] && IsDigitIn(s[0], radix) then 1 + DigitRun(s[1..], radix) else 0
  }

  /** The value of the digits of the radix at the front of `body`; `None` when there are none. */
  function ReadRun(body: string, radix: nat): Option<nat> {
    var n := DigitRun(body, radix);
    if n == 0 then None else Some(DigitsValue(body[..n], radix))
  }

  /** An unsigned number: a `0x`/`0X` prefix selects hexadecimal, anything else is read in decimal. */
  function ReadUnsigned(u: string): Option<nat> {
    if |u| >= 2 && u[0] == '0' && (u[1] == 'x' || u[1] == 'X') then ReadRun(u[2..], 16)
    else ReadRun(u, 10)
  }

  /**
   * `parseInt(s)` with no radix: skip leading whitespace, read an optional
   * sign, read a `0x`/`0X` prefix as hexadecimal, then as many digits as
   * there are. `None` stands for `NaN` (no digit at all).
   */
  function ParseInt(s: string): Option<int> {
    var t := TrimStart(s);
    var negative := t != [] && t[0] == '-';
    var u := if t != [] && (t[0] == '-' || t[0] == '+') then t[1..] else t;
    match ReadUnsigned(u)
    case None => None
    case Some(v) => Some(if negative then -(v as int) else v as int)
  }

  lemma {:induction false} NatDigitsValue(n: nat)
    ensures DigitsValue(NatDigits(n), 10) == n
  {
    if n >= 10 {
      var d := NatDigits(n);
      assert d[..|d| - 1] == NatDigits(n / 10);
      NatDigitsValue(n / 10);
    }
  }

  /** A digit string without a leading zero is read whole, in decimal. */
  lemma ReadDigits(d: string)
    requires d != [] && forall i :: 0 <= i < |d| ==> IsDecimalDigit(d[i])
    requires d[0] == '0' ==> |d| == 1
    ensures !IsWhitespace(d[0]) && d[0] != '-' && d[0] != '+'
    ensures DigitRun(d, 10) == |d| && d[..DigitRun(d, 10)] == d
  {
    assert IsDecimalDigit(d[0]);
  }

  /** A string that starts with neither whitespace nor nothing is its own `trimStart`. */
  lemma TrimStartKeeps(s: string)
    requires s != [] && !IsWhitespace(s[0])
    ensures TrimStart(s) == s
  {
  }

  /** `parseInt` reads a digit string without a leading zero as its decimal value. */
  lemma ParseDigits(d: string)
    requires d != [] && forall i :: 0 <= i < |d| ==> IsDecimalDigit(d[i])
    requires d[0] == '0' ==> |d| == 1
    ensures ParseInt(d) == Some(DigitsValue(d, 10))
  {
    ReadDigits(d);
    TrimStartKeeps(d);
  }

  /** `parseInt` reads a minus sign followed by such a digit string as the negated value. */
  lemma ParseNegativeDigits(s: string, m: nat)
    requires |s| >= 2 && s[0] == '-' && forall i :: 1 <= i < |s| ==> IsDecimalDigit(s[i])
    requires s[1] == '0' ==> |s| == 2
    requires DigitsValue(s[1..], 10) == m
    ensures ParseInt(s) == Some(-(m as int))
  {
    var d := s[1..];
    ReadDigits(d);
    TrimStartKeeps(s);
    assert !(|d| >= 2 && d[0] == '0');
  }

  lemma ParseNonNegative(n: nat)
    ensures ParseInt(DecimalString(n)) == Some(n)
  {
    NatDigitsValue(n);
    ParseDigits(NatDigits(n));
  }

  /** The text of a negative number is a minus sign followed by the digits of its magnitude. */
  lemma NegativeText(n: int)
    requires n < 0
    ensures var s := DecimalString(n);
      && |s| >= 2 && s[0] == '-' && s[1..] == NatDigits(-n)
      && (forall i :: 1 <= i < |s| ==> IsDecimalDigit(s[i]))
      && (s[1] == '0' ==> |s| == 2)
  {
    var s := DecimalString(n);
    var d := NatDigits(-n);
    assert s[1..] == d;
    forall i | 1 <= i < |s|
      ensures IsDecimalDigit(s[i])
    {
      assert s[i] == d[i - 1];
    }
  }

  lemma ParseNegative(n: int)
    requires n < 0
    ensures ParseInt(DecimalString(n)) == Some(n)
  {
    NegativeText(n);
    NatDigitsValue(-n);
    ParseNegativeDigits(DecimalString(n), -n);
  }

  /** Reading an integer's decimal text back with `parseInt` gives the integer. */
  lemma ParseDecimalString(n: int)
    ensures ParseInt(DecimalString(n)) == Some(n)
  {
    if n < 0 {
      ParseNegative(n);
    } else {
      ParseNonNegative(n);
    }
  }

  /** Different integers have different decimal texts. */
  lemma DecimalStringInjective(m: int, n: int)
    requires DecimalString(m) == DecimalString(n)
    ensures m == n
  {
    ParseDecimalString(m);
    ParseDecimalString(n);
  }
}
