/**
 * Python's `int(text)` on a `str`, base 10, and the scraper's tolerant
 * variant `_parse_int_or_0`.
 *
 * Only ASCII is modelled: the whitespace `int` strips is the six C
 * whitespace characters, a digit is '0'..'9', and the underscores Python
 * allows between digits ("1_000") are not accepted.
 */
module IntText {
  import opened Wrappers

  predicate IsSpace(c: char) {
    c == ' ' || c == '\t' || c == '\n' || c == '\r' || c == '\U{000B}' || c == '\U{000C}'
  }

  predicate IsDigit(c: char) {
    '0' <= c <= '9'
  }

  predicate IsSign(c: char) {
    c == '+' || c == '-'
  }

  predicate AllSpace(s: string) {
    forall i :: 0 <= i < |s| ==> IsSpace(s[i])
  }

  predicate AllDigits(s: string) {
    forall i :: 0 <= i < |s| ==> IsDigit(s[i])
  }

  /** The text of an optional sign: nothing, "+" or "-". */
  predicate IsSignText(sign: string) {
    sign == "" || sign == "+" || sign == "-"
  }

  function ApplySign(sign: string, n: nat): int {
    var v: int := n;
    if sign == "-" then -v else v
  }

  function DigitValue(c: char): nat
    requires IsDigit(c)
  {
    (c as int) - ('0' as int)
  }

  /** The value of a run of decimal digits, most significant first (leading zeros allowed). */
  function DigitsValue(s: string): nat
    requires AllDigits(s)
  {
    if s == [] then 0 else 10 * DigitsValue(s[..|s| - 1]) + DigitValue(s[|s| - 1])
  }

  function TrimStart(s: string): string {
    if s != [] && IsSpace(s[0]) then TrimStart(s[1..]) else s
  }

  function TrimEnd(s: string): string {
    if s != [] && IsSpace(s[|s| - 1]) then TrimEnd(s[..|s| - 1]) else s
  }

  /**
   * `int(text)`: strip surrounding whitespace, then an optional sign
   * followed by one or more digits. None stands for the ValueError.
   */
  function ParseInt(text: string): Option<int> {
    var t := TrimEnd(TrimStart(text));
    if t == [] then None
    else if IsSign(t[0]) then
      if |t| > 1 && AllDigits(t[1..]) then Some(ApplySign(t[..1], DigitsValue(t[1..]))) else None
    else if AllDigits(t) then Some(DigitsValue(t))
    else None
  }

  /** `_parse_int_or_0`: `int(text)`, or 0 where `int` raises ValueError. */
  function ParseIntOr0(text: string): int {
    match ParseInt(text)
    case Some(n) => n
    case None => 0
  }

  // ---------------------------------------------------------------------
  // Whitespace stripping

  lemma {:induction false} TrimStartSkips(pre: string, rest: string)
    requires AllSpace(pre) && rest != [] && !IsSpace(rest[0])
    ensures TrimStart(pre + rest) == rest
  {
    if pre != [] {
      assert (pre + rest)[1..] == pre[1..] + rest;
      TrimStartSkips(pre[1..], rest);
    }
  }

  lemma {:induction false} TrimEndSkips(rest: string, post: string)
    requires AllSpace(post) && rest != [] && !IsSpace(rest[|rest| - 1])
    ensures TrimEnd(rest + post) == rest
  {
    if post != [] {
      assert (rest + post)[..|rest + post| - 1] == rest + post[..|post| - 1];
      TrimEndSkips(rest, post[..|post| - 1]);
    } else {
      assert rest + post == rest;
    }
  }

  lemma {:induction false} TrimStartPrefix(s: string) returns (pre: string)
    ensures s == pre + TrimStart(s) && AllSpace(pre)
    ensures TrimStart(s) != [] ==> !IsSpace(TrimStart(s)[0])
  {
    if s != [] && IsSpace(s[0]) {
      var p := TrimStartPrefix(s[1..]);
      pre := [s[0]] + p;
    } else {
      pre := [];
    }
  }

  lemma {:induction false} TrimEndSuffix(s: string) returns (post: string)
    ensures s == TrimEnd(s) + post && AllSpace(post)
  {
    if s != [] && IsSpace(s[|s| - 1]) {
      var p := TrimEndSuffix(s[..|s| - 1]);
      post := p + [s[|s| - 1]];
    } else {
      post := [];
    }
  }

  // ---------------------------------------------------------------------
  // int() accepts exactly the decimal literals

  /**
   * Every text of the form whitespace, optional sign, digits, whitespace
   * parses, to the signed value of its digits.
   */
  lemma LiteralParses(pre: string, sign: string, digits: string, post: string)
    requires AllSpace(pre) && AllSpace(post) && IsSignText(sign)
    requires digits != [] && AllDigits(digits)
    ensures ParseInt(pre + sign + digits + post) == Some(ApplySign(sign, DigitsValue(digits)))
  {
    var core := sign + digits;
    assert core[|core| - 1] == digits[|digits| - 1];
    assert pre + sign + digits + post == pre + (core + post);
    TrimStartSkips(pre, core + post);
    TrimEndSkips(core, post);
    if sign != "" {
      assert core[1..] == digits;
      assert core[..1] == sign;
    } else {
      assert core == digits;
    }
  }

  /** A bare run of digits parses to its value. */
  lemma DecimalParses(digits: string)
    requires digits != [] && AllDigits(digits)
    ensures ParseInt(digits) == Some(DigitsValue(digits))
  {
  }

  /**
   * Conversely, every text that parses has that form, and its value is
   * the signed value of its digits.
   */
  lemma ParsedIsLiteral(text: string) returns (pre: string, sign: string, digits: string, post: string)
    requires ParseInt(text).Some?
    ensures text == pre + sign + digits + post
    ensures AllSpace(pre) && AllSpace(post) && IsSignText(sign)
    ensures digits != [] && AllDigits(digits)
    ensures ParseInt(text) == Some(ApplySign(sign, DigitsValue(digits)))
  {
    var s := TrimStart(text);
    pre := TrimStartPrefix(text);
    post := TrimEndSuffix(s);
    var t := TrimEnd(s);
    if IsSign(t[0]) {
      sign, digits := t[..1], t[1..];
    } else {
      sign, digits := [], t;
    }
    assert t == sign + digits;
    assert text == pre + (sign + digits + post);
  }

  /**
   * Every character of a text `int` accepts is whitespace, a sign or a
   * digit, and at least one is a digit.
   */
  lemma ParsedChars(text: string)
    ensures ParseInt(text).Some? ==> forall i :: 0 <= i < |text| ==> IsSpace(text[i]) || IsSign(text[i]) || IsDigit(text[i])
    ensures ParseInt(text).Some? ==> exists i :: 0 <= i < |text| && IsDigit(text[i])
  {
    if ParseInt(text).Some? {
      var pre, sign, digits, post := ParsedIsLiteral(text);
      forall i | 0 <= i < |text|
        ensures IsSpace(text[i]) || IsSign(text[i]) || IsDigit(text[i])
      {
        if i < |pre| {
          assert text[i] == pre[i];
        } else if i < |pre| + |sign| {
          assert text[i] == sign[i - |pre|];
        } else if i < |pre| + |sign| + |digits| {
          assert text[i] == digits[i - |pre| - |sign|];
        } else {
          assert text[i] == post[i - |pre| - |sign| - |digits|];
        }
      }
      assert text[|pre| + |sign|] == digits[0];
    }
  }

  /** A character that is neither whitespace, sign nor digit makes `int` raise. */
  lemma StrayCharRejected(text: string, i: nat)
    requires i < |text| && !IsSpace(text[i]) && !IsSign(text[i]) && !IsDigit(text[i])
    ensures ParseInt(text) == None
  {
    ParsedChars(text);
  }

  /** A text without any digit makes `int` raise: "", "-", "  ", "+ ". */
  lemma NoDigitRejected(text: string)
    requires forall i :: 0 <= i < |text| ==> !IsDigit(text[i])
    ensures ParseInt(text) == None
  {
    ParsedChars(text);
  }

  // ---------------------------------------------------------------------
  // _parse_int_or_0

  /** On a literal, `_parse_int_or_0` is the literal's value, negative ones included. */
  lemma ParseIntOr0OfLiteral(pre: string, sign: string, digits: string, post: string)
    requires AllSpace(pre) && AllSpace(post) && IsSignText(sign)
    requires digits != [] && AllDigits(digits)
    ensures ParseIntOr0(pre + sign + digits + post) == ApplySign(sign, DigitsValue(digits))
  {
    LiteralParses(pre, sign, digits, post);
  }

  /**
   * `_parse_int_or_0` is 0 exactly when `int` raises or the text denotes
   * zero, so 0 is not only the failure value; it never fails.
   */
  lemma ParseIntOr0Zero(text: string)
    ensures ParseIntOr0(text) == 0 <==> ParseInt(text) == None || ParseInt(text) == Some(0)
    ensures ParseIntOr0(text) != 0 ==> ParseInt(text) == Some(ParseIntOr0(text))
  {
  }

  /** A placeholder such as an em dash reads as 0. */
  lemma ParseIntOr0OfStrayChar(text: string, i: nat)
    requires i < |text| && !IsSpace(text[i]) && !IsSign(text[i]) && !IsDigit(text[i])
    ensures ParseIntOr0(text) == 0
  {
    StrayCharRejected(text, i);
  }

  // ---------------------------------------------------------------------
  // Round trip with the decimal rendering of an integer (Python's str(n))

  function DigitChar(d: nat): (c: char)
    requires d < 10
    ensures IsDigit(c) && DigitValue(c) == d
  {
    ('0' as int + d) as char
  }

  /** The shortest decimal digits of n. */
  function NatDigits(n: nat): (s: string)
    ensures s != [] && AllDigits(s)
  {
    if n < 10 then [DigitChar(n)] else NatDigits(n / 10) + [DigitChar(n % 10)]
  }

  function Render(n: int): string {
    if n < 0 then "-" + NatDigits(-n) else NatDigits(n)
  }

  lemma {:induction false} NatDigitsValue(n: nat)
    ensures DigitsValue(NatDigits(n)) == n
  {
    if n >= 10 {
      var s := NatDigits(n);
      assert s[..|s| - 1] == NatDigits(n / 10);
      NatDigitsValue(n / 10);
    }
  }

  /** int(str(n)) == n, so `_parse_int_or_0` returns every integer, each for its own rendering. */
  lemma ParseRendered(n: int)
    ensures ParseInt(Render(n)) == Some(n)
    ensures ParseIntOr0(Render(n)) == n
  {
    var sign := if n < 0 then "-" else "";
    var m: nat := if n < 0 then -n else n;
    NatDigitsValue(m);
    LiteralParses("", sign, NatDigits(m), "");
    assert Render(n) == "" + sign + NatDigits(m) + "";
  }
}
