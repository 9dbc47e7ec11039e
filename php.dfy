/**
 * The PHP built-ins and coercions the email form relies on, as total functions
 * on strings: boolean coercion of a string, `explode`, `implode` and
 * `is_numeric`.
 */
module Php {

  /**
   * PHP's boolean coercion of a string (`if ($s)`, `!empty($s)`): the empty
   * string and "0" are false, every other string is true.
   */
  predicate Truthy(s: string)
  {
    s != "" && s != "0"
  }

  /** None of the characters of `sep` occurs in `p`. */
  predicate Avoids(p: string, sep: string)
  {
    forall i :: 0 <= i < |p| ==> p[i] !in sep
  }

  /**
   * `explode($sep, $s)`: the pieces of `s` between the left-to-right,
   * non-overlapping occurrences of `sep`. There is always at least one piece.
   */
  function Explode(sep: string, s: string): (parts: seq<string>)
    requires |sep| > 0
    ensures |parts| >= 1
    decreases |s|
  {
    if |s| == 0 then [""]
    else if |sep| <= |s| && s[..|sep|] == sep then [""] + Explode(sep, s[|sep|..])
    else
      var rest := Explode(sep, s[1..]);
      [[s[0]] + rest[0]] + rest[1..]
  }

  /** `implode($sep, $parts)`: the pieces joined by `sep`; "" for no pieces. */
  function Implode(sep: string, parts: seq<string>): string
  {
    if |parts| == 0 then ""
    else if |parts| == 1 then parts[0]
    else parts[0] + sep + Implode(sep, parts[1..])
  }

  /** Joining the pieces of `s` again gives back `s`. */
  lemma {:induction false} ImplodeExplode(sep: string, s: string)
    requires |sep| > 0
    ensures Implode(sep, Explode(sep, s)) == s
    decreases |s|
  {
    if |s| == 0 {
    } else if |sep| <= |s| && s[..|sep|] == sep {
      var rest := Explode(sep, s[|sep|..]);
      var parts := [""] + rest;
      assert Explode(sep, s) == parts;
      assert parts[1..] == rest;
      assert Implode(sep, parts) == "" + sep + Implode(sep, rest);
      ImplodeExplode(sep, s[|sep|..]);
      assert s == sep + s[|sep|..];
    } else {
      var rest := Explode(sep, s[1..]);
      ImplodeExplode(sep, s[1..]);
      ImplodeCons(sep, [s[0]], rest);
      assert s == [s[0]] + s[1..];
    }
  }

  /** Prefixing the first piece prefixes the join. */
  lemma ImplodeCons(sep: string, c: string, rest: seq<string>)
    requires |rest| >= 1
    ensures Implode(sep, [c + rest[0]] + rest[1..]) == c + Implode(sep, rest)
  {
    var parts := [c + rest[0]] + rest[1..];
    if |rest| > 1 {
      assert parts[1..] == rest[1..];
    }
  }

  lemma {:induction false} ExplodeWithout(sep: string, p: string)
    requires |sep| > 0 && Avoids(p, sep)
    ensures Explode(sep, p) == [p]
    decreases |p|
  {
    if |p| > 0 {
      assert sep[0] in sep;
      ExplodeWithout(sep, p[1..]);
      assert p == [p[0]] + p[1..];
    }
  }

  lemma {:induction false} ExplodeCons(sep: string, p: string, t: string)
    requires |sep| > 0 && Avoids(p, sep)
    ensures Explode(sep, p + sep + t) == [p] + Explode(sep, t)
    decreases |p|
  {
    var s := p + sep + t;
    if |p| == 0 {
      assert s[..|sep|] == sep;
      assert s[|sep|..] == t;
    } else {
      assert sep[0] in sep;
      assert s[0] == p[0];
      assert s[1..] == p[1..] + sep + t;
      ExplodeCons(sep, p[1..], t);
      assert p == [p[0]] + p[1..];
    }
  }

  /** Splitting a join gives back the pieces when no piece holds a character of the separator. */
  lemma {:induction false} ExplodeImplode(sep: string, parts: seq<string>)
    requires |sep| > 0 && |parts| >= 1
    requires forall i :: 0 <= i < |parts| ==> Avoids(parts[i], sep)
    ensures Explode(sep, Implode(sep, parts)) == parts
  {
    if |parts| == 1 {
      ExplodeWithout(sep, parts[0]);
    } else {
      ExplodeImplode(sep, parts[1..]);
      ExplodeCons(sep, parts[0], Implode(sep, parts[1..]));
      assert parts == [parts[0]] + parts[1..];
    }
  }

  predicate IsDigit(c: char)
  {
    '0' <= c <= '9'
  }

  /** The whitespace PHP skips around a numeric string: space, \t, \n, \r, \v and \f. */
  predicate IsWhitespace(c: char)
  {
    c == ' ' || c == '\t' || c == '\n' || c == '\r' || c == '\U{0B}' || c == '\U{0C}'
  }

  function TrimLeading(s: string): (t: string)
    ensures |t| <= |s|
  {
    if |s| > 0 && IsWhitespace(s[0]) then TrimLeading(s[1..]) else s
  }

  function TrimTrailing(s: string): (t: string)
    ensures |t| <= |s|
  {
    if |s| > 0 && IsWhitespace(s[|s| - 1]) then TrimTrailing(s[..|s| - 1]) else s
  }

  /** The length of the run of decimal digits that starts `s`. */
  function DigitRun(s: string): (n: nat)
    ensures n <= |s|
  {
    if |s| > 0 && IsDigit(s[0]) then 1 + DigitRun(s[1..]) else 0
  }

  /** The digit run is the longest prefix of digits. */
  lemma {:induction false} DigitRunIsMaximal(s: string)
    ensures forall i :: 0 <= i < DigitRun(s) ==> IsDigit(s[i])
    ensures DigitRun(s) < |s| ==> !IsDigit(s[DigitRun(s)])
  {
    if |s| > 0 && IsDigit(s[0]) {
      DigitRunIsMaximal(s[1..]);
    }
  }

  /** An exponent part: `e` or `E`, an optional sign, one or more digits, nothing else. */
  predicate IsExponent(s: string)
  {
    |s| >= 2 && (s[0] == 'e' || s[0] == 'E') &&
    var u := if s[1] == '+' || s[1] == '-' then s[2..] else s[1..];
    |u| > 0 && DigitRun(u) == |u|
  }

  /** An integer (`12`) or a decimal (`1.`, `.5`, `1.5`), each with an optional exponent. */
  predicate IsUnsignedNumber(t: string)
  {
    var n1 := DigitRun(t);
    if n1 < |t| && t[n1] == '.' then
      var frac := t[n1 + 1..];
      var n2 := DigitRun(frac);
      n1 + n2 > 0 && (n2 == |frac| || IsExponent(frac[n2..]))
    else
      n1 > 0 && (n1 == |t| || IsExponent(t[n1..]))
  }

  /**
   * `is_numeric($s)` on a string, by the PHP 8 rules: optional whitespace, an
   * optional sign, a decimal number with optional exponent, optional whitespace.
   */
  predicate IsNumeric(s: string)
  {
    var t := TrimTrailing(TrimLeading(s));
    var u := if |t| > 0 && (t[0] == '+' || t[0] == '-') then t[1..] else t;
    IsUnsignedNumber(u)
  }

  /** The decimal notation of `n`, as PHP prints an integer. */
  function DecimalString(n: nat): (s: string)
    ensures |s| > 0
    ensures forall i :: 0 <= i < |s| ==> IsDigit(s[i])
  {
    if n < 10 then [('0' as int + n) as char]
    else DecimalString(n / 10) + [('0' as int + n % 10) as char]
  }

  lemma {:induction false} DigitRunOfDigits(s: string)
    requires forall i :: 0 <= i < |s| ==> IsDigit(s[i])
    ensures DigitRun(s) == |s|
  {
    if |s| > 0 {
      DigitRunOfDigits(s[1..]);
    }
  }

  /** Every decimal integer, such as a case id printed by the host, is numeric. */
  lemma DecimalStringIsNumeric(n: nat)
    ensures IsNumeric(DecimalString(n))
  {
    var s := DecimalString(n);
    assert !IsWhitespace(s[0]) && !IsWhitespace(s[|s| - 1]);
    assert TrimTrailing(TrimLeading(s)) == s;
    DigitRunOfDigits(s);
  }
}
