/**
 * The slice of PHP's value semantics the model layer relies on: scalar
 * values, `trim`, `empty`, casts to string and bool, `ucfirst`, and the loose
 * comparison `==` / `!=` of PHP 7 restricted to these scalars.
 */
module Php {

  /** A field value.  Arrays and objects as field values are not modelled. */
  datatype Value = Null | Int(i: int) | Str(s: string) | Bool(b: bool)

  // ---------------------------------------------------------------------------
  // Strings

  /** The characters `trim` strips by default: space, tab, newline, carriage return, NUL, vertical tab. */
  predicate IsTrimmed(c: char) {
    c == ' ' || c == '\t' || c == '\n' || c == '\r' || c == '\0' || c == '\U{000B}'
  }

  function TrimLeft(s: string): string {
    if s != [] && IsTrimmed(s[0]) then TrimLeft(s[1..]) else s
  }

  function TrimRight(s: string): string {
    if s != [] && IsTrimmed(s[|s| - 1]) then TrimRight(s[..|s| - 1]) else s
  }

  /** PHP `trim`. */
  function Trim(s: string): string {
    TrimRight(TrimLeft(s))
  }

  /** `trim` yields the empty string exactly when every character is one that it strips. */
  lemma {:induction false} TrimEmptyIff(s: string)
    ensures Trim(s) == "" <==> forall i :: 0 <= i < |s| ==> IsTrimmed(s[i])
  {
    TrimLeftEmptyIff(s);
    if TrimLeft(s) != "" {
      TrimLeftStartsKept(s);
      TrimRightKeepsFirst(TrimLeft(s));
    }
  }

  lemma {:induction false} TrimLeftEmptyIff(s: string)
    ensures TrimLeft(s) == "" <==> forall i :: 0 <= i < |s| ==> IsTrimmed(s[i])
  {
    if s != [] && IsTrimmed(s[0]) {
      TrimLeftEmptyIff(s[1..]);
      assert forall i :: 1 <= i < |s| ==> s[i] == s[1..][i - 1];
    }
  }

  lemma {:induction false} TrimLeftStartsKept(s: string)
    ensures TrimLeft(s) != "" ==> !IsTrimmed(TrimLeft(s)[0])
  {
    if s != [] && IsTrimmed(s[0]) {
      TrimLeftStartsKept(s[1..]);
    }
  }

  lemma {:induction false} TrimRightKeepsFirst(s: string)
    requires s != [] && !IsTrimmed(s[0])
    ensures TrimRight(s) != [] && TrimRight(s)[0] == s[0]
  {
    if IsTrimmed(s[|s| - 1]) {
      TrimRightKeepsFirst(s[..|s| - 1]);
    }
  }

  /** The decimal digit for `d`. */
  function DigitChar(d: int): (c: char)
    requires 0 <= d < 10
    ensures '0' <= c <= '9' && c as int - '0' as int == d
  {
    ('0' as int + d) as char
  }

  function NatToString(n: nat): (r: string)
    ensures |r| > 0
    ensures forall i :: 0 <= i < |r| ==> '0' <= r[i] <= '9'
    decreases n
  {
    if n < 10 then [DigitChar(n)] else NatToString(n / 10) + [DigitChar(n % 10)]
  }

  /** Different numbers are written differently. */
  lemma {:induction false} NatToStringInjective(a: nat, b: nat)
    requires NatToString(a) == NatToString(b)
    ensures a == b
    decreases a
  {
    var s := NatToString(a);
    if a >= 10 && b >= 10 {
      assert s[|s| - 1] == DigitChar(a % 10) && s[|s| - 1] == DigitChar(b % 10);
      assert NatToString(a / 10) == s[..|s| - 1] == NatToString(b / 10);
      NatToStringInjective(a / 10, b / 10);
    } else if a >= 10 || b >= 10 {
      assert false;
    } else {
      assert s[0] == DigitChar(a) && s[0] == DigitChar(b);
    }
  }

  /** PHP's cast of an integer to a string: decimal, with a leading `-` for negatives. */
  function IntToString(n: int): (r: string)
    ensures |r| > 0
    ensures forall i :: 0 <= i < |r| ==> r[i] == '-' || '0' <= r[i] <= '9'
  {
    if n < 0 then "-" + NatToString(-n) else NatToString(n)
  }

  /** The written form starts with `-` exactly for negative numbers. */
  lemma IntToStringSign(n: int)
    ensures IntToString(n)[0] == '-' <==> n < 0
  {
    if n >= 0 {
      assert '0' <= NatToString(n)[0] <= '9';
    }
  }

  /** Different integers are written differently. */
  lemma IntToStringInjective(a: int, b: int)
    requires IntToString(a) == IntToString(b)
    ensures a == b
  {
    var s := IntToString(a);
    if a < 0 && b < 0 {
      assert NatToString(-a) == s[1..] == NatToString(-b);
      NatToStringInjective(-a, -b);
    } else if a >= 0 && b >= 0 {
      NatToStringInjective(a, b);
    } else {
      IntToStringSign(a);
      IntToStringSign(b);
      assert false;
    }
  }

  /** PHP's cast of a scalar to a string (`false` and `null` become the empty string). */
  function ToPhpString(v: Value): string {
    match v
    case Null => ""
    case Int(i) => IntToString(i)
    case Str(s) => s
    case Bool(b) => if b then "1" else ""
  }

  /** PHP `empty()` on a scalar. */
  predicate PhpEmpty(v: Value) {
    match v
    case Null => true
    case Int(i) => i == 0
    case Str(s) => s == "" || s == "0"
    case Bool(b) => !b
  }

  /**
   * `empty()` accepts everything the model's `isEmpty` accepts, and exactly two
   * values more: the integer 0 and the string "0".
   */
  lemma EmptyWiderThanIsEmpty(v: Value)
    ensures IsEmpty(v) ==> PhpEmpty(v)
    ensures PhpEmpty(v) && !IsEmpty(v) <==> v == Int(0) || v == Str("0")
  {
    IsEmptyExactly(v);
  }

  /** PHP's cast of a scalar to bool. */
  predicate ToBool(v: Value) {
    !PhpEmpty(v)
  }

  /**
   * The model's emptiness rule: not the integer 0, not the string "0", blank
   * after `trim`, and `empty()`.  All four must hold.
   */
  predicate IsEmpty(v: Value) {
    v != Int(0) && v != Str("0") && Trim(ToPhpString(v)) == "" && PhpEmpty(v)
  }

  /**
   * Exactly `null`, `""` and `false` are empty.  In particular `0`, `"0"` and
   * whitespace-only strings such as `" "` are not.
   */
  lemma IsEmptyExactly(v: Value)
    ensures IsEmpty(v) <==> v == Null || v == Str("") || v == Bool(false)
  {
  }

  // ---------------------------------------------------------------------------
  // Loose comparison

  predicate IsDigit(c: char) {
    '0' <= c <= '9'
  }

  /** Whitespace PHP skips before a numeric string. */
  predicate IsNumericSpace(c: char) {
    c == ' ' || c == '\t' || c == '\n' || c == '\r' || c == '\U{000B}' || c == '\U{000C}'
  }

  function SkipSpace(s: string): string {
    if s != [] && IsNumericSpace(s[0]) then SkipSpace(s[1..]) else s
  }

  /** The longest prefix of digits. */
  function DigitRun(s: string): (r: string)
    ensures |r| <= |s| && r == s[..|r|]
    ensures forall i :: 0 <= i < |r| ==> IsDigit(r[i])
  {
    if s != [] && IsDigit(s[0]) then [s[0]] + DigitRun(s[1..]) else ""
  }

  function DigitsValue(d: string): nat
    requires forall i :: 0 <= i < |d| ==> IsDigit(d[i])
  {
    if d == [] then 0
    else
      assert IsDigit(d[|d| - 1]);
      DigitsValue(d[..|d| - 1]) * 10 + (d[|d| - 1] as int - '0' as int)
  }

  /** The sign of a numeric string, if it has one, and the rest after it. */
  function SignAndBody(s: string): (bool, string) {
    if s != [] && s[0] == '-' then (true, s[1..])
    else if s != [] && s[0] == '+' then (false, s[1..])
    else (false, s)
  }

  /** An integer numeric string: leading whitespace, an optional sign, one or more digits, nothing else. */
  predicate IsIntegerString(s: string) {
    var (_, body) := SignAndBody(SkipSpace(s));
    body != [] && forall i :: 0 <= i < |body| ==> IsDigit(body[i])
  }

  /** The integer PHP reads from the leading numeric part of a string (0 when there is none). */
  function LeadingInt(s: string): int {
    var (negative, body) := SignAndBody(SkipSpace(s));
    var n: int := DigitsValue(DigitRun(body));
    if negative then -n else n
  }

  /**
   * PHP 7 `==` on scalars: `null` against a string compares the string with
   * `""`; a bool or `null` against anything compares both as bools; an integer
   * against a string compares it with the string's leading integer; two
   * integer strings compare numerically, other strings byte by byte.
   */
  predicate LooseEq(a: Value, b: Value) {
    match (a, b)
    case (Null, Null) => true
    case (Null, Str(t)) => t == ""
    case (Str(s), Null) => s == ""
    case (Null, _) => ToBool(a) == ToBool(b)
    case (_, Null) => ToBool(a) == ToBool(b)
    case (Bool(_), _) => ToBool(a) == ToBool(b)
    case (_, Bool(_)) => ToBool(a) == ToBool(b)
    case (Int(i), Int(j)) => i == j
    case (Int(i), Str(t)) => i == LeadingInt(t)
    case (Str(s), Int(j)) => LeadingInt(s) == j
    case (Str(s), Str(t)) =>
      if IsIntegerString(s) && IsIntegerString(t) then LeadingInt(s) == LeadingInt(t) else s == t
  }

  /** Loose equality is reflexive and symmetric (it is not transitive). */
  lemma LooseEqReflexiveSymmetric(a: Value, b: Value)
    ensures LooseEq(a, a)
    ensures LooseEq(a, b) == LooseEq(b, a)
  {
  }

  /** Loose equality is not transitive: `"abc" == 0` and `0 == "0"`, yet `"abc" != "0"`. */
  lemma LooseEqNotTransitive()
    ensures LooseEq(Str("abc"), Int(0)) && LooseEq(Int(0), Str("0")) && !LooseEq(Str("abc"), Str("0"))
  {
    assert SkipSpace("abc") == "abc";
    assert DigitRun("abc") == "";
    assert SkipSpace("0") == "0";
    assert DigitRun("0") == "0" by { assert DigitRun("0"[1..]) == ""; }
    assert DigitsValue("0") == 0 by { assert "0"[..0] == ""; }
  }

  // ---------------------------------------------------------------------------
  // ucfirst

  /** ASCII upper-casing of one character. */
  function UpperChar(c: char): char {
    if 'a' <= c <= 'z' then (c as int - 32) as char else c
  }

  /** PHP `ucfirst`: upper-case the first character. */
  function Ucfirst(s: string): (r: string)
    ensures |r| == |s|
    ensures forall i :: 1 <= i < |s| ==> r[i] == s[i]
    ensures s != [] ==> r[0] == UpperChar(s[0])
  {
    if s == [] then s else [UpperChar(s[0])] + s[1..]
  }

  /** Applying `ucfirst` twice changes nothing more. */
  lemma UcfirstIdempotent(s: string)
    ensures Ucfirst(Ucfirst(s)) == Ucfirst(s)
  {
  }
}
