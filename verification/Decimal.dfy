/** Decimal numerals: printing, reading, and Python's `int` on ASCII text. */
module Decimal {

  import opened Basics

  predicate IsDigit(c: char) { '0' <= c <= '9' }

  predicate AllDigits(s: string) { forall i :: 0 <= i < |s| ==> IsDigit(s[i]) }

  function DigitChar(d: nat): char
    requires d < 10
  {
    ('0' as int + d) as char
  }

  function DigitValue(c: char): nat
    requires IsDigit(c)
  {
    c as int - '0' as int
  }

  /** `str(n)`. */
  function Print(n: nat): (s: string)
    ensures |s| > 0 && AllDigits(s)
  {
    if n < 10 then [DigitChar(n)] else Print(n / 10) + [DigitChar(n % 10)]
  }

  function Value(s: string): nat
    requires AllDigits(s)
  {
    if s == "" then 0 else 10 * Value(s[..|s| - 1]) + DigitValue(s[|s| - 1])
  }

  lemma {:induction false} PrintThenValue(n: nat)
    ensures Value(Print(n)) == n
  {
    if n >= 10 {
      PrintThenValue(n / 10);
      assert Print(n)[..|Print(n)| - 1] == Print(n / 10);
    } else {
      assert Value([DigitChar(n)]) == 10 * Value("") + n;
    }
  }

  /** `f"{n:02d}"`. */
  function Pad2(n: nat): (s: string)
    ensures |s| >= 2 && AllDigits(s)
  {
    if n < 10 then "0" + Print(n) else Print(n)
  }

  lemma Pad2ThenValue(n: nat)
    ensures Value(Pad2(n)) == n
  {
    PrintThenValue(n);
    if n < 10 {
      assert Pad2(n)[..1] == "0";
      assert Value("0") == 10 * Value("") + 0;
    }
  }

  /** The length of the digits that `s` starts with. */
  function DigitRun(s: string): (r: nat)
    ensures r <= |s| && AllDigits(s[..r])
    ensures r < |s| ==> !IsDigit(s[r])
  {
    if s == "" || !IsDigit(s[0]) then 0
    else
      assert s == [s[0]] + s[1..];
      1 + DigitRun(s[1..])
  }

  /** The number that `s` starts with; 0 when it starts with no digit. */
  function Leading(s: string): nat { Value(s[..DigitRun(s)]) }

  lemma {:induction false} DigitRunOf(digits: string, rest: string)
    requires AllDigits(digits) && (rest == "" || !IsDigit(rest[0]))
    ensures DigitRun(digits + rest) == |digits|
    ensures (digits + rest)[..|digits|] == digits && (digits + rest)[|digits|..] == rest
  {
    var s := digits + rest;
    if digits != "" {
      assert s[1..] == digits[1..] + rest;
      DigitRunOf(digits[1..], rest);
    } else {
      assert s == rest;
    }
  }

  // ---- Python's int() -----------------------------------------------------

  /** Digits, single underscores allowed between two of them. */
  predicate IsNumeral(s: string) {
    && s != "" && IsDigit(s[0]) && IsDigit(s[|s| - 1])
    && (forall i :: 0 <= i < |s| ==> IsDigit(s[i]) || s[i] == '_')
    && (forall i :: 0 < i < |s| ==> IsDigit(s[i - 1]) || IsDigit(s[i]))
  }

  function OnlyDigits(s: string): (d: string)
    ensures AllDigits(d)
  {
    if s == "" then ""
    else if IsDigit(s[0]) then [s[0]] + OnlyDigits(s[1..])
    else OnlyDigits(s[1..])
  }

  /** `int(s)`; None is ValueError. */
  function ParseInt(s: string): Option<int> { ParseStripped(Strip(s)) }

  function ParseStripped(t: string): Option<int> {
    if t == "" || (t[0] != '+' && t[0] != '-') then Signed(1, ParseBody(t))
    else Signed(if t[0] == '-' then -1 else 1, ParseBody(t[1..]))
  }

  function ParseBody(body: string): Option<nat> {
    if IsNumeral(body) then Some(Value(OnlyDigits(body))) else None
  }

  function Signed(sign: int, n: Option<nat>): Option<int> {
    match n
    case Some(v) => Some(sign * v)
    case None => None
  }

  lemma {:induction false} OnlyDigitsOfDigits(s: string)
    requires AllDigits(s)
    ensures OnlyDigits(s) == s
  {
    if s != "" {
      OnlyDigitsOfDigits(s[1..]);
    }
  }

  lemma StripPlain(s: string)
    requires s != "" && AllDigits(s)
    ensures Strip(s) == s
  {
    assert IsDigit(s[0]) && IsDigit(s[|s| - 1]);
  }

  lemma PlainIsNumeral(s: string)
    requires s != "" && AllDigits(s)
    ensures IsNumeral(s) && s[0] != '+' && s[0] != '-'
  {
    assert IsDigit(s[0]) && IsDigit(s[|s| - 1]);
  }

  lemma ParsePlain(s: string)
    requires s != "" && AllDigits(s)
    ensures ParseInt(s) == Some(Value(s))
  {
    StripPlain(s);
    PlainIsNumeral(s);
    OnlyDigitsOfDigits(s);
  }

  /** The ten digits, in their order. */
  lemma DigitsAreTheDigits(d: nat)
    requires d < 10
    ensures DigitChar(d) == "0123456789"[d] && Print(d) == ["0123456789"[d]]
  {
  }

  /** Padding affects single digits only. */
  lemma Pad2Is(n: nat)
    ensures Pad2(n) == if n < 10 then ['0', "0123456789"[n]] else Print(n)
  {
  }

  /** `int` ignores blanks around its text. */
  lemma BlanksAround(left: string, core: string, right: string)
    requires AllBlank(left) && AllBlank(right)
    requires core != "" && !IsSpace(core[0]) && !IsSpace(core[|core| - 1])
    ensures ParseInt(left + (core + right)) == ParseInt(core)
  {
    StripOf(left, core, right);
    StripOf("", core, "");
    assert "" + (core + "") == core;
  }

  lemma BodyIsRead(digits: string)
    requires digits != "" && AllDigits(digits)
    ensures ParseBody(digits) == Some(Value(digits))
  {
    PlainIsNumeral(digits);
    OnlyDigitsOfDigits(digits);
  }

  lemma SignedIsParsed(sign: char, digits: string)
    requires (sign == '+' || sign == '-') && digits != "" && AllDigits(digits)
    ensures ParseStripped([sign] + digits) == Some(if sign == '-' then -(Value(digits) as int) else Value(digits))
  {
    assert ([sign] + digits)[1..] == digits;
    BodyIsRead(digits);
  }

  lemma SignedIsRead(sign: char, digits: string)
    requires (sign == '+' || sign == '-') && digits != "" && AllDigits(digits)
    ensures ParseInt([sign] + digits) == Some(if sign == '-' then -(Value(digits) as int) else Value(digits))
  {
    var t := [sign] + digits;
    assert t[|t| - 1] == digits[|digits| - 1] && IsDigit(digits[|digits| - 1]);
    StripOf("", t, "");
    assert "" + (t + "") == t;
    SignedIsParsed(sign, digits);
  }

  /** `int` of a numeral with or without a sign, between blanks. */
  lemma SignedNumerals(left: string, digits: string, right: string)
    requires AllBlank(left) && AllBlank(right) && digits != "" && AllDigits(digits)
    ensures ParseInt(left + (digits + right)) == Some(Value(digits))
    ensures ParseInt(left + ((['+'] + digits) + right)) == Some(Value(digits))
    ensures ParseInt(left + ((['-'] + digits) + right)) == Some(-(Value(digits) as int))
  {
    assert IsDigit(digits[0]) && IsDigit(digits[|digits| - 1]);
    BlanksAround(left, digits, right);
    ParsePlain(digits);
    BlanksAround(left, ['+'] + digits, right);
    SignedIsRead('+', digits);
    BlanksAround(left, ['-'] + digits, right);
    SignedIsRead('-', digits);
  }

  lemma {:induction false} OnlyDigitsOfConcat(s: string, t: string)
    ensures OnlyDigits(s + t) == OnlyDigits(s) + OnlyDigits(t)
  {
    if s == "" {
      assert s + t == t;
    } else {
      assert (s + t)[1..] == s[1..] + t;
      OnlyDigitsOfConcat(s[1..], t);
    }
  }

  lemma OnlyDigitsAround(a: string, b: string)
    requires AllDigits(a) && AllDigits(b)
    ensures OnlyDigits(a + (['_'] + b)) == a + b
  {
    OnlyDigitsOfConcat(a, ['_'] + b);
    OnlyDigitsOfConcat(['_'], b);
    assert OnlyDigits(['_']) == "";
    OnlyDigitsOfDigits(a);
    OnlyDigitsOfDigits(b);
  }

  lemma UnderscoreIsNumeral(a: string, b: string)
    requires a != "" && b != "" && AllDigits(a) && AllDigits(b)
    ensures IsNumeral(a + (['_'] + b))
  {
    var t := a + (['_'] + b);
    forall i | 0 <= i < |t| ensures if i == |a| then t[i] == '_' else IsDigit(t[i]) {
      if i > |a| {
        assert t[i] == b[i - |a| - 1];
      }
    }
  }

  /** Single underscores may stand between digits. */
  lemma UnderscoreIsSkipped(a: string, b: string)
    requires a != "" && b != "" && AllDigits(a) && AllDigits(b)
    ensures ParseBody(a + (['_'] + b)) == Some(Value(a + b))
  {
    UnderscoreIsNumeral(a, b);
    OnlyDigitsAround(a, b);
  }

  /** But not at an end or two together. */
  lemma MisplacedUnderscore(s: string, i: nat)
    requires i < |s| && s[i] == '_' && (i == 0 || i == |s| - 1 || s[i + 1] == '_')
    ensures ParseBody(s) == None
  {
  }

  /** A text with a character that no numeral has is no number. */
  lemma NoNumber(s: string, i: nat)
    requires i < |s| && !IsDigit(s[i]) && !IsSpace(s[i]) && s[i] !in "+-_"
    ensures ParseInt(s) == None
  {
    StripKeeps(s, s[i]);
  }
}
