/** The uptime limits the bot writes (bot/handlers/hotspot_flow_utils.py) and the two
    parsers that read them back (core/hotspot_manager.py, core/hotspot_expiry.py). */
module Uptime {

  import opened Basics
  import opened Decimal

  /** convert_uptime_value. */
  function ConvertUptimeValue(value: string, unit: string): string {
    match ParseInt(value)
    case None => ""
    case Some(num) =>
      if num <= 0 then ""
      else if unit == "hours" then Pad2(num) + ":00:00"
      else Print(num) + "d00:00:00"
  }

  // ---- _parse_uptime_seconds ------------------------------------------------

  /** The first run of digits that `unit` follows at once. */
  function SearchUnit(s: string, unit: char): Option<string>
    decreases |s|
  {
    if s == "" then None
    else
      var r := DigitRun(s);
      if r == 0 then SearchUnit(s[1..], unit)
      else if r < |s| && s[r] == unit then Some(s[..r])
      else SearchUnit(s[r..], unit)
  }

  function UnitValue(s: string, unit: char): nat {
    match SearchUnit(s, unit)
    case Some(digits) => if AllDigits(digits) then Value(digits) else 0
    case None => 0
  }

  function SplitColon(s: string): (parts: seq<string>)
    ensures |parts| >= 1
  {
    if s == "" then [""]
    else if s[0] == ':' then [""] + SplitColon(s[1..])
    else
      var rest := SplitColon(s[1..]);
      [[s[0]] + rest[0]] + rest[1..]
  }

  /** The colon forms, when no unit letter was found. */
  function ColonSeconds(parts: seq<string>, val: string): int {
    if |parts| == 3 then
      match (ParseInt(parts[0]), ParseInt(parts[1]), ParseInt(parts[2]))
      case (Some(h), Some(m), Some(s)) => h * 3600 + m * 60 + s
      case _ => 0
    else if |parts| == 2 then
      match (ParseInt(parts[0]), ParseInt(parts[1]))
      case (Some(m), Some(s)) => m * 60 + s
      case _ => 0
    else
      match ParseInt(val)
      case Some(n) => n
      case None => 0
  }

  predicate HasUnit(s: string) {
    || SearchUnit(s, 'd').Some? || SearchUnit(s, 'h').Some?
    || SearchUnit(s, 'm').Some? || SearchUnit(s, 's').Some?
  }

  function ParseUptimeSeconds(val: string): int {
    if val == "" then 0
    else if HasUnit(val) then
      UnitValue(val, 'd') * 86400 + UnitValue(val, 'h') * 3600 + UnitValue(val, 'm') * 60 + UnitValue(val, 's')
    else ColonSeconds(SplitColon(val), val)
  }

  // ---- _parse_uptime_to_seconds ----------------------------------------------

  /** The part of the pattern after the days: [HH:]MM:SS, as a prefix of `s`. */
  function ParseClock(s: string): Option<nat> {
    var r := DigitRun(s);
    if r == 0 || r == |s| || s[r] != ':' then None else AfterColon(Leading(s), s[r + 1..])
  }

  function AfterColon(first: nat, t: string): Option<nat> {
    var q := DigitRun(t);
    if q == 0 then None
    else if q < |t| && t[q] == ':' && DigitRun(t[q + 1..]) > 0 then
      Some(first * 3600 + Leading(t) * 60 + Leading(t[q + 1..]))
    else Some(first * 60 + Leading(t))
  }

  function ParseUptimeToSeconds(raw: string): nat {
    if raw == "" || raw == "0" || raw == "0s" then 0
    else
      var r := DigitRun(raw);
      if 0 < r < |raw| && raw[r] == 'd' then
        match ParseClock(raw[r + 1..])
        case Some(n) => Leading(raw) * 86400 + n
        case None => 0
      else
        match ParseClock(raw)
        case Some(n) => n
        case None => 0
  }

  // ---- how they read clock texts ---------------------------------------------

  predicate Numeral(s: string) { s != "" && AllDigits(s) }

  function Joined(a: string, b: string, c: string): string { a + ":" + (b + ":" + c) }

  function Clock(h: nat, m: nat, s: nat): string { Joined(Pad2(h), Pad2(m), Pad2(s)) }

  lemma {:induction false} SearchMissing(s: string, unit: char)
    requires unit !in s
    ensures SearchUnit(s, unit) == None
    decreases |s|
  {
    if s != "" {
      var r := DigitRun(s);
      SearchMissing(s[if r == 0 then 1 else r..], unit);
    }
  }

  lemma {:induction false} SplitOne(p: string)
    requires ':' !in p
    ensures SplitColon(p) == [p]
  {
    if p != "" {
      SplitOne(p[1..]);
      assert [p[0]] + p[1..] == p;
    }
  }

  lemma {:induction false} SplitPrefix(p: string, rest: string)
    requires ':' !in p
    ensures SplitColon(p + ":" + rest) == [p] + SplitColon(rest)
  {
    var s := p + ":" + rest;
    if p == "" {
      assert s[1..] == rest;
    } else {
      assert s[1..] == p[1..] + ":" + rest;
      SplitPrefix(p[1..], rest);
      assert [p[0]] + p[1..] == p;
    }
  }

  lemma NumeralLacks(s: string, c: char)
    requires AllDigits(s) && !IsDigit(c)
    ensures c !in s
  {
  }

  lemma JoinedLacks(a: string, b: string, c: string, unit: char)
    requires AllDigits(a) && AllDigits(b) && AllDigits(c) && !IsDigit(unit) && unit != ':'
    ensures unit !in Joined(a, b, c)
  {
    NumeralLacks(a, unit);
    NumeralLacks(b, unit);
    NumeralLacks(c, unit);
  }

  lemma JoinedSplits(a: string, b: string, c: string)
    requires AllDigits(a) && AllDigits(b) && AllDigits(c)
    ensures SplitColon(Joined(a, b, c)) == [a, b, c]
  {
    NumeralLacks(a, ':');
    NumeralLacks(b, ':');
    NumeralLacks(c, ':');
    assert Joined(a, b, c) == a + ":" + (b + ":" + c);
    SplitPrefix(a, b + ":" + c);
    SplitPrefix(b, c);
    SplitOne(c);
  }

  lemma JoinedHasNoUnit(a: string, b: string, c: string)
    requires AllDigits(a) && AllDigits(b) && AllDigits(c)
    ensures !HasUnit(Joined(a, b, c))
  {
    forall u | u == 'd' || u == 'h' || u == 'm' || u == 's' ensures SearchUnit(Joined(a, b, c), u) == None {
      JoinedLacks(a, b, c, u);
      SearchMissing(Joined(a, b, c), u);
    }
  }

  lemma ColonsAreRead(a: string, b: string, c: string)
    requires Numeral(a) && Numeral(b) && Numeral(c)
    ensures ColonSeconds([a, b, c], Joined(a, b, c)) == Value(a) * 3600 + Value(b) * 60 + Value(c)
  {
    ParsePlain(a);
    ParsePlain(b);
    ParsePlain(c);
  }

  /** Without days, the first parser reads a clock text in full... */
  lemma FirstReadsClock(a: string, b: string, c: string)
    requires Numeral(a) && Numeral(b) && Numeral(c)
    ensures ParseUptimeSeconds(Joined(a, b, c)) == Value(a) * 3600 + Value(b) * 60 + Value(c)
  {
    JoinedHasNoUnit(a, b, c);
    JoinedSplits(a, b, c);
    ColonsAreRead(a, b, c);
  }

  lemma RunBefore(digits: string, c: char, rest: string)
    requires AllDigits(digits) && !IsDigit(c)
    ensures var s := digits + ([c] + rest);
            && DigitRun(s) == |digits| < |s| && s[|digits|] == c
            && s[..|digits|] == digits && Leading(s) == Value(digits) && s[|digits| + 1..] == rest
  {
    DigitRunOf(digits, [c] + rest);
    assert (digits + ([c] + rest))[|digits| + 1..] == rest;
  }

  lemma RunAlone(digits: string)
    requires AllDigits(digits)
    ensures DigitRun(digits) == |digits| && Leading(digits) == Value(digits)
  {
    DigitRunOf(digits, "");
    assert digits + "" == digits;
    assert digits[..|digits|] == digits;
  }

  lemma AfterColonForm(first: nat, t: string, c: string)
    requires 0 < DigitRun(t) < |t| && t[DigitRun(t)] == ':' && t[DigitRun(t) + 1..] == c
    requires DigitRun(c) > 0
    ensures AfterColon(first, t) == Some(first * 3600 + Leading(t) * 60 + Leading(c))
  {
  }

  lemma AfterColonReads(first: nat, b: string, c: string)
    requires Numeral(b) && Numeral(c)
    ensures AfterColon(first, b + ([':'] + c)) == Some(first * 3600 + Value(b) * 60 + Value(c))
  {
    RunBefore(b, ':', c);
    RunAlone(c);
    AfterColonForm(first, b + ([':'] + c), c);
  }

  lemma ClockReads(a: string, b: string, c: string)
    requires Numeral(a) && Numeral(b) && Numeral(c)
    ensures ParseClock(Joined(a, b, c)) == Some(Value(a) * 3600 + Value(b) * 60 + Value(c))
  {
    var t := b + ([':'] + c);
    assert Joined(a, b, c) == a + ([':'] + t);
    RunBefore(a, ':', t);
    AfterColonReads(Value(a), b, c);
  }

  /** ... and so does the second. */
  lemma SecondReadsClock(a: string, b: string, c: string)
    requires Numeral(a) && Numeral(b) && Numeral(c)
    ensures ParseUptimeToSeconds(Joined(a, b, c)) == Value(a) * 3600 + Value(b) * 60 + Value(c)
  {
    assert Joined(a, b, c) == a + ([':'] + (b + ":" + c));
    RunBefore(a, ':', b + ":" + c);
    ClockReads(a, b, c);
    assert |Joined(a, b, c)| > 2;
  }

  lemma ClockValues(h: nat, m: nat, s: nat)
    ensures Value(Pad2(h)) == h && Value(Pad2(m)) == m && Value(Pad2(s)) == s
  {
    Pad2ThenValue(h);
    Pad2ThenValue(m);
    Pad2ThenValue(s);
  }

  lemma FirstDropsClock(p: string, a: string, b: string, c: string)
    requires Numeral(p) && Numeral(a) && Numeral(b) && Numeral(c)
    ensures ParseUptimeSeconds(p + ("d" + Joined(a, b, c))) == Value(p) * 86400
  {
    var k := Joined(a, b, c);
    var t := p + ("d" + k);
    RunBefore(p, 'd', k);
    assert SearchUnit(t, 'd') == Some(p);
    forall u | u == 'h' || u == 'm' || u == 's' ensures SearchUnit(t, u) == None {
      NumeralLacks(p, u);
      JoinedLacks(a, b, c, u);
      SearchMissing(t, u);
    }
  }

  lemma DaysForm(t: string, k: string)
    requires 0 < DigitRun(t) < |t| && t[DigitRun(t)] == 'd' && t[DigitRun(t) + 1..] == k
    requires |t| > 2 && ParseClock(k).Some?
    ensures ParseUptimeToSeconds(t) == Leading(t) * 86400 + ParseClock(k).value
  {
  }

  lemma SecondAddsClock(p: string, a: string, b: string, c: string)
    requires Numeral(p) && Numeral(a) && Numeral(b) && Numeral(c)
    ensures ParseUptimeToSeconds(p + ("d" + Joined(a, b, c))) ==
              Value(p) * 86400 + Value(a) * 3600 + Value(b) * 60 + Value(c)
  {
    var k := Joined(a, b, c);
    RunBefore(p, 'd', k);
    ClockReads(a, b, c);
    DaysForm(p + ("d" + k), k);
  }

  /** Both parsers read a clock text without days in full. */
  lemma PlainClockAgrees(h: nat, m: nat, s: nat)
    ensures ParseUptimeToSeconds(Clock(h, m, s)) == ParseUptimeSeconds(Clock(h, m, s)) == h * 3600 + m * 60 + s
  {
    ClockValues(h, m, s);
    FirstReadsClock(Pad2(h), Pad2(m), Pad2(s));
    SecondReadsClock(Pad2(h), Pad2(m), Pad2(s));
  }

  /** With days, the first parser drops the clock part and the second adds it. */
  lemma DaysAndClock(d: nat, h: nat, m: nat, s: nat)
    ensures var t := Print(d) + ("d" + Clock(h, m, s));
            && ParseUptimeSeconds(t) == d * 86400
            && ParseUptimeToSeconds(t) == d * 86400 + h * 3600 + m * 60 + s
  {
    PrintThenValue(d);
    ClockValues(h, m, s);
    FirstDropsClock(Print(d), Pad2(h), Pad2(m), Pad2(s));
    SecondAddsClock(Print(d), Pad2(h), Pad2(m), Pad2(s));
  }

  /** So on what RouterOS prints with days the parsers agree exactly when the clock
      part is zero. */
  lemma ParsersAgreeIff(d: nat, h: nat, m: nat, s: nat)
    ensures var t := Print(d) + ("d" + Clock(h, m, s));
            ParseUptimeSeconds(t) == ParseUptimeToSeconds(t) <==> h == 0 && m == 0 && s == 0
  {
    DaysAndClock(d, h, m, s);
  }

  lemma WrittenForms(n: nat)
    ensures Pad2(n) + ":00:00" == Clock(n, 0, 0)
    ensures Print(n) + "d00:00:00" == Print(n) + ("d" + Clock(0, 0, 0))
  {
    assert Pad2(0) == "00";
  }

  /** Everything the bot writes is read back by both parsers as it was meant. */
  lemma RoundTrip(value: string, n: nat)
    requires ParseInt(value) == Some(n) && n >= 1
    ensures var hours := ConvertUptimeValue(value, "hours");
            ParseUptimeSeconds(hours) == ParseUptimeToSeconds(hours) == 3600 * n
    ensures forall unit :: unit != "hours" ==>
              var days := ConvertUptimeValue(value, unit);
              ParseUptimeSeconds(days) == ParseUptimeToSeconds(days) == 86400 * n
  {
    WrittenForms(n);
    PlainClockAgrees(n, 0, 0);
    DaysAndClock(n, 0, 0, 0);
  }

  /** The texts themselves, for a numeral between blanks and perhaps with a plus sign. */
  lemma WrittenTexts(left: string, n: nat, right: string)
    requires AllBlank(left) && AllBlank(right) && n >= 1
    ensures ConvertUptimeValue(left + (Print(n) + right), "hours") == Pad2(n) + ":00:00"
    ensures ConvertUptimeValue(left + (Print(n) + right), "days") == Print(n) + "d00:00:00"
    ensures ConvertUptimeValue(left + ((['+'] + Print(n)) + right), "hours") == Pad2(n) + ":00:00"
    ensures ConvertUptimeValue(left + ((['-'] + Print(n)) + right), "hours") == ""
  {
    SignedNumerals(left, Print(n), right);
    PrintThenValue(n);
  }

  /** Input that is no positive number is written as no limit, read as 0 by both. */
  lemma RejectedInput(value: string, unit: string)
    requires ParseInt(value).None? || ParseInt(value).value <= 0
    ensures var t := ConvertUptimeValue(value, unit);
            t == "" && ParseUptimeSeconds(t) == ParseUptimeToSeconds(t) == 0
  {
  }

  // ---- texts with unit letters ------------------------------------------------

  predicate IsUnit(c: char) { c == 'd' || c == 'h' || c == 'm' || c == 's' }

  /** A text such as 1d2h3m4s, in which any parts may be missing. */
  datatype Part = Part(amount: nat, unit: char)

  function UnitText(parts: seq<Part>): string {
    if parts == [] then "" else Print(parts[0].amount) + ([parts[0].unit] + UnitText(parts[1..]))
  }

  /** The amount of the first part with that unit. */
  function Amount(parts: seq<Part>, unit: char): Option<nat> {
    if parts == [] then None
    else if parts[0].unit == unit then Some(parts[0].amount)
    else Amount(parts[1..], unit)
  }

  function Seconds(parts: seq<Part>, unit: char, each: nat): nat {
    match Amount(parts, unit)
    case Some(n) => n * each
    case None => 0
  }

  lemma {:induction false} UnitIsFound(parts: seq<Part>, unit: char)
    requires IsUnit(unit) && forall i :: 0 <= i < |parts| ==> IsUnit(parts[i].unit)
    ensures SearchUnit(UnitText(parts), unit) ==
              match Amount(parts, unit) case Some(n) => Some(Print(n)) case None => None
  {
    if parts != [] {
      var (p, c, rest) := (Print(parts[0].amount), parts[0].unit, UnitText(parts[1..]));
      UnitIsFound(parts[1..], unit);
      RunBefore(p, c, rest);
      if c != unit {
        AfterOtherUnit(p, c, rest, unit);
      }
    }
  }

  lemma AfterOtherUnit(p: string, c: char, rest: string, unit: char)
    requires Numeral(p) && !IsDigit(c) && c != unit
    ensures SearchUnit(p + ([c] + rest), unit) == SearchUnit(rest, unit)
  {
    var s := p + ([c] + rest);
    RunBefore(p, c, rest);
    assert s[|p|..] == [c] + rest;
    assert ([c] + rest)[1..] == rest;
  }

  lemma UnitIsWorth(parts: seq<Part>, unit: char, each: nat)
    requires IsUnit(unit) && forall i :: 0 <= i < |parts| ==> IsUnit(parts[i].unit)
    ensures UnitValue(UnitText(parts), unit) * each == Seconds(parts, unit, each)
    ensures SearchUnit(UnitText(parts), unit).Some? <==> Amount(parts, unit).Some?
  {
    UnitIsFound(parts, unit);
    if Amount(parts, unit).Some? {
      PrintThenValue(Amount(parts, unit).value);
    }
  }

  lemma FirstReadsUnits(parts: seq<Part>)
    requires parts != [] && forall i :: 0 <= i < |parts| ==> IsUnit(parts[i].unit)
    ensures ParseUptimeSeconds(UnitText(parts)) ==
              Seconds(parts, 'd', 86400) + Seconds(parts, 'h', 3600) + Seconds(parts, 'm', 60) + Seconds(parts, 's', 1)
  {
    UnitIsWorth(parts, 'd', 86400);
    UnitIsWorth(parts, 'h', 3600);
    UnitIsWorth(parts, 'm', 60);
    UnitIsWorth(parts, 's', 1);
    assert Amount(parts, parts[0].unit).Some?;
    UnitIsWorth(parts, parts[0].unit, 1);
  }

  lemma {:induction false} UnitTextLacksColon(parts: seq<Part>)
    requires forall i :: 0 <= i < |parts| ==> IsUnit(parts[i].unit)
    ensures ':' !in UnitText(parts)
  {
    if parts != [] {
      NumeralLacks(Print(parts[0].amount), ':');
      UnitTextLacksColon(parts[1..]);
    }
  }

  /** Without a colon the second parser reads nothing at all. */
  lemma SecondNeedsColon(s: string)
    requires ':' !in s
    ensures ParseUptimeToSeconds(s) == 0
  {
  }

  /** On texts with unit letters the first parser adds up the parts and the second
      always gives 0. */
  lemma UnitTexts(parts: seq<Part>)
    requires parts != [] && forall i :: 0 <= i < |parts| ==> IsUnit(parts[i].unit)
    ensures ParseUptimeSeconds(UnitText(parts)) ==
              Seconds(parts, 'd', 86400) + Seconds(parts, 'h', 3600) + Seconds(parts, 'm', 60) + Seconds(parts, 's', 1)
    ensures ParseUptimeToSeconds(UnitText(parts)) == 0
  {
    FirstReadsUnits(parts);
    UnitTextLacksColon(parts);
    SecondNeedsColon(UnitText(parts));
  }

  // ---- the short forms -----------------------------------------------------------

  lemma ShortHasNoUnit(a: string, b: string)
    requires AllDigits(a) && AllDigits(b)
    ensures !HasUnit(a + ":" + b)
  {
    forall u | IsUnit(u) ensures SearchUnit(a + ":" + b, u) == None {
      NumeralLacks(a, u);
      NumeralLacks(b, u);
      SearchMissing(a + ":" + b, u);
    }
  }

  lemma ShortSplits(a: string, b: string)
    requires AllDigits(a) && AllDigits(b)
    ensures SplitColon(a + ":" + b) == [a, b]
  {
    NumeralLacks(a, ':');
    NumeralLacks(b, ':');
    SplitPrefix(a, b);
    SplitOne(b);
  }

  lemma PairIsRead(a: string, b: string, val: string)
    requires Numeral(a) && Numeral(b)
    ensures ColonSeconds([a, b], val) == Value(a) * 60 + Value(b)
  {
    ParsePlain(a);
    ParsePlain(b);
  }

  lemma FirstReadsShort(a: string, b: string)
    requires Numeral(a) && Numeral(b)
    ensures ParseUptimeSeconds(a + ":" + b) == Value(a) * 60 + Value(b)
  {
    ShortHasNoUnit(a, b);
    ShortSplits(a, b);
    PairIsRead(a, b, a + ":" + b);
  }

  lemma SecondReadsShort(a: string, b: string)
    requires Numeral(a) && Numeral(b)
    ensures ParseUptimeToSeconds(a + ([':'] + b)) == Value(a) * 60 + Value(b)
  {
    RunBefore(a, ':', b);
    RunAlone(b);
    assert AfterColon(Value(a), b) == Some(Value(a) * 60 + Value(b));
    assert |a + ([':'] + b)| > 2;
  }

  /** MM:SS is read alike by both parsers. */
  lemma ShortClockAgrees(m: nat, s: nat)
    ensures var t := Pad2(m) + ":" + Pad2(s);
            ParseUptimeSeconds(t) == ParseUptimeToSeconds(t) == m * 60 + s
  {
    ClockValues(0, m, s);
    FirstReadsShort(Pad2(m), Pad2(s));
    SecondReadsShort(Pad2(m), Pad2(s));
    assert Pad2(m) + ":" + Pad2(s) == Pad2(m) + ([':'] + Pad2(s));
  }

  /** A bare number is seconds for the first parser and nothing for the second. */
  lemma BareNumber(n: nat)
    ensures ParseUptimeSeconds(Print(n)) == n && ParseUptimeToSeconds(Print(n)) == 0
  {
    var t := Print(n);
    PrintThenValue(n);
    ParsePlain(t);
    NumeralLacks(t, ':');
    SplitOne(t);
    SecondNeedsColon(t);
    forall u | IsUnit(u) ensures SearchUnit(t, u) == None {
      NumeralLacks(t, u);
      SearchMissing(t, u);
    }
  }

  lemma {:induction false} PartsCover(s: string, i: nat) returns (j: nat)
    requires i < |s| && s[i] != ':'
    ensures j < |SplitColon(s)| && s[i] in SplitColon(s)[j]
  {
    if s[0] == ':' {
      j := PartsCover(s[1..], i - 1);
      j := j + 1;
    } else if i == 0 {
      j := 0;
      assert SplitColon(s)[0][0] == s[0];
    } else {
      j := PartsCover(s[1..], i - 1);
    }
  }

  /** Without unit letters, a text with a character that no numeral has, or with more than
      two colons, is 0 for the first parser. */
  lemma GarbageIsNothing(s: string, i: nat)
    requires i < |s| && !IsDigit(s[i]) && !IsSpace(s[i]) && s[i] !in "+-_" && !HasUnit(s)
    requires s[i] != ':' || |SplitColon(s)| > 3
    ensures ParseUptimeSeconds(s) == 0
  {
    NoNumber(s, i);
    if s[i] != ':' {
      var j := PartsCover(s, i);
      GarbagePart(SplitColon(s), s, j, s[i]);
    }
  }

  lemma GarbagePart(parts: seq<string>, val: string, j: nat, c: char)
    requires j < |parts| && c in parts[j] && !IsDigit(c) && !IsSpace(c) && c !in "+-_" && ParseInt(val) == None
    ensures ColonSeconds(parts, val) == 0
  {
    var k :| 0 <= k < |parts[j]| && parts[j][k] == c;
    NoNumber(parts[j], k);
  }
}
