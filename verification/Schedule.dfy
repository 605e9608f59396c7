/**
 Schedule rules: the Gen1 device's `HHMM-DD-R-action`, the helper package's `HHMM-days-state`,
 and times of day as `HH:MM`, each with its printer and its parser.
 */
module Schedule {
  import opened Wrappers

  datatype RuleError =
    | InvalidFormat | InvalidTime | InvalidHour | InvalidMinute | InvalidDays | InvalidRelay | InvalidAction

  // ------------------------------------------------------------------- numbers as strings

  type Radix = b: nat | b == 10 || b == 16 witness 10

  const DECIMAL: Radix := 10
  const HEX: Radix := 16

  function DigitValue(c: char): Option<nat> {
    if '0' <= c <= '9' then Some(c as int - '0' as int)
    else if 'a' <= c <= 'z' then Some(c as int - 'a' as int + 10)
    else if 'A' <= c <= 'Z' then Some(c as int - 'A' as int + 10)
    else None
  }

  const DIGITS := "0123456789"
  const CAPITALS := "ABCDEFGHIJKLMNOPQRSTUVWXYZ"
  const SMALLS := "abcdefghijklmnopqrstuvwxyz"

  lemma DecimalDigit(i: nat)
    requires i < 10
    ensures DIGITS[i] as int == '0' as int + i && DigitValue(DIGITS[i]) == Some(i)
  {
  }

  lemma Letter(i: nat)
    requires i < 26
    ensures CAPITALS[i] as int == 'A' as int + i && DigitValue(CAPITALS[i]) == Some(10 + i)
    ensures SMALLS[i] as int == 'a' as int + i && DigitValue(SMALLS[i]) == Some(10 + i)
  {
  }

  /** Digits count from zero and letters from ten, in either case; nothing else has a value. */
  lemma DigitValues(c: char, v: nat)
    ensures DigitValue(c) == Some(v) <==>
            (v < 10 && c == DIGITS[v]) || (10 <= v < 36 && c in [CAPITALS[v - 10], SMALLS[v - 10]])
  {
    if v < 10 {
      DecimalDigit(v);
    } else if v < 36 {
      Letter(v - 10);
    }
  }

  function DigitChar(d: nat): (c: char)
    requires d < 16
    ensures DigitValue(c) == Some(d)
  {
    if d < 10 then ('0' as int + d) as char else ('A' as int + (d - 10)) as char
  }

  /** All but the last digit. */
  function Front(n: nat, base: Radix): (q: nat)
    ensures n >= base ==> q < n
  {
    if base == DECIMAL then n / 10 else n / 16
  }

  function LastDigit(n: nat, base: Radix): (d: nat)
    ensures d < base
  {
    if base == DECIMAL then n % 10 else n % 16
  }

  /** One more digit. */
  function Shift(n: nat, d: nat, base: Radix): nat {
    if base == DECIMAL then n * 10 + d else n * 16 + d
  }

  function Digits(n: nat, base: Radix): (s: string)
    ensures s != ""
  {
    (if n < base then "" else Digits(Front(n, base), base)) + [DigitChar(LastDigit(n, base))]
  }

  /** At least two characters, the sign among them, padded with zeros. */
  function TwoWide(n: int64, base: Radix): string
  {
    if n < 0 then "-" + Digits(-(n as int), base)
    else if n < base then "0" + Digits(n, base)
    else Digits(n, base)
  }

  function ValueOf(s: string, base: Radix): Option<nat> {
    if s == "" then Some(0)
    else
      var v, d := ValueOf(s[..|s| - 1], base), DigitValue(s[|s| - 1]);
      if v.None? || d.None? || d.value >= base then None else Some(Shift(v.value, d.value, base))
  }

  /** An optional sign and at least one digit; a number outside -limit..limit - 1 is an error. */
  function ParseNumber(s: string, base: Radix, limit: nat): Result<int, ()> {
    if s == "" then Err(())
    else
      var digits := if s[0] == '-' || s[0] == '+' then s[1..] else s;
      var v := ValueOf(digits, base);
      if digits == "" || v.None? then Err(())
      else if s[0] == '-' then (if v.value > limit then Err(()) else Ok(-(v.value as int)))
      else if v.value >= limit then Err(())
      else Ok(v.value)
  }

  const LIMIT_64: nat := TWO_63
  const LIMIT_32: nat := 0x8000_0000

  function Atoi(s: string): Result<int, ()> {
    ParseNumber(s, DECIMAL, LIMIT_64)
  }

  /** The parts between separators; always at least one. */
  function Split(s: string, sep: char): (parts: seq<string>)
    ensures |parts| >= 1
  {
    if s == "" then [""]
    else
      var rest := Split(s[1..], sep);
      if s[0] == sep then [""] + rest else [[s[0]] + rest[0]] + rest[1..]
  }

  // ------------------------------------------------------------------------- Gen1 devices

  datatype DeviceRule = DeviceRule(hour: int, minute: int, days: int, relay: int, action: string)

  function BuildScheduleRule(hour: int64, minute: int64, days: int64, action: string): string {
    TwoWide(hour, DECIMAL) + TwoWide(minute, DECIMAL) + "-" + TwoWide(days, HEX) + "-0-" + action
  }

  function ParseScheduleRule(rule: string): Result<DeviceRule, RuleError> {
    var parts := Split(rule, '-');
    if |parts| != 4 then Err(InvalidFormat)
    else if |parts[0]| != 4 then Err(InvalidTime)
    else
      var hour, minute := Atoi(parts[0][..2]), Atoi(parts[0][2..]);
      var days, relay := ParseNumber(parts[1], HEX, LIMIT_32), Atoi(parts[2]);
      if hour.Err? then Err(InvalidHour)
      else if minute.Err? then Err(InvalidMinute)
      else if days.Err? then Err(InvalidDays)
      else if relay.Err? then Err(InvalidRelay)
      else Ok(DeviceRule(hour.value, minute.value, days.value, relay.value, parts[3]))
  }

  // -------------------------------------------------------------------- the helper package

  datatype Time = Time(hour: int64, minute: int64)

  datatype Action = Set(on: bool) | Toggle | Brightness(level: int)

  datatype Entry = Entry(name: string, id: int, enabled: bool, time: Time, days: seq<int64>, action: Action)

  function TimeString(t: Time): string {
    TwoWide(t.hour, DECIMAL) + ":" + TwoWide(t.minute, DECIMAL)
  }

  function ParseScheduleTime(s: string): Result<Time, RuleError> {
    var parts := Split(s, ':');
    if |parts| != 2 then Err(InvalidFormat)
    else
      var hour, minute := Atoi(parts[0]), Atoi(parts[1]);
      if hour.Err? || !(0 <= hour.value <= 23) then Err(InvalidHour)
      else if minute.Err? || !(0 <= minute.value <= 59) then Err(InvalidMinute)
      else Ok(Time(hour.value, minute.value))
  }

  /** A day as one byte counted from '0', wrapping round. */
  function DayChar(day: int64): (c: char)
    ensures 0 <= day <= 6 ==> c as int == '0' as int + day
    ensures (c as int - '0' as int - day) % 0x100 == 0 && c as int < 0x100
    ensures 0 <= c as int - '0' as int <= 6 && !(0 <= day <= 6) ==> c as int != '0' as int + day
  {
    (('0' as int + day) % 0x100) as char
  }

  function DayString(days: seq<int64>): string {
    if days == [] then "" else DayString(days[..|days| - 1]) + [DayChar(days[|days| - 1])]
  }

  function ParseDays(s: string): Result<seq<int64>, RuleError> {
    if s == "" then Ok([])
    else
      var init, day := ParseDays(s[..|s| - 1]), s[|s| - 1] as int - '0' as int;
      if init.Err? || !(0 <= day <= 6) then Err(InvalidDays) else Ok(init.value + [day])
  }

  function StateString(a: Action): string {
    if a == Set(true) then "on" else if a == Toggle then "toggle" else "off"
  }

  function ToGen1Rule(e: Entry): string {
    TwoWide(e.time.hour, DECIMAL) + TwoWide(e.time.minute, DECIMAL)
    + "-" + DayString(e.days) + "-" + StateString(e.action)
  }

  function ParseGen1Rule(rule: string): Result<Entry, RuleError> {
    var parts := Split(rule, '-');
    if |parts| != 3 then Err(InvalidFormat)
    else if |parts[0]| != 4 then Err(InvalidTime)
    else
      var hour, minute, days := Atoi(parts[0][..2]), Atoi(parts[0][2..]), ParseDays(parts[1]);
      if hour.Err? then Err(InvalidHour)
      else if minute.Err? then Err(InvalidMinute)
      else if days.Err? then Err(InvalidDays)
      else
        var t := Time(hour.value, minute.value);
        if parts[2] == "on" then Ok(Entry("", 0, true, t, days.value, Set(true)))
        else if parts[2] == "off" then Ok(Entry("", 0, true, t, days.value, Set(false)))
        else if parts[2] == "toggle" then Ok(Entry("", 0, true, t, days.value, Toggle))
        else Err(InvalidAction)
  }

  method PrintDays(days: seq<int64>) returns (s: string)
    ensures s == DayString(days)
  {
    s := "";
    for i := 0 to |days|
      invariant s == DayString(days[..i])
    {
      assert days[..i + 1][..i] == days[..i];
      s := s + [DayChar(days[i])];
    }
    assert days[..|days|] == days;
  }

  lemma {:induction false} ParseDaysStops(s: string, i: nat)
    requires i <= |s| && ParseDays(s[..i]).Err?
    ensures ParseDays(s).Err?
    decreases |s| - i
  {
    if i < |s| {
      assert s[..i + 1][..i] == s[..i];
      ParseDaysStops(s, i + 1);
    } else {
      assert s[..i] == s;
    }
  }

  method ReadDays(s: string) returns (days: Result<seq<int64>, RuleError>)
    ensures days == ParseDays(s)
  {
    var found: seq<int64> := [];
    for i := 0 to |s|
      invariant ParseDays(s[..i]) == Ok(found)
    {
      assert s[..i + 1][..i] == s[..i];
      var day := s[i] as int - '0' as int;
      if day < 0 || day > 6 {
        ParseDaysStops(s, i + 1);
        assert ParseDays(s) == Err(InvalidDays);
        return Err(InvalidDays);
      }
      found := found + [day];
    }
    assert s[..|s|] == s;
    return Ok(found);
  }

  // ------------------------------------------------------------------ what numbers promise

  lemma ValueOfLast(s: string, d: nat, base: Radix)
    requires d < base
    ensures ValueOf(s + [DigitChar(d)], base) ==
            if ValueOf(s, base).None? then None else Some(Shift(ValueOf(s, base).value, d, base))
  {
    assert (s + [DigitChar(d)])[..|s|] == s;
  }

  lemma FrontAndLast(n: nat, base: Radix)
    ensures Shift(Front(n, base), LastDigit(n, base), base) == n
    ensures n < base ==> LastDigit(n, base) == n
  {
  }

  lemma {:induction false} DigitsReadBack(n: nat, base: Radix)
    ensures ValueOf(Digits(n, base), base) == Some(n)
  {
    FrontAndLast(n, base);
    var front, last := Front(n, base), LastDigit(n, base);
    if n < base {
      assert Digits(n, base) == "" + [DigitChar(last)];
      ValueOfLast("", last, base);
    } else {
      DigitsReadBack(front, base);
      assert Digits(n, base) == Digits(front, base) + [DigitChar(last)];
      ValueOfLast(Digits(front, base), last, base);
    }
  }

  lemma {:induction false} DigitsAreDigits(n: nat, base: Radix)
    ensures forall c <- Digits(n, base) :: DigitValue(c).Some?
  {
    if n >= base {
      DigitsAreDigits(Front(n, base), base);
    }
  }

  /** One character below the base, two below its square. */
  lemma DigitsWidth(n: nat, base: Radix)
    ensures |Digits(n, base)| == 1 <==> n < base
    ensures |Digits(n, base)| <= 2 <==> n < (if base == DECIMAL then 100 else 256)
  {
    if n >= base {
      assert Digits(n, base) == Digits(Front(n, base), base) + [DigitChar(LastDigit(n, base))];
      if Front(n, base) >= base {
        var front := Front(n, base);
        assert Digits(front, base) == Digits(Front(front, base), base) + [DigitChar(LastDigit(front, base))];
      }
    }
  }

  /** Only a negative number is printed with a dash, and two characters suffice exactly below
      the square of the base. */
  lemma PrintedWidth(n: int64, base: Radix)
    ensures ('-' in TwoWide(n, base)) <==> n < 0
    ensures ':' !in TwoWide(n, base)
    ensures |TwoWide(n, base)| >= 2
    ensures n >= 0 ==> (|TwoWide(n, base)| == 2 <==> n < (if base == DECIMAL then 100 else 256))
  {
    var m := if n < 0 then -(n as int) else n;
    DigitsAreDigits(m, base);
    DigitsWidth(m, base);
  }

  /** Printed numbers read back within the limit and are refused beyond it. */
  lemma PrintedNumber(n: int64, base: Radix, limit: nat)
    ensures ParseNumber(TwoWide(n, base), base, limit) ==
            if -(limit as int) <= n < limit then Ok(n) else Err(())
  {
    var s, m := TwoWide(n, base), if n < 0 then -(n as int) else n;
    var digits := Digits(m, base);
    DigitsReadBack(m, base);
    DigitsAreDigits(m, base);
    if n < 0 {
      assert s[1..] == digits;
    } else if n < base {
      PaddedValue(digits, base);
      assert s == "0" + digits && s[0] == '0';
    } else {
      assert s == digits && s[0] in digits;
    }
  }

  lemma {:induction false} PaddedValue(s: string, base: Radix)
    ensures ValueOf("0" + s, base) == ValueOf(s, base)
  {
    if s == "" {
      assert ("0" + s)[..0] == "";
    } else {
      var n := |s| - 1;
      assert ("0" + s)[..n + 1] == "0" + s[..n];
      PaddedValue(s[..n], base);
    }
  }

  // ------------------------------------------------------------------- what splits promise

  function Count(s: string, sep: char): nat {
    if s == "" then 0 else (if s[0] == sep then 1 else 0) + Count(s[1..], sep)
  }

  lemma {:induction false} CountConcat(a: string, b: string, sep: char)
    ensures Count(a + b, sep) == Count(a, sep) + Count(b, sep)
  {
    if a == "" {
      assert a + b == b;
    } else {
      assert (a + b)[1..] == a[1..] + b;
      CountConcat(a[1..], b, sep);
    }
  }

  lemma {:induction false} CountZero(s: string, sep: char)
    ensures Count(s, sep) == 0 <==> sep !in s
  {
    if s != "" {
      CountZero(s[1..], sep);
      assert s == [s[0]] + s[1..];
    }
  }

  /** One part more than separators, and no separator within a part. */
  lemma {:induction false} SplitCounts(s: string, sep: char)
    ensures |Split(s, sep)| == 1 + Count(s, sep)
    ensures forall p <- Split(s, sep) :: sep !in p
  {
    if s != "" {
      SplitCounts(s[1..], sep);
      var rest := Split(s[1..], sep);
      assert forall p <- rest[1..] :: p in rest;
      assert rest[0] in rest;
    }
  }

  lemma {:induction false} SplitAtFirst(a: string, sep: char, b: string)
    requires sep !in a
    ensures Split(a + [sep] + b, sep) == [a] + Split(b, sep)
  {
    var s := a + [sep] + b;
    if a == "" {
      assert s[0] == sep && s[1..] == b;
    } else {
      assert s[0] == a[0] && a == [a[0]] + a[1..];
      assert s[1..] == a[1..] + [sep] + b;
      SplitAtFirst(a[1..], sep, b);
    }
  }

  lemma {:induction false} SplitWhole(a: string, sep: char)
    requires sep !in a
    ensures Split(a, sep) == [a]
  {
    if a != "" {
      SplitWhole(a[1..], sep);
      assert a == [a[0]] + a[1..];
    }
  }

  // --------------------------------------------------------------------------- round trips

  lemma SplitTwo(a: string, b: string, sep: char)
    ensures sep !in a && sep !in b ==> Split(a + [sep] + b, sep) == [a, b]
    ensures |Split(a + [sep] + b, sep)| >= 2
    ensures |Split(a + [sep] + b, sep)| == 2 <==> sep !in a && sep !in b
  {
    SplitCounts(a + [sep] + b, sep);
    CountConcat(a + [sep], b, sep);
    CountConcat(a, [sep], sep);
    CountZero(a, sep);
    CountZero(b, sep);
    if sep !in a && sep !in b {
      SplitAtFirst(a, sep, b);
      SplitWhole(b, sep);
    }
  }

  lemma SplitThree(a: string, b: string, c: string, sep: char)
    ensures sep !in a && sep !in b && sep !in c ==> Split(a + [sep] + b + [sep] + c, sep) == [a, b, c]
    ensures |Split(a + [sep] + b + [sep] + c, sep)| >= 3
    ensures |Split(a + [sep] + b + [sep] + c, sep)| == 3 <==> sep !in a && sep !in b && sep !in c
  {
    var s, t := a + [sep] + b + [sep] + c, b + [sep] + c;
    assert s == (a + [sep]) + t;
    SplitCounts(s, sep);
    SplitCounts(t, sep);
    CountConcat(a + [sep], t, sep);
    CountConcat(a, [sep], sep);
    CountZero(a, sep);
    SplitTwo(b, c, sep);
    if sep !in a {
      SplitAtFirst(a, sep, t);
    }
  }

  lemma SplitFour(a: string, b: string, c: string, d: string, sep: char)
    ensures sep !in a && sep !in b && sep !in c && sep !in d ==>
              Split(a + [sep] + b + [sep] + c + [sep] + d, sep) == [a, b, c, d]
    ensures |Split(a + [sep] + b + [sep] + c + [sep] + d, sep)| == 4 <==>
            sep !in a && sep !in b && sep !in c && sep !in d
  {
    var s, t := a + [sep] + b + [sep] + c + [sep] + d, b + [sep] + c + [sep] + d;
    assert s == (a + [sep]) + t;
    SplitCounts(s, sep);
    SplitCounts(t, sep);
    CountConcat(a + [sep], t, sep);
    CountConcat(a, [sep], sep);
    CountZero(a, sep);
    SplitThree(b, c, d, sep);
    if sep !in a {
      SplitAtFirst(a, sep, t);
    }
  }

  /** The four characters of a time, when its parts are printed two wide. */
  lemma PrintedTime(hour: int64, minute: int64)
    ensures
      var t := TwoWide(hour, DECIMAL) + TwoWide(minute, DECIMAL);
      && ('-' in t <==> hour < 0 || minute < 0)
      && (hour >= 0 && minute >= 0 ==> (|t| == 4 <==> hour < 100 && minute < 100))
      && (0 <= hour < 100 && 0 <= minute < 100 ==> Atoi(t[..2]) == Ok(hour) && Atoi(t[2..]) == Ok(minute))
  {
    PrintedWidth(hour, DECIMAL);
    PrintedWidth(minute, DECIMAL);
    PrintedNumber(hour, DECIMAL, LIMIT_64);
    PrintedNumber(minute, DECIMAL, LIMIT_64);
    var h, m := TwoWide(hour, DECIMAL), TwoWide(minute, DECIMAL);
    if |h| == 2 {
      assert (h + m)[..2] == h && (h + m)[2..] == m;
    }
  }

  lemma ZeroParses()
    ensures Atoi("0") == Ok(0)
  {
    assert "0"[..0] == "";
    assert ValueOf("0", DECIMAL) == Some(0);
  }

  /** A built rule has four parts exactly when no number is negative and the action has no dash. */
  lemma BuiltRuleSplits(hour: int64, minute: int64, days: int64, action: string)
    ensures
      var time, mask := TwoWide(hour, DECIMAL) + TwoWide(minute, DECIMAL), TwoWide(days, HEX);
      var parts := Split(BuildScheduleRule(hour, minute, days, action), '-');
      && (|parts| == 4 <==> hour >= 0 && minute >= 0 && days >= 0 && '-' !in action)
      && (|parts| == 4 ==> parts == [time, mask, "0", action])
  {
    var time, mask := TwoWide(hour, DECIMAL) + TwoWide(minute, DECIMAL), TwoWide(days, HEX);
    PrintedTime(hour, minute);
    PrintedWidth(days, HEX);
    SplitFour(time, mask, "0", action, '-');
    assert BuildScheduleRule(hour, minute, days, action) == time + ['-'] + mask + ['-'] + "0" + ['-'] + action;
  }

  predicate Printable(hour: int64, minute: int64, days: int64, action: string) {
    0 <= hour < 100 && 0 <= minute < 100 && 0 <= days < LIMIT_32 && '-' !in action
  }

  /** A built rule parses back to what it was built from if and only if hour and minute have two
      digits, the day mask fits, and the action has no dash; otherwise it is refused, never
      misread. */
  lemma BuiltRuleParses(hour: int64, minute: int64, days: int64, action: string)
    ensures ParseScheduleRule(BuildScheduleRule(hour, minute, days, action)).Ok? <==>
            Printable(hour, minute, days, action)
    ensures Printable(hour, minute, days, action) ==>
              ParseScheduleRule(BuildScheduleRule(hour, minute, days, action)) ==
              Ok(DeviceRule(hour, minute, days, 0, action))
  {
    PrintedTime(hour, minute);
    PrintedNumber(days, HEX, LIMIT_32);
    BuiltRuleSplits(hour, minute, days, action);
    ZeroParses();
  }

  /** A printed time parses back if and only if it is a time of day; otherwise it is refused. */
  lemma PrintedTimeParses(t: Time)
    ensures ParseScheduleTime(TimeString(t)).Ok? <==> 0 <= t.hour <= 23 && 0 <= t.minute <= 59
    ensures 0 <= t.hour <= 23 && 0 <= t.minute <= 59 ==> ParseScheduleTime(TimeString(t)) == Ok(t)
  {
    PrintedWidth(t.hour, DECIMAL);
    PrintedWidth(t.minute, DECIMAL);
    PrintedNumber(t.hour, DECIMAL, LIMIT_64);
    PrintedNumber(t.minute, DECIMAL, LIMIT_64);
    SplitTwo(TwoWide(t.hour, DECIMAL), TwoWide(t.minute, DECIMAL), ':');
  }

  /** Printing an accepted time of day in canonical form keeps it. */
  lemma TimeNormalises(s: string)
    requires ParseScheduleTime(s).Ok?
    ensures ParseScheduleTime(TimeString(ParseScheduleTime(s).value)) == ParseScheduleTime(s)
  {
    PrintedTimeParses(ParseScheduleTime(s).value);
  }

  predicate WeekdaysOnly(days: seq<int64>) {
    forall i | 0 <= i < |days| :: 0 <= days[i] <= 6
  }

  lemma WeekdaysLast(days: seq<int64>, day: int64)
    ensures WeekdaysOnly(days + [day]) <==> WeekdaysOnly(days) && 0 <= day <= 6
  {
    var all := days + [day];
    assert all[|days|] == day;
    assert forall i | 0 <= i < |days| :: all[i] == days[i];
  }

  lemma {:induction false} DaysReadBack(days: seq<int64>)
    ensures WeekdaysOnly(days) ==> '-' !in DayString(days)
    ensures WeekdaysOnly(days) <==> ParseDays(DayString(days)) == Ok(days)
  {
    if days != [] {
      var n := |days| - 1;
      DaysReadBack(days[..n]);
      OneDayMore(days[..n], days[n]);
      assert days == days[..n] + [days[n]];
    }
  }

  lemma OneDayMore(days: seq<int64>, day: int64)
    requires WeekdaysOnly(days) ==> '-' !in DayString(days)
    requires WeekdaysOnly(days) <==> ParseDays(DayString(days)) == Ok(days)
    ensures WeekdaysOnly(days + [day]) ==> '-' !in DayString(days + [day])
    ensures WeekdaysOnly(days + [day]) <==> ParseDays(DayString(days + [day])) == Ok(days + [day])
  {
    var s := DayString(days);
    DayStringOneMore(days, day);
    ParseOneMore(s, DayChar(day));
    WeekdaysLast(days, day);
    if ParseDays(s).Ok? {
      SameLast(ParseDays(s).value, DayChar(day) as int - '0' as int, days, day);
    }
  }

  lemma DayStringOneMore(days: seq<int64>, day: int64)
    ensures DayString(days + [day]) == DayString(days) + [DayChar(day)]
  {
    assert (days + [day])[..|days|] == days;
  }

  lemma ParseOneMore(s: string, c: char)
    ensures
      var day := c as int - '0' as int;
      ParseDays(s + [c]) ==
      if ParseDays(s).Err? || !(0 <= day <= 6) then Err(InvalidDays) else Ok(ParseDays(s).value + [day])
  {
    assert (s + [c])[..|s|] == s;
  }

  lemma SameLast(a: seq<int>, x: int, b: seq<int>, y: int)
    ensures a + [x] == b + [y] <==> a == b && x == y
  {
    if a + [x] == b + [y] {
      assert (a + [x])[..|a|] == a && (b + [y])[..|b|] == b;
      assert (a + [x])[|a|] == x && (b + [y])[|b|] == y;
    }
  }

  predicate Describable(e: Entry) {
    && 0 <= e.time.hour < 100 && 0 <= e.time.minute < 100
    && WeekdaysOnly(e.days) && !e.action.Brightness?
  }

  /** A rule gives back the time, the day list and the action if and only if hour and minute
      have two digits, every day is a weekday and the action sets or toggles. */
  lemma RuleKeepsEntry(e: Entry)
    ensures
      var r := ParseGen1Rule(ToGen1Rule(e));
      Describable(e) <==> r.Ok? && r.value.time == e.time && r.value.days == e.days && r.value.action == e.action
  {
    var t := TwoWide(e.time.hour, DECIMAL) + TwoWide(e.time.minute, DECIMAL);
    var d, a := DayString(e.days), StateString(e.action);
    PrintedTime(e.time.hour, e.time.minute);
    DaysReadBack(e.days);
    SplitThree(t, d, a, '-');
    assert ToGen1Rule(e) == t + ['-'] + d + ['-'] + a;
  }

  // ------------------------------------------------------------------------ normalisation

  lemma OneCharacter(c: char)
    ensures ValueOf([c], DECIMAL).Some? ==> ValueOf([c], DECIMAL).value < 10
  {
    assert [c][..0] == "";
  }

  lemma TwoCharacters(s: string)
    requires |s| == 2 && '-' !in s && Atoi(s).Ok?
    ensures 0 <= Atoi(s).value < 100
  {
    if s[0] == '+' {
      assert s[1..] == [s[1]];
      OneCharacter(s[1]);
      assert ValueOf(s[1..], DECIMAL).value < 100;
    } else {
      assert s[..1] == [s[0]];
      OneCharacter(s[0]);
      assert ValueOf(s, DECIMAL).value < 100;
    }
  }

  /** Whatever is accepted is rebuilt to a rule that parses to the same values, save that the
      relay index is lost: nothing changes if and only if it was zero. */
  lemma RuleNormalises(rule: string)
    requires ParseScheduleRule(rule).Ok?
    ensures
      var r := ParseScheduleRule(rule).value;
      && Printable(r.hour, r.minute, r.days, r.action)
      && ParseScheduleRule(BuildScheduleRule(r.hour, r.minute, r.days, r.action)) == Ok(r.(relay := 0))
  {
    var parts := Split(rule, '-');
    SplitCounts(rule, '-');
    assert parts[0] in parts && parts[1] in parts && parts[3] in parts;
    TwoCharacters(parts[0][..2]);
    TwoCharacters(parts[0][2..]);
    var r := ParseScheduleRule(rule).value;
    assert 0 <= r.days < LIMIT_32 by {
      assert parts[1] != "" && parts[1][0] in parts[1];
    }
    BuiltRuleParses(r.hour, r.minute, r.days, r.action);
  }

  /** A rule for another relay than the first is accepted, so rebuilding it loses the relay. */
  lemma RelayOneIsRead(hour: int64, minute: int64, days: int64, action: string)
    requires Printable(hour, minute, days, action)
    ensures
      var rule := TwoWide(hour, DECIMAL) + TwoWide(minute, DECIMAL) + "-" + TwoWide(days, HEX) + "-1-" + action;
      ParseScheduleRule(rule) == Ok(DeviceRule(hour, minute, days, 1, action))
  {
    var time, mask := TwoWide(hour, DECIMAL) + TwoWide(minute, DECIMAL), TwoWide(days, HEX);
    PrintedTime(hour, minute);
    PrintedWidth(days, HEX);
    PrintedNumber(days, HEX, LIMIT_32);
    SplitFour(time, mask, "1", action, '-');
    assert time + "-" + mask + "-1-" + action == time + ['-'] + mask + ['-'] + "1" + ['-'] + action;
  }

  /** A parsed entry is unnamed, enabled, and switches or toggles. */
  lemma ParsedDefaults(rule: string)
    requires ParseGen1Rule(rule).Ok?
    ensures
      var e := ParseGen1Rule(rule).value;
      e.name == "" && e.id == 0 && e.enabled && !e.action.Brightness? && WeekdaysOnly(e.days)
  {
    ParsedDays(Split(rule, '-')[1]);
  }

  lemma {:induction false} ParsedDays(s: string)
    ensures ParseDays(s).Ok? ==> WeekdaysOnly(ParseDays(s).value)
  {
    if s != "" {
      ParsedDays(s[..|s| - 1]);
    }
  }

  /** An entry that sets the brightness comes back as one that switches off. */
  lemma BrightnessBecomesOff(e: Entry)
    requires 0 <= e.time.hour < 100 && 0 <= e.time.minute < 100 && WeekdaysOnly(e.days) && e.action.Brightness?
    ensures ParseGen1Rule(ToGen1Rule(e)) == Ok(Entry("", 0, true, e.time, e.days, Set(false)))
  {
    var time := TwoWide(e.time.hour, DECIMAL) + TwoWide(e.time.minute, DECIMAL);
    PrintedTime(e.time.hour, e.time.minute);
    DaysReadBack(e.days);
    SplitThree(time, DayString(e.days), "off", '-');
    assert ToGen1Rule(e) == time + ['-'] + DayString(e.days) + ['-'] + "off";
  }

  /** The format of rules and times. */
  lemma RuleFormats()
    ensures BuildScheduleRule(22, 30, 0x3E, "off") == "2230-3E-0-off"
    ensures BuildScheduleRule(8, 0, 0x7F, "on") == "0800-7F-0-on"
    ensures TimeString(Time(9, 5)) == "09:05"
    ensures ToGen1Rule(Entry("", 0, true, Time(6, 30), [1, 2, 3, 4, 5], Set(true))) == "0630-12345-on"
  {
    BuiltFormats();
    PrintedFormats();
  }

  lemma BuiltFormats()
    ensures BuildScheduleRule(22, 30, 0x3E, "off") == "2230-3E-0-off"
    ensures BuildScheduleRule(8, 0, 0x7F, "on") == "0800-7F-0-on"
  {
    TwoDigits();
  }

  lemma PrintedFormats()
    ensures TimeString(Time(9, 5)) == "09:05"
    ensures ToGen1Rule(Entry("", 0, true, Time(6, 30), [1, 2, 3, 4, 5], Set(true))) == "0630-12345-on"
  {
    TwoDigits();
    WeekdayString();
  }

  lemma TwoDigits()
    ensures TwoWide(22, DECIMAL) == "22" && TwoWide(30, DECIMAL) == "30" && TwoWide(8, DECIMAL) == "08"
    ensures TwoWide(0, DECIMAL) == "00" && TwoWide(9, DECIMAL) == "09" && TwoWide(5, DECIMAL) == "05"
    ensures TwoWide(6, DECIMAL) == "06" && TwoWide(0x3E, HEX) == "3E" && TwoWide(0x7F, HEX) == "7F"
  {
    assert Digits(2, DECIMAL) == "2" && Digits(3, DECIMAL) == "3" && Digits(3, HEX) == "3" && Digits(7, HEX) == "7";
  }

  lemma WeekdayString()
    ensures DayString([1, 2, 3, 4, 5]) == "12345"
  {
    assert DayString([]) == "";
    assert [1][..0] == [] && DayString([1]) == "1";
    assert [1, 2][..1] == [1] && DayString([1, 2]) == "12";
    assert [1, 2, 3][..2] == [1, 2] && DayString([1, 2, 3]) == "123";
    assert [1, 2, 3, 4][..3] == [1, 2, 3] && DayString([1, 2, 3, 4]) == "1234";
    assert [1, 2, 3, 4, 5][..4] == [1, 2, 3, 4];
  }
}
