/** Wall times: the SLURM spelling of a number of seconds, and reading it back. */
module Walltime {
  import opened Collections
  import opened Text

  /** Go's division and remainder truncate toward zero. */
  function Quot(a: int, b: nat): int
    requires b > 0
  {
    if a >= 0 then a / b else -(-a / b)
  }

  function Rem(a: int, b: nat): int
    requires b > 0
  {
    if a >= 0 then a % b else -(-a % b)
  }

  /** A 64-bit int after overflow. */
  function Wrap(n: int): int {
    (n + 0x8000_0000_0000_0000) % 0x1_0000_0000_0000_0000 - 0x8000_0000_0000_0000
  }

  function Clock(h: int, m: int, s: int): string { Join([Itoa(h), Itoa(m), Itoa(s)], ':') }

  datatype Fields = Fields(days: int, hours: int, minutes: int, seconds: int)

  function Divided(n: int): Fields {
    var day := Rem(n, 86400);
    var hour := Rem(day, 3600);
    Fields(Quot(n, 86400), Quot(day, 3600), Quot(hour, 60), Rem(hour, 60))
  }

  function Spell(f: Fields): string {
    if f.days > 0 then Itoa(f.days) + "-" + Clock(f.hours, f.minutes, f.seconds)
      else Clock(f.hours, f.minutes, f.seconds)
  }

  /** The spelling of n seconds. */
  function Spelled(n: int): string { Spell(Divided(n)) }

  /** A part of a clock: empty counts as missing. */
  function Part(part: string, missing: int): Option<int> { if part == "" then Some(missing) else Atoi(part) }

  /** HH:MM:SS read from the right, or plain seconds. */
  function ClockSeconds(val: string): Option<int> {
    var parts := Split(val, ':');
    if |parts| == 1 then Atoi(val) else
      match (if |parts| > 2 then Part(parts[|parts| - 3], 0) else Some(0),
             Part(parts[|parts| - 2], 0), Part(parts[|parts| - 1], -1))
      case (Some(h), Some(m), Some(s)) => Some(h * 3600 + m * 60 + s)
      case _ => None
  }

  function Sum(days: Option<int>, clock: Option<int>): int {
    if days.Some? && clock.Some? then Wrap(clock.value + days.value * 86400) else -1
  }

  /** What a wall time text means; -1 if it cannot be read. */
  function Seconds(val: string): int {
    var i := Index(val, '-');
    if i < 0 then Sum(Some(0), ClockSeconds(val)) else Sum(Atoi(val[..i]), ClockSeconds(val[i + 1..]))
  }

  // ----- The code ----------------------------------------------------------

  method SlurmSecsToWalltime(secStr: string) returns (text: string)
    ensures text == match Atoi(secStr) case Some(n) => Spelled(n) case None => "00:00:00"
  {
    var parsed := Atoi(secStr);
    if parsed.None? { return "00:00:00"; }
    var secs := parsed.value;
    var days := Quot(secs, 60 * 60 * 24);
    secs := Rem(secs, 60 * 60 * 24);
    var hours := Quot(secs, 60 * 60);
    secs := Rem(secs, 60 * 60);
    var minutes := Quot(secs, 60);
    secs := Rem(secs, 60);
    var clock := Join([Itoa(hours), Itoa(minutes), Itoa(secs)], ':');
    if days > 0 {
      return Itoa(days) + "-" + clock;
    }
    return clock;
  }

  method ParseWalltimeString(text: string) returns (r: int)
    ensures r == Seconds(text)
  {
    var days, val := 0, text;
    var i := Index(text, '-');
    if i >= 0 {
      var num := Atoi(text[..i]);
      if num.None? { return -1; }
      days, val := num.value, text[i + 1..];
    }
    var clock := ParseClock(val);
    if clock.None? { return -1; }
    var seconds := clock.value;
    seconds := seconds + days * 86400;
    return Wrap(seconds);
  }

  /** The part after the days. Seconds start at -1, so a text that ends in a colon lacks one second. */
  method ParseClock(val: string) returns (r: Option<int>)
    ensures r == ClockSeconds(val)
  {
    var hours, minutes, seconds := 0, 0, -1;
    var parts := Split(val, ':');
    if |parts| == 1 {
      return Atoi(val);
    }
    if |parts| > 2 {
      var num := Part(parts[|parts| - 3], hours);
      if num.None? { return None; }
      hours := num.value;
    }
    var num := Part(parts[|parts| - 2], minutes);
    if num.None? { return None; }
    minutes := num.value;
    num := Part(parts[|parts| - 1], seconds);
    if num.None? { return None; }
    seconds := num.value;
    return Some(seconds + hours * 3600 + minutes * 60);
  }

  // ----- Round trip --------------------------------------------------------

  lemma NumeralIs(n: int, c: char)
    requires n >= 0 && !IsDigit(c)
    ensures Free(Itoa(n), c) && Itoa(n) != ""
  {}

  lemma ClockReads(h: nat, m: nat, s: nat)
    requires h <= MAX_INT && m <= MAX_INT && s <= MAX_INT
    ensures ClockSeconds(Clock(h, m, s)) == Some(h * 3600 + m * 60 + s)
  {
    var parts := [Itoa(h), Itoa(m), Itoa(s)];
    NumeralIs(h, ':');
    NumeralIs(m, ':');
    NumeralIs(s, ':');
    SplitJoin(parts, ':');
    AtoiItoa(h);
    AtoiItoa(m);
    AtoiItoa(s);
  }

  lemma ClockHasNoSign(h: nat, m: nat, s: nat)
    ensures Free(Clock(h, m, s), '-')
  {
    NumeralIs(h, '-');
    NumeralIs(m, '-');
    NumeralIs(s, '-');
    ClockText(h, m, s);
  }

  lemma ClockFacts(h: nat, m: nat, s: nat) returns (clock: string)
    requires h <= MAX_INT && m <= MAX_INT && s <= MAX_INT
    ensures clock == Clock(h, m, s) && ClockSeconds(clock) == Some(h * 3600 + m * 60 + s) && Free(clock, '-')
  {
    clock := Clock(h, m, s);
    ClockReads(h, m, s);
    ClockHasNoSign(h, m, s);
  }

  lemma ClockText(h: int, m: int, s: int)
    ensures Clock(h, m, s) == Itoa(h) + [':'] + (Itoa(m) + [':'] + Itoa(s))
  {
    JoinThree(Itoa(h), Itoa(m), Itoa(s));
  }

  lemma JoinThree(a: string, b: string, c: string)
    ensures Join([a, b, c], ':') == a + [':'] + (b + [':'] + c)
  {
    assert [a, b, c][1..] == [b, c] && [b, c][1..] == [c];
    assert Join([c], ':') == c && Join([b, c], ':') == b + [':'] + c;
  }

  lemma InRange(n: int)
    requires MIN_INT <= n <= MAX_INT
    ensures Wrap(n) == n
  {}

  lemma DaysRead(d: nat, clock: string)
    requires d <= MAX_INT
    ensures Seconds(Itoa(d) + "-" + clock) == Sum(Some(d), ClockSeconds(clock))
  {
    NumeralIs(d, '-');
    IndexOfFirst(Itoa(d), '-', clock);
    AtoiItoa(d);
    var text := Itoa(d) + ['-'] + clock;
    assert text[..|Itoa(d)|] == Itoa(d) && text[|Itoa(d)| + 1..] == clock;
  }

  lemma NoDaysRead(clock: string)
    requires Free(clock, '-')
    ensures Seconds(clock) == Sum(Some(0), ClockSeconds(clock))
  {
    assert Index(clock, '-') == -1;
  }

  lemma FieldsOf(n: nat) returns (f: Fields)
    ensures Spelled(n) == Spell(f) && (f.days > 0 <==> n >= 86400)
    ensures 0 <= f.days <= n && 0 <= f.hours <= 23 && 0 <= f.minutes <= 59 && 0 <= f.seconds <= 59
    ensures f.hours * 3600 + f.minutes * 60 + f.seconds + f.days * 86400 == n
  {
    f := Divided(n);
  }

  lemma SumIs(days: int, seconds: int, n: int)
    requires MIN_INT <= n <= MAX_INT && seconds + days * 86400 == n
    ensures Sum(Some(days), Some(seconds)) == n
  {
    InRange(n);
  }

  lemma DaySpellingReads(f: Fields)
    requires 0 < f.days <= MAX_INT && 0 <= f.hours <= MAX_INT && 0 <= f.minutes <= MAX_INT && 0 <= f.seconds <= MAX_INT
    ensures Seconds(Spell(f)) == Sum(Some(f.days), Some(f.hours * 3600 + f.minutes * 60 + f.seconds))
  {
    hide Seconds, ClockSeconds;
    var clock := ClockFacts(f.hours, f.minutes, f.seconds);
    DaysRead(f.days, clock);
  }

  lemma ClockSpellingReads(h: nat, m: nat, s: nat) returns (clock: string)
    requires h <= MAX_INT && m <= MAX_INT && s <= MAX_INT
    ensures clock == Clock(h, m, s) && Seconds(clock) == Sum(Some(0), Some(h * 3600 + m * 60 + s))
  {
    hide Seconds, ClockSeconds;
    clock := ClockFacts(h, m, s);
    NoDaysRead(clock);
  }

  lemma DaysRoundTrip(n: nat)
    requires 86400 <= n <= MAX_INT
    ensures Seconds(Spelled(n)) == n
  {
    hide Seconds, ClockSeconds, Spelled, Spell, Sum;
    var f := FieldsOf(n);
    DaySpellingReads(f);
    SumIs(f.days, f.hours * 3600 + f.minutes * 60 + f.seconds, n);
  }

  lemma ClockRoundTrip(n: nat)
    requires n < 86400
    ensures Seconds(Spelled(n)) == n
  {
    hide Seconds, ClockSeconds, Spelled, Clock, Sum;
    var f := FieldsOf(n);
    var clock := ClockSpellingReads(f.hours, f.minutes, f.seconds);
    SumIs(0, f.hours * 3600 + f.minutes * 60 + f.seconds, n);
  }

  /** Every number of seconds from zero up is read back from its spelling, with days or without. */
  lemma NonNegativeRoundTrip(n: nat)
    requires n <= MAX_INT
    ensures Seconds(Spelled(n)) == n
  {
    if n >= 86400 { DaysRoundTrip(n); } else { ClockRoundTrip(n); }
  }

  /** The spelling: hours, minutes and seconds without padding, behind the days if there are any. */
  lemma SpelledText(days: nat, hours: nat, minutes: nat, seconds: nat)
    requires hours < 24 && minutes < 60 && seconds < 60
    ensures Spelled(days * 86400 + hours * 3600 + minutes * 60 + seconds) ==
      (if days > 0 then Itoa(days) + "-" else "") + (Itoa(hours) + ":" + (Itoa(minutes) + ":" + Itoa(seconds)))
  {
    hide Itoa, Join, Spell, Clock;
    var n := days * 86400 + hours * 3600 + minutes * 60 + seconds;
    FieldsAre(n, days, hours, minutes, seconds);
    SpellText(days, hours, minutes, seconds);
  }

  /** A negative number is spelled with the sign on every part, and its days are dropped. */
  lemma SpelledNegative(days: int, hours: int, minutes: int, seconds: int)
    requires days >= 0 && 0 <= hours < 24 && 0 <= minutes < 60 && 0 <= seconds < 60
    requires days + hours + minutes + seconds > 0
    ensures Spelled(-(days * 86400 + hours * 3600 + minutes * 60 + seconds)) ==
      Itoa(-hours) + ":" + (Itoa(-minutes) + ":" + Itoa(-seconds))
  {
    hide Itoa, Join, Clock;
    var n := days * 86400 + hours * 3600 + minutes * 60 + seconds;
    FieldsAre(n, days, hours, minutes, seconds);
    NegatedFields(n);
    ClockText(-hours, -minutes, -seconds);
  }

  /** Division truncates: the parts of -n are those of n, negated. */
  lemma NegatedFields(n: int)
    requires n >= 0
    ensures var f := Divided(n); Divided(-n) == Fields(-f.days, -f.hours, -f.minutes, -f.seconds)
  {}

  lemma FieldsAre(n: nat, days: nat, hours: nat, minutes: nat, seconds: nat)
    requires hours < 24 && minutes < 60 && seconds < 60
    requires n == days * 86400 + hours * 3600 + minutes * 60 + seconds
    ensures Divided(n) == Fields(days, hours, minutes, seconds)
  {
    var day := n % 86400;
    assert day == hours * 3600 + minutes * 60 + seconds && n / 86400 == days;
    assert day % 3600 == minutes * 60 + seconds && day / 3600 == hours;
  }

  lemma SpellText(days: nat, hours: nat, minutes: nat, seconds: nat)
    ensures Spell(Fields(days, hours, minutes, seconds)) ==
      (if days > 0 then Itoa(days) + "-" else "") + (Itoa(hours) + ":" + (Itoa(minutes) + ":" + Itoa(seconds)))
  {
    hide Itoa;
    ClockText(hours, minutes, seconds);
    var clock := Clock(hours, minutes, seconds);
    assert clock == Itoa(hours) + ":" + (Itoa(minutes) + ":" + Itoa(seconds));
    assert "" + clock == clock;
  }

  /** A number alone is seconds; two numbers are minutes and seconds, three or more count from the right; a missing
      number of minutes or hours is 0, and missing seconds are -1. */
  lemma ClockPartsRead(parts: seq<string>)
    requires |parts| >= 2 && forall i :: 0 <= i < |parts| ==> Free(parts[i], ':') && Free(parts[i], '-')
    ensures var n := |parts|;
      var h, m, s := if n > 2 then Read(parts[n - 3], 0) else Some(0), Read(parts[n - 2], 0), Read(parts[n - 1], -1);
      ClockSeconds(Join(parts, ':')) ==
        if h.Some? && m.Some? && s.Some? then Some(h.value * 3600 + m.value * 60 + s.value) else None
  {
    hide Atoi, Join, Split;
    SplitJoin(parts, ':');
    assert Split(Join(parts, ':'), ':') == parts;
    assert forall p, d :: Part(p, d) == Read(p, d);
  }

  /** The number a part stands for. */
  function Read(part: string, missing: int): Option<int> { if |part| == 0 then Some(missing) else Atoi(part) }

  lemma SecondsAlone(n: nat)
    requires n <= MAX_INT
    ensures Seconds(Itoa(n)) == n && ClockSeconds(Itoa(n)) == Some(n)
  {
    NumeralIs(n, '-');
    NumeralIs(n, ':');
    AtoiItoa(n);
    assert Join([Itoa(n)], ':') == Itoa(n);
    SplitJoin([Itoa(n)], ':');
    hide Itoa, ClockSeconds;
    NoDaysRead(Itoa(n));
    InRange(n);
  }

  /** Days that do not fit wrap around: the result is a 64-bit number, and the right one up to a multiple of 2^64. */
  lemma DaysWrapAround(d: nat, s: nat)
    requires d <= MAX_INT && s <= MAX_INT
    ensures var r := Seconds(Itoa(d) + "-" + Itoa(s));
      MIN_INT <= r <= MAX_INT && (r - (d * 86400 + s)) % 0x1_0000_0000_0000_0000 == 0
  {
    hide Itoa, Seconds, ClockSeconds;
    SecondsAlone(s);
    DaysRead(d, Itoa(s));
    WrapIsCongruent(s + d * 86400);
  }

  lemma WrapIsCongruent(n: int)
    ensures MIN_INT <= Wrap(n) <= MAX_INT && (Wrap(n) - n) % 0x1_0000_0000_0000_0000 == 0
  {
    var m := n + 0x8000_0000_0000_0000;
    assert m == m / 0x1_0000_0000_0000_0000 * 0x1_0000_0000_0000_0000 + m % 0x1_0000_0000_0000_0000;
    assert Wrap(n) - n == -(m / 0x1_0000_0000_0000_0000) * 0x1_0000_0000_0000_0000;
  }

  lemma MinutesAndSeconds(m: nat, s: nat)
    requires m <= MAX_INT && s <= MAX_INT && m * 60 + s <= MAX_INT
    ensures Seconds(Itoa(m) + ":" + Itoa(s)) == m * 60 + s
  {
    hide Itoa, Seconds, Index;
    var parts := [Itoa(m), Itoa(s)];
    NumeralIs(m, ':');
    NumeralIs(s, ':');
    NumeralIs(m, '-');
    NumeralIs(s, '-');
    AtoiItoa(m);
    AtoiItoa(s);
    ClockPartsRead(parts);
    JoinTwo(Itoa(m), Itoa(s));
    var text := Itoa(m) + ":" + Itoa(s);
    NoDaysRead(text);
    InRange(m * 60 + s);
  }

  lemma JoinTwo(a: string, b: string)
    ensures Join([a, b], ':') == a + ":" + b
  {
    assert [a, b][1..] == [b] && Join([b], ':') == b;
  }

  lemma NegativeFields(n: int)
    requires n < 0
    ensures var f := Divided(n);
      && f.days <= 0 && f.hours <= 0 && f.minutes <= 0 && f.seconds <= 0
      && (n % 86400 == 0 <==> f.hours + f.minutes + f.seconds == 0)
  {
    var a := -n;
    assert a % 86400 == 0 <==> n % 86400 == 0;
    var day := a % 86400;
    assert day == day / 3600 * 3600 + day % 3600 && day % 3600 == day % 3600 / 60 * 60 + day % 3600 % 60;
  }

  lemma NegativeClock(n: int) returns (h: int, m: int, s: int)
    requires n < 0
    ensures Spelled(n) == Clock(h, m, s)
    ensures h <= 0 && m <= 0 && s <= 0 && (n % 86400 == 0 <==> h + m + s == 0)
  {
    NegativeFields(n);
    var f := Divided(n);
    h, m, s := f.hours, f.minutes, f.seconds;
  }

  lemma ZeroReads()
    ensures Seconds(Clock(0, 0, 0)) == 0
  {
    hide Seconds, ClockSeconds;
    var _ := ClockSpellingReads(0, 0, 0);
    InRange(0);
  }

  lemma WholeDaysRead(n: int)
    requires n < 0 && n % 86400 == 0
    ensures Seconds(Spelled(n)) == 0
  {
    hide Seconds, ClockSeconds;
    var h, m, s := NegativeClock(n);
    assert h == 0 && m == 0 && s == 0;
    ZeroReads();
  }

  lemma PartDaysUnreadable(n: int)
    requires n < 0 && n % 86400 != 0
    ensures Seconds(Spelled(n)) == -1
  {
    hide Seconds, ClockSeconds;
    var h, m, s := NegativeClock(n);
    SignBeforeClock(h, m, s);
  }

  /** What a negative number becomes: whole days vanish, anything else cannot be read. */
  lemma NegativeReads(n: int)
    requires MIN_INT <= n < 0
    ensures Seconds(Spelled(n)) == if n % 86400 == 0 then 0 else -1
  {
    if n % 86400 == 0 { WholeDaysRead(n); } else { PartDaysUnreadable(n); }
  }

  /** The first minus sign of a clock follows a colon or nothing, so what stands before it is no number of days. */
  lemma SignBeforeClock(h: int, m: int, s: int)
    requires h <= 0 && m <= 0 && s <= 0 && h + m + s < 0
    ensures Seconds(Clock(h, m, s)) == -1
  {
    var text := Clock(h, m, s);
    var i := Index(text, '-');
    ClockText(h, m, s);
    if h < 0 {
      assert text[0] == '-' && i == 0;
      assert Atoi(text[..0]).None?;
    } else {
      var head := Itoa(0) + [':'];
      assert text[|Itoa(0)|] == ':';
      NumeralIs(0, '-');
      var j := |Itoa(0)| + 1 + (if m < 0 then 0 else |Itoa(0)| + 1);
      assert text[j] == '-';
      assert i > |Itoa(0)|;
      assert text[..i][|Itoa(0)|] == ':';
      ColonIsNoNumber(text[..i], |Itoa(0)|);
    }
  }

  lemma ColonIsNoNumber(t: string, k: nat)
    requires 0 < k < |t| && t[k] == ':'
    ensures Atoi(t).None?
  {
    assert !AllDigits(t);
    assert t[1..][k - 1] == ':' && !AllDigits(t[1..]);
  }

  /** The spelling is read back exactly for zero, positive numbers, and the marker -1. */
  lemma RoundTrip(n: int)
    requires MIN_INT <= n <= MAX_INT
    ensures Seconds(Spelled(n)) == n <==> n >= -1
  {
    hide Seconds, Spelled;
    if n >= 0 { NonNegativeRoundTrip(n); } else { NegativeReads(n); }
  }

  /** Print, then parse. */
  method PrintAndParse(n: int) returns (r: int)
    requires MIN_INT <= n <= MAX_INT
    ensures r == n <==> n >= -1
  {
    AtoiItoa(n);
    RoundTrip(n);
    var text := SlurmSecsToWalltime(Itoa(n));
    r := ParseWalltimeString(text);
  }
}
