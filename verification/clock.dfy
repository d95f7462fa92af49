/** Clock utilities of the Tamil day table: parsing "H" / "H:M" clock strings,
    formatting minute counts as zero-padded 24-hour and 12-hour labels, and
    the weekday shift for times before 06:00. Every time is an integer number
    of minutes; the original works with fractional hours, and `floor(hours)`
    is `t / 60` here. */
module Clock {
  import opened Wrappers

  /** The two halves of the Tamil day: pakal (day, 06:00-17:59) and iravu (night). */
  datatype Period = Day | Night

  /** Day exactly when the 24-hour clock hour lies in 6..17. */
  function PeriodOfHour(hour: int): Period {
    if 6 <= hour < 18 then Day else Night
  }

  /** The Tamil words the original prints for the two periods. */
  function PeriodLabel(p: Period): string {
    match p
    case Day => "\U{0BAA}\U{0B95}\U{0BB2}\U{0BCD}"
    case Night => "\U{0B87}\U{0BB0}\U{0BB5}\U{0BC1}"
  }

  // ---------------------------------------------------------------------
  // Decimal digits

  predicate IsDigit(c: char) {
    '0' <= c <= '9'
  }

  predicate AllDigits(s: string) {
    forall k :: 0 <= k < |s| ==> IsDigit(s[k])
  }

  function DigitChar(d: nat): (c: char)
    requires d < 10
    ensures IsDigit(c) && c as int - '0' as int == d
  {
    (d + '0' as int) as char
  }

  /** The value of a string of decimal digits, most significant first. */
  function DigitsValue(s: string): nat
    requires AllDigits(s)
    decreases |s|
  {
    if |s| == 0 then 0
    else 10 * DigitsValue(s[..|s| - 1]) + (s[|s| - 1] as int - '0' as int)
  }

  /** `String(n)` for a non-negative integer: its shortest decimal spelling. */
  function Decimal(n: nat): (s: string)
    ensures AllDigits(s) && DigitsValue(s) == n
    ensures 1 <= |s|
    ensures n < 10 <==> |s| == 1
    ensures 10 <= n < 100 ==> |s| == 2
    decreases n
  {
    if n < 10 then [DigitChar(n)]
    else
      var s := Decimal(n / 10) + [DigitChar(n % 10)];
      assert s[..|s| - 1] == Decimal(n / 10);
      s
  }

  /** A leading zero does not change the value of a digit string. */
  lemma {:induction false} LeadingZero(s: string)
    requires AllDigits(s)
    ensures AllDigits("0" + s) && DigitsValue("0" + s) == DigitsValue(s)
    decreases |s|
  {
    if |s| > 0 {
      var z := "0" + s;
      assert z[..|z| - 1] == "0" + s[..|s| - 1];
      LeadingZero(s[..|s| - 1]);
    }
  }

  /** `s.padStart(2, '0')`. */
  function PadStart2(s: string): string {
    if |s| >= 2 then s else seq(2 - |s|, _ => '0') + s
  }

  /** `String(n).padStart(2, 0)`. */
  function Pad2(n: nat): (s: string)
    requires n < 100
    ensures |s| == 2 && AllDigits(s) && DigitsValue(s) == n
  {
    var d := Decimal(n);
    if |d| == 1 then
      LeadingZero(d);
      assert PadStart2(d) == "0" + d;
      PadStart2(d)
    else PadStart2(d)
  }

  // ---------------------------------------------------------------------
  // String.prototype.split on a single character

  /** `s.split(sep)`: the maximal separator-free pieces, empty ones included. */
  function Split(s: string, sep: char): (parts: seq<string>)
    ensures 1 <= |parts|
    ensures forall k :: 0 <= k < |parts| ==> sep !in parts[k]
    decreases |s|
  {
    if |s| == 0 then [""]
    else
      var rest := Split(s[1..], sep);
      if s[0] == sep then [""] + rest
      else [[s[0]] + rest[0]] + rest[1..]
  }

  /** `parts.join(sep)`. */
  function Join(parts: seq<string>, sep: char): string
    requires 1 <= |parts|
    decreases |parts|
  {
    if |parts| == 1 then parts[0] else parts[0] + [sep] + Join(parts[1..], sep)
  }

  /** Splitting loses nothing: joining the pieces restores the string. */
  lemma {:induction false} JoinSplit(s: string, sep: char)
    ensures Join(Split(s, sep), sep) == s
    decreases |s|
  {
    if |s| > 0 {
      var rest := Split(s[1..], sep);
      JoinSplit(s[1..], sep);
      if s[0] == sep {
        assert ([""] + rest)[1..] == rest;
      } else {
        var parts := [[s[0]] + rest[0]] + rest[1..];
        if |rest| == 1 {
          assert parts == [[s[0]] + rest[0]];
        } else {
          assert parts[1..] == rest[1..];
          assert Join(rest, sep) == rest[0] + [sep] + Join(rest[1..], sep);
        }
      }
    }
  }

  /** A separator-free prefix followed by the separator is the first piece. */
  lemma {:induction false} SplitAfterPrefix(a: string, sep: char, b: string)
    requires sep !in a
    ensures Split(a + [sep] + b, sep) == [a] + Split(b, sep)
    decreases |a|
  {
    var s := a + [sep] + b;
    if |a| == 0 {
      assert s[1..] == b;
    } else {
      assert s[1..] == a[1..] + [sep] + b;
      SplitAfterPrefix(a[1..], sep, b);
      assert [a[0]] + a[1..] == a;
    }
  }

  /** A separator-free string is a single piece. */
  lemma {:induction false} SplitWhole(a: string, sep: char)
    requires sep !in a
    ensures Split(a, sep) == [a]
    decreases |a|
  {
    if |a| > 0 {
      SplitWhole(a[1..], sep);
      assert [a[0]] + a[1..] == a;
    }
  }

  // ---------------------------------------------------------------------
  // Parsing

  /** `Number(s)` for the strings the tables hold: a run of decimal digits
      (the empty string is 0, as in JavaScript); anything else is `None`
      (NaN, or a syntax such as a sign or a fraction this model does not
      read). */
  function Number(s: string): Option<nat> {
    if AllDigits(s) then Some(DigitsValue(s)) else None
  }

  /** `timeToDecimal`, in minutes: "H" or "H:M" is `60*H + M`; the minute
      part defaults to 0 and any text after a second ':' is ignored. */
  function TimeToMinutes(s: string): (r: Option<int>)
    ensures var parts := Split(s, ':');
      r.Some? <==> AllDigits(parts[0]) && (|parts| >= 2 ==> AllDigits(parts[1]))
    ensures r.Some? ==> r.value >= 0
  {
    var parts := Split(s, ':');
    var h := Number(parts[0]);
    var m := if |parts| >= 2 then Number(parts[1]) else Some(0);
    if h.Some? && m.Some? then Some(60 * h.value + m.value) else None
  }

  /** Hour-only strings parse to whole hours, and an unparsable hour field
      makes the whole time unparsable. */
  lemma HourOnly(s: string)
    requires ':' !in s
    ensures AllDigits(s) ==> TimeToMinutes(s) == Some(60 * DigitsValue(s))
    ensures !AllDigits(s) ==> TimeToMinutes(s) == None
  {
    SplitWhole(s, ':');
  }

  /** The zero-padded "HH:MM" text of an hour and minute field. */
  function ClockText(hour: nat, minute: nat): (s: string)
    requires hour < 100 && minute < 100
    ensures |s| == 5 && s[2] == ':'
    ensures AllDigits(s[..2]) && DigitsValue(s[..2]) == hour
    ensures AllDigits(s[3..]) && DigitsValue(s[3..]) == minute
  {
    var s := Pad2(hour) + ":" + Pad2(minute);
    assert s[..2] == Pad2(hour) && s[3..] == Pad2(minute);
    s
  }

  /** "H:M" whose two fields read as the numbers `h` and `m` parses to `60*h + m`. */
  lemma HourMinute(a: string, b: string, h: nat, m: nat)
    requires Number(a) == Some(h) && Number(b) == Some(m)
    ensures TimeToMinutes(a + [':'] + b) == Some(60 * h + m)
  {
    assert ':' !in a by { assert forall k :: 0 <= k < |a| ==> IsDigit(a[k]); }
    assert ':' !in b by { assert forall k :: 0 <= k < |b| ==> IsDigit(b[k]); }
    SplitAfterPrefix(a, ':', b);
    SplitWhole(b, ':');
    assert Split(a + [':'] + b, ':') == [a, b];
  }

  /** Parsing a clock text gives back its hour and minute. */
  lemma ClockTextParses(hour: nat, minute: nat)
    requires hour < 100 && minute < 100
    ensures TimeToMinutes(ClockText(hour, minute)) == Some(60 * hour + minute)
  {
    var a, b := Pad2(hour), Pad2(minute);
    assert ClockText(hour, minute) == a + [':'] + b;
    HourMinute(a, b, hour, minute);
  }

  // ---------------------------------------------------------------------
  // Formatting

  /** `minutesTo24HourTimeFormat`: the hour of the day and the minute of
      the hour, each as two digits. */
  function Format24(t: nat): (s: string)
    ensures |s| == 5 && s[2] == ':'
    ensures AllDigits(s[..2]) && DigitsValue(s[..2]) == (t / 60) % 24
    ensures AllDigits(s[3..]) && DigitsValue(s[3..]) == t % 60
  {
    ClockText((t / 60) % 24, t % 60)
  }

  lemma MinuteOfDay(t: nat)
    ensures 60 * ((t / 60) % 24) + t % 60 == t % 1440
  {
    var q, r := t / 60, t % 60;
    var a, b := q / 24, q % 24;
    assert t == 60 * q + r;
    assert q == 24 * a + b;
    DayRemainder(t, a, 60 * b + r);
  }

  lemma DayRemainder(t: int, a: int, m: int)
    requires 0 <= m < 1440 && t == 1440 * a + m
    ensures t % 1440 == m
  {
  }

  /** Parsing a 24-hour label back, as the table loop does, yields the
      minute of the day. */
  lemma Format24RoundTrip(t: nat)
    ensures TimeToMinutes(Format24(t)) == Some(t % 1440)
  {
    ClockTextParses((t / 60) % 24, t % 60);
    MinuteOfDay(t);
  }

  /** A 12-hour label: the period word, the hour 1..12 and the minute. */
  datatype Clock12 = Clock12(period: Period, hour: nat, minute: nat)

  /** `minutesTo12HourTimeFormat`, with the period as an enum. */
  function Format12(t: nat): (c: Clock12)
    ensures 1 <= c.hour <= 12 && c.minute < 60
    ensures c.hour % 12 == ((t / 60) % 24) % 12
    ensures c.minute == t % 60
    ensures c.period == Day <==> 6 <= (t / 60) % 24 < 18
  {
    var hour24 := (t / 60) % 24;
    Clock12(PeriodOfHour(hour24), if hour24 % 12 == 0 then 12 else hour24 % 12, t % 60)
  }

  /** The text the original builds: "<period> HH:MM". */
  function Label12(c: Clock12): (s: string)
    requires c.hour < 100 && c.minute < 100
    ensures var n := |PeriodLabel(c.period)|;
      && |s| == n + 6
      && s[..n] == PeriodLabel(c.period)
      && s[n] == ' ' && s[n + 3] == ':'
      && AllDigits(s[n + 1..n + 3]) && DigitsValue(s[n + 1..n + 3]) == c.hour
      && AllDigits(s[n + 4..]) && DigitsValue(s[n + 4..]) == c.minute
    ensures TimeToMinutes(s[|PeriodLabel(c.period)| + 1..]) == Some(60 * c.hour + c.minute)
  {
    var p := PeriodLabel(c.period);
    var text := ClockText(c.hour, c.minute);
    ClockTextParses(c.hour, c.minute);
    SpacedParts(p, text);
    p + " " + text
  }

  /** The two parts of "<a> <b>" can be read back by position, and so can
      the two fields of a clock text `b`. */
  lemma SpacedParts(a: string, b: string)
    ensures |a + " " + b| == |a| + 1 + |b|
    ensures (a + " " + b)[..|a|] == a
    ensures (a + " " + b)[|a|] == ' '
    ensures (a + " " + b)[|a| + 1..] == b
    ensures |b| == 5 ==> (a + " " + b)[|a| + 1..|a| + 3] == b[..2] && (a + " " + b)[|a| + 4..] == b[3..]
  {
  }

  /** Reads the 24-hour clock hour back from a period and a 12-hour hour:
      each period shows every hour 1..12 exactly once. */
  function Hour24(p: Period, hour12: nat): (h: nat)
    requires 1 <= hour12 <= 12
    ensures h < 24 && h % 12 == hour12 % 12
    ensures PeriodOfHour(h) == p
  {
    match p
    case Day => if hour12 < 6 then hour12 + 12 else hour12
    case Night => if hour12 == 12 then 0 else if hour12 < 6 then hour12 else hour12 + 12
  }

  /** The 12-hour label loses nothing within a day: period, hour and minute
      determine the minute of the day. */
  lemma {:induction false} Format12RoundTrip(t: nat)
    ensures var c := Format12(t); 60 * Hour24(c.period, c.hour) + c.minute == t % 1440
  {
    var c := Format12(t);
    var hour24 := (t / 60) % 24;
    assert Hour24(c.period, c.hour) == hour24;
    MinuteOfDay(t);
  }

  /** Two minute counts with the same 12-hour label fall on the same minute of the day. */
  lemma Format12Injective(t1: nat, t2: nat)
    requires Format12(t1) == Format12(t2)
    ensures t1 % 1440 == t2 % 1440
  {
    Format12RoundTrip(t1);
    Format12RoundTrip(t2);
  }

  // ---------------------------------------------------------------------
  // Weekday of the Tamil day

  /** `getCorrespondingTamilDay`, as a weekday index: before 06:00 the time
      still belongs to the previous weekday, and an index that drops below 0
      becomes 6 (Saturday). */
  function TamilDayIndex(dayIndex: int, t: int): (r: int)
    ensures t / 60 >= 6 && dayIndex >= 0 ==> r == dayIndex
    ensures 0 <= dayIndex <= 6 ==> 0 <= r <= 6
    ensures 0 <= dayIndex <= 6 ==> r == (dayIndex - (if t / 60 < 6 then 1 else 0)) % 7
  {
    var d := if t / 60 < 6 then dayIndex - 1 else dayIndex;
    if d < 0 then 6 else d
  }
}
