/** RFC 3339 timestamps: civil dates, instants in microseconds, the canonical
  * text each component writes, and reading it back (date-time form: section 5.6
  * of RFC 3339). Instants count from the first moment of year 0, UTC. */
module Timestamps {
  import opened Wrappers

  type Instant = int

  const MICROS_PER_DAY: int := 86_400_000_000

  // ---------------------------------------------------------------- calendar

  predicate IsLeap(y: nat) {
    y % 4 == 0 && (y % 100 != 0 || y % 400 == 0)
  }

  function YearLength(y: nat): nat {
    if IsLeap(y) then 366 else 365
  }

  function MonthLength(y: nat, m: nat): nat {
    if m == 2 then (if IsLeap(y) then 29 else 28)
    else if m == 4 || m == 6 || m == 9 || m == 11 then 30 else 31
  }

  function DaysBeforeYear(y: nat): nat {
    if y == 0 then 0 else DaysBeforeYear(y - 1) + YearLength(y - 1)
  }

  function DaysBeforeMonth(y: nat, m: nat): nat
    requires 1 <= m <= 13
  {
    if m == 1 then 0 else DaysBeforeMonth(y, m - 1) + MonthLength(y, m - 1)
  }

  datatype Date = Date(year: nat, month: nat, day: nat)

  predicate ValidDate(d: Date) {
    1 <= d.month <= 12 && 1 <= d.day <= MonthLength(d.year, d.month)
  }

  function DayNumber(d: Date): nat
    requires ValidDate(d)
  {
    DaysBeforeYear(d.year) + DaysBeforeMonth(d.year, d.month) + d.day - 1
  }

  lemma {:induction false} TwelveMonths(y: nat)
    ensures DaysBeforeMonth(y, 13) == YearLength(y)
  {
    var feb := MonthLength(y, 2);
    assert DaysBeforeMonth(y, 2) == 31;
    assert DaysBeforeMonth(y, 3) == 31 + feb;
    assert DaysBeforeMonth(y, 4) == 62 + feb;
    assert DaysBeforeMonth(y, 5) == 92 + feb;
    assert DaysBeforeMonth(y, 6) == 123 + feb;
    assert DaysBeforeMonth(y, 7) == 153 + feb;
    assert DaysBeforeMonth(y, 8) == 184 + feb;
    assert DaysBeforeMonth(y, 9) == 215 + feb;
    assert DaysBeforeMonth(y, 10) == 245 + feb;
    assert DaysBeforeMonth(y, 11) == 276 + feb;
    assert DaysBeforeMonth(y, 12) == 306 + feb;
  }

  lemma {:induction false} YearsGrow(a: nat, b: nat)
    requires a < b
    ensures DaysBeforeYear(a) + YearLength(a) <= DaysBeforeYear(b)
    decreases b
  {
    if a < b - 1 {
      YearsGrow(a, b - 1);
    }
  }

  lemma {:induction false} MonthsGrow(y: nat, a: nat, b: nat)
    requires 1 <= a < b <= 13
    ensures DaysBeforeMonth(y, a) + MonthLength(y, a) <= DaysBeforeMonth(y, b)
    decreases b
  {
    if a < b - 1 {
      MonthsGrow(y, a, b - 1);
    }
  }

  /** The year that contains a day, searched upwards from y. */
  function YearFrom(day: nat, y: nat): (r: nat)
    requires DaysBeforeYear(y) <= day
    ensures DaysBeforeYear(r) <= day < DaysBeforeYear(r + 1)
    decreases day - DaysBeforeYear(y)
  {
    if day < DaysBeforeYear(y + 1) then y else YearFrom(day, y + 1)
  }

  function MonthFrom(y: nat, day: nat, m: nat): (r: nat)
    requires 1 <= m <= 12 && DaysBeforeMonth(y, m) <= day < DaysBeforeMonth(y, 13)
    ensures 1 <= r <= 12 && DaysBeforeMonth(y, r) <= day < DaysBeforeMonth(y, r + 1)
    decreases 13 - m
  {
    if day < DaysBeforeMonth(y, m + 1) then m else MonthFrom(y, day, m + 1)
  }

  function DateOf(day: nat): (d: Date)
    ensures ValidDate(d) && DayNumber(d) == day
  {
    var y := YearFrom(day, 0);
    TwelveMonths(y);
    var m := MonthFrom(y, day - DaysBeforeYear(y), 1);
    Date(y, m, day - DaysBeforeYear(y) - DaysBeforeMonth(y, m) + 1)
  }

  lemma {:induction false} DateInsideYear(d: Date)
    requires ValidDate(d)
    ensures DaysBeforeYear(d.year) <= DayNumber(d) < DaysBeforeYear(d.year + 1)
  {
    TwelveMonths(d.year);
    MonthsGrow(d.year, d.month, 13);
  }

  /** A day has one date. */
  lemma {:induction false} DayNumberIsInjective(a: Date, b: Date)
    requires ValidDate(a) && ValidDate(b) && DayNumber(a) == DayNumber(b)
    ensures a == b
  {
    DateInsideYear(a);
    DateInsideYear(b);
    if a.year < b.year {
      YearsGrow(a.year, b.year);
    } else if b.year < a.year {
      YearsGrow(b.year, a.year);
    } else if a.month < b.month {
      MonthsGrow(a.year, a.month, b.month);
    } else if b.month < a.month {
      MonthsGrow(a.year, b.month, a.month);
    }
  }

  // ---------------------------------------------------------------- stamps

  /** The fields of a timestamp; the offset is in minutes east of UTC. */
  datatype Stamp = Stamp(date: Date, hour: nat, minute: nat, second: nat, micros: nat, offset: int)

  predicate ValidStamp(s: Stamp) {
    && ValidDate(s.date) && s.date.year <= 9999
    && s.hour < 24 && s.minute < 60 && s.second < 60 && s.micros < 1_000_000
    && -1440 < s.offset < 1440
  }

  function InstantOf(s: Stamp): Instant
    requires ValidStamp(s)
  {
    DayNumber(s.date) * MICROS_PER_DAY
    + (s.hour * 3600 + s.minute * 60 + s.second - s.offset * 60) * 1_000_000 + s.micros
  }

  /** The first instant of a year, UTC. */
  function YearStart(y: nat): Instant {
    DaysBeforeYear(y) * MICROS_PER_DAY
  }

  predicate InYears(t: Instant, first: nat, last: nat) {
    YearStart(first) <= t < YearStart(last + 1)
  }

  lemma {:induction false} EarlierYears(t: Instant, first: nat)
    ensures YearStart(first) >= 0
    ensures InYears(t, first, 9999) ==> InYears(t, 0, 9999)
  {
  }

  /** No offset can carry a stamp back by two years. */
  lemma {:induction false} StampAtMost(s: Stamp)
    requires ValidStamp(s)
    ensures s.date.year >= 1970 ==> InstantOf(s) >= 0
  {
    if s.date.year >= 1970 {
      YearsGrow(1, s.date.year);
    }
  }

  lemma {:induction false} YearsAscend(a: nat, b: nat)
    requires a <= b
    ensures DaysBeforeYear(a) <= DaysBeforeYear(b)
  {
    if a < b {
      YearsGrow(a, b);
    }
  }

  lemma {:induction false} DayOfStamp(s: Stamp)
    requires ValidStamp(s) && s.offset == 0
    ensures YearStart(s.date.year) <= InstantOf(s) < YearStart(s.date.year + 1)
  {
    DateInsideYear(s.date);
  }

  lemma {:induction false} StampInYears(s: Stamp, first: nat)
    requires ValidStamp(s) && s.offset == 0 && first <= s.date.year
    ensures InYears(InstantOf(s), first, 9999)
  {
    DayOfStamp(s);
    YearsAscend(first, s.date.year);
    YearsAscend(s.date.year + 1, 10000);
  }

  lemma {:induction false} InstantInItsYear(t: Instant, a: nat, y: nat)
    requires YearStart(a) <= t < YearStart(a + 1)
    ensures a >= y <==> t >= YearStart(y)
  {
    if a >= y {
      YearsAscend(y, a);
    } else {
      YearsAscend(a + 1, y);
    }
  }

  lemma {:induction false} ClockParts(seconds: nat)
    requires seconds < 86400
    ensures seconds / 3600 < 24
    ensures seconds / 3600 * 3600 + seconds / 60 % 60 * 60 + seconds % 60 == seconds
  {
  }

  lemma {:induction false} DayOfYears(t: Instant)
    requires InYears(t, 0, 9999)
    ensures t >= 0 && DateOf(t / MICROS_PER_DAY).year <= 9999
  {
    var date := DateOf(t / MICROS_PER_DAY);
    DateInsideYear(date);
    if date.year > 10000 {
      YearsGrow(10000, date.year);
    }
  }

  /** What to_char and UTC() show of an instant. */
  function Civil(t: Instant): (s: Stamp)
    requires InYears(t, 0, 9999)
    ensures ValidStamp(s) && s.offset == 0 && InstantOf(s) == t
  {
    DayOfYears(t);
    var rest := t % MICROS_PER_DAY;
    var seconds := rest / 1_000_000;
    ClockParts(seconds);
    Stamp(DateOf(t / MICROS_PER_DAY), seconds / 3600, seconds / 60 % 60, seconds % 60, rest % 1_000_000, 0)
  }

  function ClockOf(s: Stamp): nat {
    (s.hour * 3600 + s.minute * 60 + s.second) * 1_000_000 + s.micros
  }

  lemma {:induction false} OneClock(a: Stamp, b: Stamp)
    requires a.minute < 60 && a.second < 60 && a.micros < 1_000_000
    requires b.minute < 60 && b.second < 60 && b.micros < 1_000_000 && ClockOf(a) == ClockOf(b)
    ensures a.hour == b.hour && a.minute == b.minute && a.second == b.second && a.micros == b.micros
  {
    assert a.hour * 3600 + a.minute * 60 + a.second == b.hour * 3600 + b.minute * 60 + b.second;
    assert a.hour * 60 + a.minute == b.hour * 60 + b.minute;
  }

  lemma {:induction false} SplitDays(a: nat, x: nat, b: nat, y: nat)
    requires x < MICROS_PER_DAY && y < MICROS_PER_DAY && a * MICROS_PER_DAY + x == b * MICROS_PER_DAY + y
    ensures a == b && x == y
  {
  }

  /** An instant has one date and time of day in UTC, and Civil finds it. */
  lemma {:induction false} CivilIsUnique(s: Stamp)
    requires ValidStamp(s) && s.offset == 0 && InYears(InstantOf(s), 0, 9999)
    ensures Civil(InstantOf(s)) == s
  {
    var c := Civil(InstantOf(s));
    SplitDays(DayNumber(c.date), ClockOf(c), DayNumber(s.date), ClockOf(s));
    DayNumberIsInjective(c.date, s.date);
    OneClock(c, s);
  }

  // ---------------------------------------------------------------- digits

  predicate IsDigit(c: char) { '0' <= c <= '9' }

  predicate AllDigits(s: string) { forall i | 0 <= i < |s| :: IsDigit(s[i]) }

  function Digit(n: nat): char
    requires n < 10
  {
    '0' + n as char
  }

  function Pow10(w: nat): nat {
    if w == 0 then 1 else 10 * Pow10(w - 1)
  }

  /** n in w decimal digits. */
  function Pad(n: nat, w: nat): (s: string)
    ensures |s| == w && AllDigits(s)
  {
    if w == 0 then "" else Pad(n / 10, w - 1) + [Digit(n % 10)]
  }

  function Num(s: string): nat
    requires AllDigits(s)
  {
    if |s| == 0 then 0 else Num(s[..|s| - 1]) * 10 + (s[|s| - 1] - '0') as nat
  }

  lemma {:induction false} NumOfPad(n: nat, w: nat)
    requires n < Pow10(w)
    ensures Num(Pad(n, w)) == n
  {
    if w > 0 {
      NumOfPad(n / 10, w - 1);
      assert Pad(n, w)[..w - 1] == Pad(n / 10, w - 1);
    }
  }

  function Zeros(n: nat): (s: string)
    ensures |s| == n && AllDigits(s)
  {
    seq(n, _ => '0')
  }

  // ---------------------------------------------------------------- trimming

  function StripZeros(s: string): (r: string)
    ensures r <= s
  {
    if |s| > 0 && s[|s| - 1] == '0' then StripZeros(s[..|s| - 1]) else s
  }

  function StripDots(s: string): string {
    if |s| > 0 && s[|s| - 1] == '.' then StripDots(s[..|s| - 1]) else s
  }

  predicate AllZeros(s: string) {
    |s| > 0 && forall i | 0 <= i < |s| :: s[i] == '0'
  }

  /** The pattern \.?0+$ matches s from position i to the end. */
  predicate MatchesAt(s: string, i: nat) {
    i < |s| && (AllZeros(s[i..]) || (s[i] == '.' && AllZeros(s[i + 1..])))
  }

  /** regexp_replace(s, '\.?0+$', ''): the leftmost match from i on is removed. */
  function RegexTrim(s: string, i: nat): string
    requires i <= |s|
    decreases |s| - i
  {
    if i == |s| then s
    else if MatchesAt(s, i) then s[..i]
    else RegexTrim(s, i + 1)
  }

  /** time.RFC3339Nano: no fraction when it is zero, else no trailing zeros. */
  function ShortFraction(f: string): string {
    var g := StripZeros(f);
    if g == "" then "" else "." + g
  }

  lemma {:induction false} StripZerosSplits(f: string)
    ensures var g := StripZeros(f);
            f == g + Zeros(|f| - |g|) && (|g| > 0 ==> g[|g| - 1] != '0')
  {
    if |f| > 0 && f[|f| - 1] == '0' {
      StripZerosSplits(f[..|f| - 1]);
      assert f == f[..|f| - 1] + "0";
    }
  }

  lemma {:induction false} RegexSkips(s: string, i: nat, j: nat)
    requires i <= j <= |s| && forall k | i <= k < j :: !MatchesAt(s, k)
    ensures RegexTrim(s, i) == RegexTrim(s, j)
    decreases j - i
  {
    if i < j {
      RegexSkips(s, i + 1, j);
    }
  }

  /** A seconds text and a fraction, as to_char writes them with the US field. */
  ghost predicate SecondsAndFraction(p: string, f: string) {
    && |p| > 0 && (forall i | 0 <= i < |p| :: p[i] != '.')
    && |f| > 0 && AllDigits(f)
  }

  /** Where the trimmed tail begins: at the point if the fraction is zero. */
  function TrimPoint(p: string, f: string): nat {
    if StripZeros(f) == "" then |p| else |p| + 1 + |StripZeros(f)|
  }

  lemma {:induction false} NothingMatchesEarlier(p: string, f: string, k: nat)
    requires SecondsAndFraction(p, f) && k < TrimPoint(p, f)
    ensures k < |p + "." + f| && !MatchesAt(p + "." + f, k)
  {
    var s := p + "." + f;
    var g := StripZeros(f);
    StripZerosSplits(f);
    if k < |p| {
      assert s[k..][|p| - k] == '.' && s[k] == p[k];
    } else if k == |p| {
      assert s[k + 1..] == f && f[|g| - 1] == g[|g| - 1];
    } else {
      assert s[k..][|p| + |g| - k] == g[|g| - 1];
    }
  }

  lemma {:induction false} KeptUpToTrimPoint(p: string, f: string)
    requires SecondsAndFraction(p, f)
    ensures var s, stop := p + "." + f, TrimPoint(p, f);
            stop <= |s| && s[..stop] == p + ShortFraction(f) && (stop < |s| ==> |StripZeros(f)| < |f|)
  {
    StripZerosSplits(f);
  }

  lemma {:induction false} TailIsZeros(f: string)
    requires |StripZeros(f)| < |f|
    ensures AllZeros(f[|StripZeros(f)|..])
  {
    StripZerosSplits(f);
    assert f[|StripZeros(f)|..] == Zeros(|f| - |StripZeros(f)|);
  }

  lemma {:induction false} MatchesAtTrimPoint(p: string, f: string)
    requires SecondsAndFraction(p, f) && |StripZeros(f)| < |f|
    ensures MatchesAt(p + "." + f, TrimPoint(p, f))
  {
    var s := p + "." + f;
    TailIsZeros(f);
    if StripZeros(f) == "" {
      assert s[|p| + 1..] == f == f[0..];
    } else {
      assert s[TrimPoint(p, f)..] == f[|StripZeros(f)|..];
    }
  }

  lemma {:induction false} RegexTrimsFraction(p: string, f: string)
    requires SecondsAndFraction(p, f)
    ensures RegexTrim(p + "." + f, 0) == p + ShortFraction(f)
  {
    KeptUpToTrimPoint(p, f);
    if |StripZeros(f)| < |f| {
      MatchesAtTrimPoint(p, f);
    }
    forall k | 0 <= k < TrimPoint(p, f) ensures !MatchesAt(p + "." + f, k) {
      NothingMatchesEarlier(p, f, k);
    }
    RegexSkips(p + "." + f, 0, TrimPoint(p, f));
  }

  lemma {:induction false} StripZerosOfZeros(p: string, n: nat)
    ensures StripZeros(p + Zeros(n)) == StripZeros(p)
  {
    if n == 0 {
      assert p + Zeros(0) == p;
    } else {
      assert (p + Zeros(n))[..|p| + n - 1] == p + Zeros(n - 1);
      StripZerosOfZeros(p, n - 1);
    }
  }

  lemma {:induction false} SplitAtZeros(p: string, f: string)
    requires AllDigits(f)
    ensures p + "." + f == (p + "." + StripZeros(f)) + Zeros(|f| - |StripZeros(f)|)
  {
    StripZerosSplits(f);
  }

  lemma {:induction false} StripsTrimFraction(p: string, f: string)
    requires SecondsAndFraction(p, f)
    ensures StripDots(StripZeros(p + "." + f)) == p + ShortFraction(f)
  {
    var g := StripZeros(f);
    StripZerosSplits(f);
    SplitAtZeros(p, f);
    StripZerosOfZeros(p + "." + g, |f| - |g|);
    assert StripZeros(p + "." + g) == p + "." + g;
    if g == "" {
      assert (p + ".")[..|p|] == p;
    } else {
      assert p + "." + g == p + ShortFraction(f);
    }
  }

  /** The database's leftmost regular-expression trim, the client's strip of
    * zeros and then dots, and the API's short fraction agree, also when the
    * seconds themselves end in 0. */
  lemma {:induction false} ThreeTrimsAgree(p: string, f: string)
    requires SecondsAndFraction(p, f)
    ensures RegexTrim(p + "." + f, 0) == StripDots(StripZeros(p + "." + f)) == p + ShortFraction(f)
  {
    RegexTrimsFraction(p, f);
    StripsTrimFraction(p, f);
  }

  // ---------------------------------------------------------------- canonical text

  /** YYYY-MM-DD"T"HH24:MI:SS */
  function SecondsText(s: Stamp): (t: string)
    requires ValidStamp(s)
    ensures |t| == 19
  {
    Pad(s.date.year, 4) + "-" + Pad(s.date.month, 2) + "-" + Pad(s.date.day, 2) + "T"
    + Pad(s.hour, 2) + ":" + Pad(s.minute, 2) + ":" + Pad(s.second, 2)
  }

  /** The API: marshalled with the shortest fraction. */
  function ApiStampText(s: Stamp): string
    requires ValidStamp(s)
  {
    SecondsText(s) + ShortFraction(Pad(s.micros, 6)) + "Z"
  }

  /** The database: six digits, trimmed by the regular expression. */
  function SqlStampText(s: Stamp): string
    requires ValidStamp(s)
  {
    RegexTrim(SecondsText(s) + "." + Pad(s.micros, 6), 0) + "Z"
  }

  /** The end-to-end check: six digits, stripped of zeros and then dots. */
  function ClientStampText(s: Stamp): string
    requires ValidStamp(s)
  {
    StripDots(StripZeros(SecondsText(s) + "." + Pad(s.micros, 6))) + "Z"
  }

  /** All three write a UTC time the same way. */
  lemma {:induction false} OneCanonicalText(s: Stamp)
    requires ValidStamp(s)
    ensures SqlStampText(s) == ApiStampText(s) == ClientStampText(s)
  {
    ThreeTrimsAgree(SecondsText(s), Pad(s.micros, 6));
  }

  /** The texts of an instant are those of its UTC fields. */
  function ApiText(t: Instant): string
    requires InYears(t, 0, 9999)
  {
    ApiStampText(Civil(t))
  }

  function SqlText(t: Instant): string
    requires InYears(t, 0, 9999)
  {
    SqlStampText(Civil(t))
  }

  // ---------------------------------------------------------------- reading

  function DigitRun(s: string): (n: nat)
    ensures n <= |s| && AllDigits(s[..n])
  {
    if |s| == 0 || !IsDigit(s[0]) then 0 else 1 + DigitRun(s[1..])
  }

  /** Two digits at i. */
  predicate TwoAt(s: string, i: nat) {
    i + 2 <= |s| && AllDigits(s[i..i + 2])
  }

  function ReadZone(z: string): Option<int> {
    if z == "Z" then Some(0)
    else if |z| == 6 && (z[0] == '+' || z[0] == '-') && TwoAt(z, 1) && z[3] == ':' && TwoAt(z, 4) then
      var h, m := Num(z[1..3]), Num(z[4..6]);
      if h < 24 && m < 60 then Some(if z[0] == '-' then -(h * 60 + m) else h * 60 + m) else None
    else None
  }

  /** Digits after the sixth are kept apart: they are not microseconds. */
  datatype Reading = Reading(stamp: Stamp, excess: string)

  /** The fraction digits and the zone that follow the seconds. */
  function SplitTail(rest: string): (r: Option<(string, string)>)
    ensures r.Some? ==> AllDigits(r.value.0)
  {
    if |rest| > 0 && rest[0] == '.' then
      var n := DigitRun(rest[1..]);
      if n == 0 then None else Some((rest[1..][..n], rest[1..][n..]))
    else Some(("", rest))
  }

  predicate HasSeconds(s: string) {
    && |s| >= 19
    && AllDigits(s[..4]) && s[4] == '-' && TwoAt(s, 5) && s[7] == '-' && TwoAt(s, 8) && s[10] == 'T'
    && TwoAt(s, 11) && s[13] == ':' && TwoAt(s, 14) && s[16] == ':' && TwoAt(s, 17)
  }

  function StampOf(s: string, f: string, offset: int): Stamp
    requires HasSeconds(s) && AllDigits(f)
  {
    Stamp(Date(Num(s[..4]), Num(s[5..7]), Num(s[8..10])), Num(s[11..13]), Num(s[14..16]), Num(s[17..19]), Micros(f),
          offset)
  }

  /** A strict reading of an RFC 3339 date-time. */
  function Read(s: string): Option<Reading> {
    if !HasSeconds(s) then None
    else
      match SplitTail(s[19..])
      case None => None
      case Some((f, zone)) =>
        match ReadZone(zone)
        case None => None
        case Some(offset) =>
          var stamp := StampOf(s, f, offset);
          if ValidStamp(stamp) then Some(Reading(stamp, if |f| > 6 then f[6..] else "")) else None
  }

  /** The first six fraction digits, missing ones being zero. */
  function Micros(f: string): nat
    requires AllDigits(f)
  {
    if |f| <= 6 then Num(f + Zeros(6 - |f|)) else Num(f[..6])
  }

  lemma {:induction false} RunOfDigits(g: string, tail: string)
    requires AllDigits(g) && |tail| > 0 && !IsDigit(tail[0])
    ensures DigitRun(g + tail) == |g|
  {
    if |g| == 0 {
      assert g + tail == tail;
    } else {
      assert (g + tail)[1..] == g[1..] + tail;
      RunOfDigits(g[1..], tail);
    }
  }

  lemma {:induction false} Powers()
    ensures Pow10(2) == 100 && Pow10(4) == 10000 && Pow10(6) == 1000000
  {
    assert Pow10(3) == 1000;
  }

  lemma {:induction false} DateParts(y: string, m: string, d: string, rest: string)
    requires |y| == 4 && |m| == 2 && |d| == 2
    ensures var t := y + "-" + m + "-" + d + rest;
            t[..4] == y && t[4] == '-' && t[5..7] == m && t[7] == '-' && t[8..10] == d && t[10..] == rest
  {
  }

  lemma {:induction false} TimeParts(h: string, m: string, s: string, tail: string)
    requires |h| == 2 && |m| == 2 && |s| == 2
    ensures var t := "T" + h + ":" + m + ":" + s + tail;
            t[0] == 'T' && t[1..3] == h && t[3] == ':' && t[4..6] == m && t[6] == ':' && t[7..9] == s && t[9..] == tail
  {
  }

  /** The time of day, seen from the start of the text. */
  lemma {:induction false} TimeSlices(t: string)
    requires |t| >= 19
    ensures t[10..][0] == t[10] && t[10..][3] == t[13] && t[10..][6] == t[16]
    ensures t[10..][1..3] == t[11..13] && t[10..][4..6] == t[14..16] && t[10..][7..9] == t[17..19]
    ensures t[10..][9..] == t[19..]
  {
  }

  lemma {:induction false} SecondsTextParts(s: Stamp, tail: string)
    requires ValidStamp(s)
    ensures SecondsText(s) + tail
            == Pad(s.date.year, 4) + "-" + Pad(s.date.month, 2) + "-" + Pad(s.date.day, 2)
               + ("T" + Pad(s.hour, 2) + ":" + Pad(s.minute, 2) + ":" + Pad(s.second, 2) + tail)
  {
  }

  lemma {:induction false} SecondsTextFields(s: Stamp, tail: string)
    requires ValidStamp(s)
    ensures var t := SecondsText(s) + tail;
            && t[..4] == Pad(s.date.year, 4) && t[4] == '-' && t[5..7] == Pad(s.date.month, 2) && t[7] == '-'
            && t[8..10] == Pad(s.date.day, 2) && t[10] == 'T' && t[11..13] == Pad(s.hour, 2) && t[13] == ':'
            && t[14..16] == Pad(s.minute, 2) && t[16] == ':' && t[17..19] == Pad(s.second, 2) && t[19..] == tail
  {
    var clock := "T" + Pad(s.hour, 2) + ":" + Pad(s.minute, 2) + ":" + Pad(s.second, 2) + tail;
    SecondsTextParts(s, tail);
    DateParts(Pad(s.date.year, 4), Pad(s.date.month, 2), Pad(s.date.day, 2), clock);
    TimeParts(Pad(s.hour, 2), Pad(s.minute, 2), Pad(s.second, 2), tail);
    TimeSlices(SecondsText(s) + tail);
  }

  lemma {:induction false} ShortTail(f: string)
    requires AllDigits(f) && |f| == 6
    ensures SplitTail(ShortFraction(f) + "Z") == Some((StripZeros(f), "Z"))
    ensures Micros(StripZeros(f)) == Num(f)
  {
    var g := StripZeros(f);
    StripZerosSplits(f);
    var tail := ShortFraction(f) + "Z";
    if g == "" {
      assert tail == "Z";
    } else {
      assert tail[1..] == g + "Z";
      RunOfDigits(g, "Z");
    }
    assert g + Zeros(6 - |g|) == f;
    assert |g| == 6 ==> f[..6] == f;
  }

  /** The fields are where a reader looks for them. */
  lemma {:induction false} SecondsTextReads(s: Stamp, tail: string, f: string)
    requires ValidStamp(s) && AllDigits(f) && Micros(f) == s.micros
    ensures HasSeconds(SecondsText(s) + tail) && (SecondsText(s) + tail)[19..] == tail
    ensures StampOf(SecondsText(s) + tail, f, s.offset) == s
  {
    SecondsTextFields(s, tail);
    Powers();
    NumOfPad(s.date.year, 4);
    NumOfPad(s.date.month, 2);
    NumOfPad(s.date.day, 2);
    NumOfPad(s.hour, 2);
    NumOfPad(s.minute, 2);
    NumOfPad(s.second, 2);
  }

  /** Any tail that reads as the stamp's microseconds and offset reads as the stamp. */
  lemma {:induction false} TailReadsBack(s: Stamp, tail: string, f: string, zone: string)
    requires ValidStamp(s) && SplitTail(tail) == Some((f, zone)) && ReadZone(zone) == Some(s.offset)
    requires AllDigits(f) && Micros(f) == s.micros
    ensures Read(SecondsText(s) + tail) == Some(Reading(s, if |f| > 6 then f[6..] else ""))
  {
    SecondsTextReads(s, tail, f);
  }

  lemma {:induction false} ApiTextParts(s: Stamp)
    requires ValidStamp(s)
    ensures ApiStampText(s) == SecondsText(s) + (ShortFraction(Pad(s.micros, 6)) + "Z")
  {
  }

  /** The canonical text of UTC fields reads back as these fields. */
  lemma {:induction false} CanonicalTextReadsBack(s: Stamp)
    requires ValidStamp(s) && s.offset == 0
    ensures Read(ApiStampText(s)) == Some(Reading(s, ""))
  {
    var digits := Pad(s.micros, 6);
    ShortTail(digits);
    Powers();
    NumOfPad(s.micros, 6);
    TailReadsBack(s, ShortFraction(digits) + "Z", StripZeros(digits), "Z");
    ApiTextParts(s);
  }

  lemma {:induction false} ZeroDigits(n: nat)
    ensures Num(Zeros(n)) == 0
  {
    if n > 0 {
      assert Zeros(n)[..n - 1] == Zeros(n - 1);
      ZeroDigits(n - 1);
    }
  }

  /** Whole seconds written with any zone read back as written. */
  lemma {:induction false} WholeSecondsReadBack(s: Stamp, zone: string)
    requires ValidStamp(s) && s.micros == 0 && ReadZone(zone) == Some(s.offset)
    ensures Read(SecondsText(s) + zone) == Some(Reading(s, ""))
  {
    assert Micros("") == 0 by {
      ZeroDigits(6);
      assert "" + Zeros(6) == Zeros(6);
    }
    TailReadsBack(s, zone, "", zone);
  }

  /** A whole second written with seven zeros reads with one digit too many. */
  lemma {:induction false} SevenZerosReadBack(s: Stamp)
    requires ValidStamp(s) && s.micros == 0 && s.offset == 0
    ensures Read(SecondsText(s) + ".0000000Z") == Some(Reading(s, "0"))
  {
    var f, tail := "0000000", ".0000000Z";
    assert tail[1..] == f + "Z";
    RunOfDigits(f, "Z");
    assert (f + "Z")[..7] == f && (f + "Z")[7..] == "Z";
    assert f[..6] == Zeros(6) && f[6..] == "0";
    ZeroDigits(6);
    TailReadsBack(s, tail, f, "Z");
  }

  /** Two instants have the same canonical text only if they are the same,
    * whatever offsets the instants were written with. */
  lemma {:induction false} CanonicalTextIsInjective(a: Stamp, b: Stamp)
    requires ValidStamp(a) && ValidStamp(b)
    requires InYears(InstantOf(a), 0, 9999) && InYears(InstantOf(b), 0, 9999)
    ensures ApiText(InstantOf(a)) == ApiText(InstantOf(b)) <==> InstantOf(a) == InstantOf(b)
  {
    CanonicalTextReadsBack(Civil(InstantOf(a)));
    CanonicalTextReadsBack(Civil(InstantOf(b)));
  }
}
