/** What the text of a timestamp means, told apart from the functions that read it:
  * the grammar of RFC 3339 (section 5.6), the offset, and the calendar. */
module Rfc3339 {
  import opened Wrappers
  import opened Timestamps
  import O = Observations

  // ---------------------------------------------------------------- digits

  lemma {:induction false} PadOfNum(s: string)
    requires AllDigits(s)
    ensures Pad(Num(s), |s|) == s && Num(s) < Pow10(|s|)
  {
    if |s| > 0 {
      var front, n, d := s[..|s| - 1], Num(s[..|s| - 1]), (s[|s| - 1] - '0') as nat;
      PadOfNum(front);
      assert (n * 10 + d) / 10 == n && (n * 10 + d) % 10 == d;
      assert s == front + [s[|s| - 1]];
    }
  }

  lemma {:induction false} OneNumber(s: string, n: nat, w: nat)
    requires AllDigits(s) && |s| == w && n < Pow10(w)
    ensures Num(s) == n <==> s == Pad(n, w)
  {
    PadOfNum(s);
    NumOfPad(n, w);
  }

  lemma {:induction false} TwoDigits(s: string, n: nat)
    requires n < 100
    ensures |s| == 2 && AllDigits(s) && Num(s) == n <==> s == Pad(n, 2)
  {
    Powers();
    if |s| == 2 && AllDigits(s) {
      OneNumber(s, n, 2);
    }
  }

  // ---------------------------------------------------------------- the offset

  function ClockText(h: nat, m: nat): (t: string)
    ensures |t| == 5
  {
    Pad(h, 2) + ":" + Pad(m, 2)
  }

  /** A sign, hours and minutes: east of UTC for a plus, west for a minus. */
  predicate Signed(z: string, h: nat, m: nat, offset: int) {
    && h < 24 && m < 60
    && ((z == "+" + ClockText(h, m) && offset == h * 60 + m) || (z == "-" + ClockText(h, m) && offset == -(h * 60 + m)))
  }

  ghost predicate ZoneMeans(z: string, offset: int) {
    (z == "Z" && offset == 0) || exists h: nat, m: nat :: Signed(z, h, m, offset)
  }

  lemma {:induction false} ClockParts(z: string, sign: char, h: nat, m: nat)
    requires h < 24 && m < 60
    ensures z == [sign] + ClockText(h, m) <==>
              |z| == 6 && z[0] == sign && z[1..3] == Pad(h, 2) && z[3] == ':' && z[4..6] == Pad(m, 2)
  {
    var goal := [sign] + ClockText(h, m);
    assert goal[0] == sign && goal[1..3] == Pad(h, 2) && goal[3] == ':' && goal[4..6] == Pad(m, 2);
    if |z| == 6 {
      assert z == [z[0]] + (z[1..3] + [z[3]] + z[4..6]);
    }
  }

  /** East and west are told apart. */
  lemma {:induction false} SignedReads(z: string, h: nat, m: nat, offset: int)
    requires Signed(z, h, m, offset)
    ensures ReadZone(z) == Some(offset)
  {
    ClockParts(z, '+', h, m);
    ClockParts(z, '-', h, m);
    TwoDigits(z[1..3], h);
    TwoDigits(z[4..6], m);
  }

  /** The zone is read exactly as the grammar has it. */
  lemma {:induction false} ZoneIsExact(z: string, offset: int)
    ensures ReadZone(z) == Some(offset) <==> ZoneMeans(z, offset)
  {
    if ReadZone(z) == Some(offset) && z != "Z" {
      var h, m := Num(z[1..3]), Num(z[4..6]);
      TwoDigits(z[1..3], h);
      TwoDigits(z[4..6], m);
      ClockParts(z, z[0], h, m);
      assert Signed(z, h, m, offset);
    }
    if ZoneMeans(z, offset) && z != "Z" {
      var h: nat, m: nat :| Signed(z, h, m, offset);
      SignedReads(z, h, m, offset);
    }
  }

  /** How an offset is written. */
  function ZoneText(offset: int): string
    requires -1440 < offset < 1440
  {
    if offset < 0 then "-" + ClockText(-offset / 60, -offset % 60) else "+" + ClockText(offset / 60, offset % 60)
  }

  lemma {:induction false} ZoneTextMeans(offset: int)
    requires -1440 < offset < 1440
    ensures ReadZone(ZoneText(offset)) == Some(offset)
  {
    var n: nat := if offset < 0 then -offset else offset;
    assert n / 60 * 60 + n % 60 == n;
    SignedReads(ZoneText(offset), n / 60, n % 60, offset);
  }

  // ---------------------------------------------------------------- the fraction

  function FractionText(f: string): string {
    if f == "" then "" else "." + f
  }

  /** The digits beyond the sixth. */
  function Excess(f: string): string {
    if |f| > 6 then f[6..] else ""
  }

  /** The first six digits, filled up with zeros, are the microseconds. */
  predicate FractionMeans(f: string, micros: nat) {
    AllDigits(f) && Pad(micros, 6) == (f + "000000")[..6]
  }

  lemma {:induction false} FractionIsExact(f: string, micros: nat)
    requires AllDigits(f) && micros < 1_000_000
    ensures Micros(f) == micros <==> FractionMeans(f, micros)
  {
    var digits := if |f| <= 6 then f + Zeros(6 - |f|) else f[..6];
    assert digits == (f + "000000")[..6];
    Powers();
    OneNumber(digits, micros, 6);
  }

  lemma {:induction false} MicrosBelow(f: string)
    requires AllDigits(f)
    ensures Micros(f) < 1_000_000
  {
    Powers();
    PadOfNum(if |f| <= 6 then f + Zeros(6 - |f|) else f[..6]);
  }

  lemma {:induction false} ZonesStart(zone: string, offset: int)
    requires ZoneMeans(zone, offset)
    ensures |zone| > 0 && !IsDigit(zone[0]) && zone[0] != '.'
  {
    if zone != "Z" {
      var h: nat, m: nat :| Signed(zone, h, m, offset);
    }
  }

  lemma {:induction false} TailSplits(f: string, zone: string, offset: int)
    requires AllDigits(f) && ZoneMeans(zone, offset)
    ensures SplitTail(FractionText(f) + zone) == Some((f, zone))
  {
    ZonesStart(zone, offset);
    if f == "" {
      assert FractionText(f) + zone == zone;
    } else {
      DotSplits(f, zone, FractionText(f) + zone);
    }
  }

  lemma {:induction false} DotSplits(f: string, zone: string, rest: string)
    requires f != "" && AllDigits(f) && |zone| > 0 && !IsDigit(zone[0]) && rest == "." + f + zone
    ensures SplitTail(rest) == Some((f, zone))
  {
    RunOfDigits(f, zone);
    assert rest[0] == '.' && rest[1..] == f + zone;
    assert (f + zone)[..|f|] == f && (f + zone)[|f|..] == zone;
  }

  lemma {:induction false} SplitJoins(rest: string)
    requires SplitTail(rest).Some?
    ensures var (f, zone) := SplitTail(rest).value; AllDigits(f) && rest == FractionText(f) + zone
  {
    if |rest| > 0 && rest[0] == '.' {
      assert rest == "." + rest[1..];
    }
  }

  // ---------------------------------------------------------------- the whole text

  /** The text is the stamp's date and time, a fraction and a zone. */
  ghost predicate Writes(t: string, s: Stamp, f: string, zone: string) {
    && ValidStamp(s) && FractionMeans(f, s.micros) && ZoneMeans(zone, s.offset)
    && t == SecondsText(s) + (FractionText(f) + zone)
  }

  lemma {:induction false} WrittenReads(t: string, s: Stamp, f: string, zone: string)
    requires Writes(t, s, f, zone)
    ensures Read(t) == Some(Reading(s, Excess(f)))
  {
    TailSplits(f, zone, s.offset);
    ZoneIsExact(zone, s.offset);
    FractionIsExact(f, s.micros);
    TailReadsBack(s, FractionText(f) + zone, f, zone);
  }

  lemma {:induction false} DatePieces(t: string)
    requires HasSeconds(t)
    ensures t[..19] == t[..4] + "-" + t[5..7] + "-" + t[8..10] + "T" + t[11..13] + ":" + t[14..16] + ":" + t[17..19]
  {
  }

  lemma {:induction false} FieldsAreText(t: string, f: string, offset: int)
    requires HasSeconds(t) && AllDigits(f) && ValidStamp(StampOf(t, f, offset))
    ensures t[..19] == SecondsText(StampOf(t, f, offset))
  {
    DatePieces(t);
    PadOfNum(t[..4]);
    PadOfNum(t[5..7]);
    PadOfNum(t[8..10]);
    PadOfNum(t[11..13]);
    PadOfNum(t[14..16]);
    PadOfNum(t[17..19]);
  }

  /** What is read was written so. */
  lemma {:induction false} ReadWasWritten(t: string) returns (f: string, zone: string)
    requires Read(t).Some?
    ensures Writes(t, Read(t).value.stamp, f, zone) && Read(t).value.excess == Excess(f)
  {
    f, zone := SplitTail(t[19..]).value.0, SplitTail(t[19..]).value.1;
    var s := Read(t).value.stamp;
    SplitJoins(t[19..]);
    ZoneIsExact(zone, s.offset);
    MicrosBelow(f);
    FractionIsExact(f, s.micros);
    FieldsAreText(t, f, s.offset);
    assert t == t[..19] + t[19..];
  }

  /** A text is read exactly if it is, in the grammar, a valid date and time with a
    * fraction and a zone, and then as these. */
  lemma {:induction false} ReadIsExact(t: string, s: Stamp, excess: string)
    ensures Read(t) == Some(Reading(s, excess)) <==> exists f, zone :: Writes(t, s, f, zone) && excess == Excess(f)
  {
    if Read(t) == Some(Reading(s, excess)) {
      var f, zone := ReadWasWritten(t);
    }
    if exists f, zone :: Writes(t, s, f, zone) && excess == Excess(f) {
      var f, zone :| Writes(t, s, f, zone) && excess == Excess(f);
      WrittenReads(t, s, f, zone);
    }
  }

  lemma {:induction false} SixDigits(micros: nat)
    requires micros < 1_000_000
    ensures FractionMeans(StripZeros(Pad(micros, 6)), micros)
    ensures ShortFraction(Pad(micros, 6)) == FractionText(StripZeros(Pad(micros, 6)))
  {
    var f, g := Pad(micros, 6), StripZeros(Pad(micros, 6));
    StripZerosSplits(f);
    assert Zeros(6 - |g|) == "000000"[..6 - |g|];
    assert (g + "000000")[..6] == g + "000000"[..6 - |g|];
  }

  /** Every valid stamp, whatever its offset, reads back from its text. */
  lemma {:induction false} EveryStampReadsBack(s: Stamp)
    requires ValidStamp(s)
    ensures Read(SecondsText(s) + (ShortFraction(Pad(s.micros, 6)) + ZoneText(s.offset))) == Some(Reading(s, ""))
  {
    var f := StripZeros(Pad(s.micros, 6));
    SixDigits(s.micros);
    ZoneTextMeans(s.offset);
    ZoneIsExact(ZoneText(s.offset), s.offset);
    StripZerosSplits(Pad(s.micros, 6));
    WrittenReads(SecondsText(s) + (FractionText(f) + ZoneText(s.offset)), s, f, ZoneText(s.offset));
  }

  // ---------------------------------------------------------------- what an offset does

  /** The same date, time and fraction, with another zone. */
  function InZone(s: Stamp, f: string, zone: string): O.Json
    requires ValidStamp(s)
  {
    O.JStr(SecondsText(s) + (FractionText(f) + zone))
  }

  lemma {:induction false} ReadInZone(s: Stamp, f: string, zone: string, offset: int)
    requires ValidStamp(s) && FractionMeans(f, s.micros) && ZoneMeans(zone, offset) && -1440 < offset < 1440
    ensures Read(InZone(s, f, zone).text) == Some(Reading(s.(offset := offset), Excess(f)))
  {
    assert SecondsText(s.(offset := offset)) == SecondsText(s);
    WrittenReads(InZone(s, f, zone).text, s.(offset := offset), f, zone);
  }

  lemma {:induction false} OffsetMoves(s: Stamp, offset: int)
    requires ValidStamp(s) && s.offset == 0 && -1440 < offset < 1440
    ensures InstantOf(s.(offset := offset)) == InstantOf(s) - offset * 60_000_000
  {
  }

  /** What both routes make of a text: its instant, and the trigger only of at most six
    * fraction digits in its years. */
  ghost predicate BothTake(j: O.Json, at: Instant, excess: string) {
    && O.GoInstant(j) == Some(at)
    && O.SqlTime(j) == if excess == "" && InYears(at, 1970, 9999) then Some(at) else None
  }

  lemma {:induction false} ReadIsTaken(j: O.Json, s: Stamp, excess: string, at: Instant)
    requires j.JStr? && ValidStamp(s) && Read(j.text) == Some(Reading(s, excess)) && at == InstantOf(s)
    ensures BothTake(j, at, excess)
  {
  }

  /** "-hh:mm" is so far west of UTC, and "+hh:mm" so far east. */
  lemma {:induction false} SignedMeans(h: nat, m: nat)
    requires h < 24 && m < 60
    ensures ZoneMeans("-" + ClockText(h, m), -(h * 60 + m)) && ZoneMeans("+" + ClockText(h, m), h * 60 + m)
  {
    assert Signed("-" + ClockText(h, m), h, m, -(h * 60 + m)) && Signed("+" + ClockText(h, m), h, m, h * 60 + m);
  }

  /** With a zone in place of the "Z", both routes take a text for the instant that lies
    * by so much earlier as the zone is east of UTC, and later as it is west. */
  lemma {:induction false} OffsetsShift(s: Stamp, f: string, zone: string, offset: int, at: Instant)
    requires ValidStamp(s) && s.offset == 0 && FractionMeans(f, s.micros)
    requires ZoneMeans(zone, offset) && -1440 < offset < 1440 && at == InstantOf(s) - offset * 60_000_000
    ensures BothTake(InZone(s, f, "Z"), InstantOf(s), Excess(f))
    ensures BothTake(InZone(s, f, zone), at, Excess(f))
  {
    ReadInZone(s, f, "Z", 0);
    ReadIsTaken(InZone(s, f, "Z"), s.(offset := 0), Excess(f), InstantOf(s));
    ReadInZone(s, f, zone, offset);
    OffsetMoves(s, offset);
    ReadIsTaken(InZone(s, f, zone), s.(offset := offset), Excess(f), at);
  }

  // ---------------------------------------------------------------- nanoseconds

  lemma {:induction false} NumOfThree(s: string)
    requires AllDigits(s) && |s| == 3
    ensures Num(s) == (s[0] - '0') as nat * 100 + (s[1] - '0') as nat * 10 + (s[2] - '0') as nat
  {
    assert s[..2][..1][..0] == "" && s[..2][..1] == s[..1];
    assert Num(s[..1]) == (s[0] - '0') as nat;
    assert Num(s[..2]) == Num(s[..1]) * 10 + (s[1] - '0') as nat;
  }

  lemma {:induction false} NumSplits(s: string, k: nat)
    requires AllDigits(s) && k <= |s|
    ensures Num(s) == Num(s[..k]) * Pow10(|s| - k) + Num(s[k..])
    decreases |s|
  {
    if k == |s| {
      assert s[..k] == s;
    } else {
      var front := s[..|s| - 1];
      NumSplits(front, k);
      assert front[..k] == s[..k] && front[k..] == s[k..][..|s| - k - 1];
      NextDigit(Num(s[..k]), Pow10(|s| - 1 - k), Num(front[k..]), (s[|s| - 1] - '0') as nat);
    }
  }

  lemma {:induction false} NextDigit(high: nat, power: nat, low: nat, d: nat)
    ensures (high * power + low) * 10 + d == high * (10 * power) + (low * 10 + d)
  {
  }

  /** The API's check that nothing is left below a microsecond looks at the seventh to
    * the ninth digit: the nanoseconds are a multiple of a thousand. */
  lemma {:induction false} WholeMicrosExactly(f: string)
    requires AllDigits(f)
    ensures O.WholeMicros(Excess(f)) <==> Num((f + "000000000")[..9]) % 1000 == 0
  {
    var nine := (f + "000000000")[..9];
    assert forall i | 0 <= i < 9 :: nine[i] == if i < |f| then f[i] else '0';
    LastThree(nine);
    ExcessIsZero(f, nine);
  }

  lemma {:induction false} LastThree(nine: string)
    requires AllDigits(nine) && |nine| == 9
    ensures Num(nine) % 1000 == 0 <==> nine[6] == nine[7] == nine[8] == '0'
  {
    var low := nine[6..];
    NumSplits(nine, 6);
    NumOfThree(low);
    assert Pow10(3) == 1000;
    assert low[0] == nine[6] && low[1] == nine[7] && low[2] == nine[8];
    LowDigits(Num(nine[..6]), (low[0] - '0') as nat, (low[1] - '0') as nat, (low[2] - '0') as nat);
  }

  lemma {:induction false} LowDigits(high: nat, a: nat, b: nat, c: nat)
    requires a < 10 && b < 10 && c < 10
    ensures (high * 1000 + (a * 100 + b * 10 + c)) % 1000 == 0 <==> a == b == c == 0
  {
    Quotient(high * 1000 + (a * 100 + b * 10 + c), 1000, high, a * 100 + b * 10 + c);
  }

  lemma {:induction false} ExcessIsZero(f: string, nine: string)
    requires |nine| == 9 && forall i | 0 <= i < 9 :: nine[i] == if i < |f| then f[i] else '0'
    ensures O.WholeMicros(Excess(f)) <==> nine[6] == nine[7] == nine[8] == '0'
  {
    if O.WholeMicros(Excess(f)) {
      forall i | 6 <= i < 9 ensures nine[i] == '0' {
        if i < |f| {
          assert Excess(f)[i - 6] == '0';
        }
      }
    } else {
      var i :| 0 <= i < |Excess(f)| && i < 3 && Excess(f)[i] != '0';
      assert nine[6 + i] == f[6 + i] != '0';
    }
  }

  // ---------------------------------------------------------------- the calendar

  lemma {:induction false} Quotient(n: int, d: nat, q: int, r: nat)
    requires r < d && n == d * q + r
    ensures n / d == q && n % d == r
  {
    var e := n / d - q;
    assert d * e == r - n % d;
    assert (e >= 1 ==> d * e >= d) && (e <= -1 ==> d * e + d <= 0);
  }

  /** Rounding up goes on after each multiple. */
  lemma {:induction false} QuotientStep(y: nat, d: nat)
    requires d > 0
    ensures (y + d) / d == (y + d - 1) / d + if y % d == 0 then 1 else 0
  {
    var q, r := y / d, y % d;
    Quotient(y + d, d, q + 1, r);
    if r == 0 {
      Quotient(y + d - 1, d, q, d - 1);
    } else {
      Quotient(y + d - 1, d, q + 1, r - 1);
    }
  }

  lemma {:induction false} CommonMultiples(y: nat)
    ensures y % 100 == 0 ==> y % 4 == 0
    ensures y % 400 == 0 ==> y % 100 == 0
  {
    if y % 100 == 0 {
      Quotient(y, 4, 25 * (y / 100), 0);
    }
    if y % 400 == 0 {
      Quotient(y, 100, 4 * (y / 400), 0);
    }
  }

  /** A leap year every four years, except for three in four hundred. */
  lemma {:induction false} GregorianYears(y: nat)
    ensures DaysBeforeYear(y) == 365 * y + (y + 3) / 4 - (y + 99) / 100 + (y + 399) / 400
  {
    if y > 0 {
      GregorianYears(y - 1);
      QuotientStep(y - 1, 4);
      QuotientStep(y - 1, 100);
      QuotientStep(y - 1, 400);
      CommonMultiples(y - 1);
    }
  }

  /** From March on months repeat every five, with 153 days. */
  function DaysToMonth(y: nat, m: nat): int {
    if m <= 2 then 31 * (m - 1)
    else (153 * (m - 3) + 2) / 5 + 59 + if y % 4 == 0 && (y % 100 != 0 || y % 400 == 0) then 1 else 0
  }

  lemma {:induction false} GregorianMonths(y: nat, m: nat)
    requires 1 <= m <= 12
    ensures DaysBeforeMonth(y, m) == DaysToMonth(y, m)
  {
    if m > 1 {
      GregorianMonths(y, m - 1);
    }
  }

  /** Days from 1 January 1970 on. */
  function UnixDay(d: Date): int {
    365 * d.year + (d.year + 3) / 4 - (d.year + 99) / 100 + (d.year + 399) / 400 + DaysToMonth(d.year, d.month)
    + d.day - 1 - 719528
  }

  /** Instants are Unix time in microseconds, counted from another origin: the days of
    * the Gregorian calendar since 1970, the time of day, less the offset. */
  lemma {:induction false} InstantIsUnixTime(s: Stamp)
    requires ValidStamp(s)
    ensures InstantOf(s) - YearStart(1970)
            == (UnixDay(s.date) * 86400 + s.hour * 3600 + s.minute * 60 + s.second - s.offset * 60) * 1_000_000
               + s.micros
  {
    DayIsUnixDay(s.date);
    var day, base := DayNumber(s.date), DaysBeforeYear(1970);
    assert day * MICROS_PER_DAY - base * MICROS_PER_DAY == (day - base) * 86400 * 1_000_000;
  }

  lemma {:induction false} DayIsUnixDay(d: Date)
    requires ValidDate(d)
    ensures DayNumber(d) - DaysBeforeYear(1970) == UnixDay(d)
  {
    GregorianYears(d.year);
    GregorianMonths(d.year, d.month);
    Epoch(1970);
  }

  lemma {:induction false} Epoch(y: nat)
    requires y == 1970
    ensures DaysBeforeYear(y) == 719528
  {
    GregorianYears(y);
  }
}
