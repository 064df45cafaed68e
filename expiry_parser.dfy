/**
 * The Time Parser of the sweeper: `parseExpireAtToMs` reads a loosely
 * formatted wall-clock string `YYYY[-/]M[-/]D[ T]H:MM[:SS]`, checks the
 * ranges of its fields and returns the instant of that wall-clock time at
 * the fixed offset UTC+8, in milliseconds since the Unix epoch.
 */
module ExpiryParser {
  import opened Wrappers
  import opened Text

  // ---------------------------------------------------------------------
  // The pattern ^(\d{4})[/-](\d{1,2})[/-](\d{1,2})[ T](\d{1,2}):(\d{2})(?::(\d{2}))?$
  // ---------------------------------------------------------------------

  /** What the pattern captures, together with the separators it accepted. */
  datatype Captures = Captures(
    year: string, dateSep1: char, month: string, dateSep2: char, day: string,
    timeSep: char, hour: string, minute: string, second: Option<string>)

  predicate IsDateSep(c: char) { c == '/' || c == '-' }
  predicate IsTimeSep(c: char) { c == ' ' || c == 'T' }

  /** The captures describe a string in the pattern's language. */
  predicate WellFormed(c: Captures) {
    && |c.year| == 4 && AllDigits(c.year)
    && 1 <= |c.month| <= 2 && AllDigits(c.month)
    && 1 <= |c.day| <= 2 && AllDigits(c.day)
    && 1 <= |c.hour| <= 2 && AllDigits(c.hour)
    && |c.minute| == 2 && AllDigits(c.minute)
    && (c.second.Some? ==> |c.second.value| == 2 && AllDigits(c.second.value))
    && IsDateSep(c.dateSep1) && IsDateSep(c.dateSep2) && IsTimeSep(c.timeSep)
  }

  function SecondsPart(second: Option<string>): string {
    if second.Some? then [':'] + second.value else []
  }

  function TimePart(hour: string, minute: string, second: Option<string>): string {
    hour + ([':'] + (minute + SecondsPart(second)))
  }

  function DayPart(day: string, timeSep: char, hour: string, minute: string, second: Option<string>): string {
    day + ([timeSep] + TimePart(hour, minute, second))
  }

  /** The string the captures were read from. */
  function Render(c: Captures): string {
    c.year + ([c.dateSep1] + (c.month + ([c.dateSep2]
      + DayPart(c.day, c.timeSep, c.hour, c.minute, c.second))))
  }

  /** The longest prefix of ASCII digits, and what follows it. */
  function SplitDigits(s: string): (p: (string, string))
    ensures p.0 + p.1 == s && AllDigits(p.0)
    ensures p.1 == [] || !IsDigit(p.1[0])
  {
    if s != [] && IsDigit(s[0]) then
      var q := SplitDigits(s[1..]);
      assert [s[0]] + q.0 + q.1 == s;
      ([s[0]] + q.0, q.1)
    else ([], s)
  }

  lemma {:induction false} SplitDigitsOf(d: string, rest: string)
    requires AllDigits(d) && (rest == [] || !IsDigit(rest[0]))
    ensures SplitDigits(d + rest) == (d, rest)
  {
    if d != [] {
      assert (d + rest)[1..] == d[1..] + rest;
      SplitDigitsOf(d[1..], rest);
      assert [d[0]] + d[1..] == d;
    } else {
      assert d + rest == rest;
    }
  }

  /** `(?::(\d{2}))?$`: nothing, or a colon and exactly two digits. */
  function MatchSeconds(s: string): (r: Option<Option<string>>)
    ensures r.Some? ==> SecondsPart(r.value) == s
    ensures r.Some? && r.value.Some? ==> |r.value.value| == 2 && AllDigits(r.value.value)
  {
    if s == [] then Some(None)
    else if s[0] != ':' then None
    else
      var (second, rest) := SplitDigits(s[1..]);
      if |second| != 2 || rest != [] then None
      else
        assert s == [':'] + second;
        Some(Some(second))
  }

  /** `(\d{1,2}):(\d{2})(?::(\d{2}))?$` */
  function MatchTime(s: string): (r: Option<(string, string, Option<string>)>)
    ensures r.Some? ==> TimePart(r.value.0, r.value.1, r.value.2) == s
    ensures r.Some? ==> 1 <= |r.value.0| <= 2 && AllDigits(r.value.0)
                        && |r.value.1| == 2 && AllDigits(r.value.1)
    ensures r.Some? && r.value.2.Some? ==> |r.value.2.value| == 2 && AllDigits(r.value.2.value)
  {
    var (hour, r1) := SplitDigits(s);
    if !(1 <= |hour| <= 2) || r1 == [] || r1[0] != ':' then None else
    var (minute, r2) := SplitDigits(r1[1..]);
    if |minute| != 2 then None else
    match MatchSeconds(r2)
    case None => None
    case Some(second) =>
      assert r1 == [':'] + (minute + r2);
      Some((hour, minute, second))
  }

  /** `(\d{1,2})[ T]` followed by the time. */
  function MatchDay(s: string): (r: Option<(string, char, string, string, Option<string>)>)
    ensures r.Some? ==> DayPart(r.value.0, r.value.1, r.value.2, r.value.3, r.value.4) == s
    ensures r.Some? ==> 1 <= |r.value.0| <= 2 && AllDigits(r.value.0) && IsTimeSep(r.value.1)
                        && 1 <= |r.value.2| <= 2 && AllDigits(r.value.2)
                        && |r.value.3| == 2 && AllDigits(r.value.3)
    ensures r.Some? && r.value.4.Some? ==> |r.value.4.value| == 2 && AllDigits(r.value.4.value)
  {
    var (day, r1) := SplitDigits(s);
    if !(1 <= |day| <= 2) || r1 == [] || !IsTimeSep(r1[0]) then None else
    match MatchTime(r1[1..])
    case None => None
    case Some(t) =>
      assert r1 == [r1[0]] + r1[1..];
      Some((day, r1[0], t.0, t.1, t.2))
  }

  /** The regular-expression match: the captures, or None when the string is not in the language. */
  function Match(s: string): (r: Option<Captures>)
    ensures r.Some? ==> WellFormed(r.value) && Render(r.value) == s
  {
    var (year, r1) := SplitDigits(s);
    if |year| != 4 || r1 == [] || !IsDateSep(r1[0]) then None else
    var (month, r2) := SplitDigits(r1[1..]);
    if !(1 <= |month| <= 2) || r2 == [] || !IsDateSep(r2[0]) then None else
    match MatchDay(r2[1..])
    case None => None
    case Some(d) =>
      assert r2 == [r2[0]] + r2[1..];
      assert r1 == [r1[0]] + (month + r2);
      Some(Captures(year, r1[0], month, r2[0], d.0, d.1, d.2, d.3, d.4))
  }

  lemma MatchSecondsRender(second: Option<string>)
    requires second.Some? ==> |second.value| == 2 && AllDigits(second.value)
    ensures MatchSeconds(SecondsPart(second)) == Some(second)
  {
    if second.Some? {
      assert SecondsPart(second)[1..] == second.value + [];
      SplitDigitsOf(second.value, []);
    }
  }

  lemma MatchTimeRender(hour: string, minute: string, second: Option<string>)
    requires 1 <= |hour| <= 2 && AllDigits(hour) && |minute| == 2 && AllDigits(minute)
    requires second.Some? ==> |second.value| == 2 && AllDigits(second.value)
    ensures MatchTime(TimePart(hour, minute, second)) == Some((hour, minute, second))
  {
    var r2 := SecondsPart(second);
    var r1 := [':'] + (minute + r2);
    SplitDigitsOf(hour, r1);
    assert r1[1..] == minute + r2;
    SplitDigitsOf(minute, r2);
    MatchSecondsRender(second);
  }

  lemma MatchDayRender(day: string, sep: char, hour: string, minute: string, second: Option<string>)
    requires 1 <= |day| <= 2 && AllDigits(day) && IsTimeSep(sep)
    requires 1 <= |hour| <= 2 && AllDigits(hour) && |minute| == 2 && AllDigits(minute)
    requires second.Some? ==> |second.value| == 2 && AllDigits(second.value)
    ensures MatchDay(DayPart(day, sep, hour, minute, second)) == Some((day, sep, hour, minute, second))
  {
    var r1 := [sep] + TimePart(hour, minute, second);
    SplitDigitsOf(day, r1);
    assert r1[1..] == TimePart(hour, minute, second);
    MatchTimeRender(hour, minute, second);
  }

  /** Every string of the pattern's language is matched, with exactly its own captures. */
  lemma MatchRender(c: Captures)
    requires WellFormed(c)
    ensures Match(Render(c)) == Some(c)
  {
    var r2 := [c.dateSep2] + DayPart(c.day, c.timeSep, c.hour, c.minute, c.second);
    var r1 := [c.dateSep1] + (c.month + r2);
    SplitDigitsOf(c.year, r1);
    assert r1[1..] == c.month + r2;
    SplitDigitsOf(c.month, r2);
    assert r2[1..] == DayPart(c.day, c.timeSep, c.hour, c.minute, c.second);
    MatchDayRender(c.day, c.timeSep, c.hour, c.minute, c.second);
  }

  // ---------------------------------------------------------------------
  // The instant of a wall-clock reading
  // ---------------------------------------------------------------------

  datatype WallClock = WallClock(year: int, month: int, day: int, hour: int, minute: int, second: int)

  const MsPerDay: int := 86_400_000
  /** The service's fixed offset, UTC+8, in milliseconds. */
  const OffsetMs: int := 8 * 3_600_000

  predicate IsLeapYear(y: int) { y % 4 == 0 && (y % 100 != 0 || y % 400 == 0) }

  function DaysInYear(y: int): int { if IsLeapYear(y) then 366 else 365 }

  function DaysInMonth(y: int, m: int): int {
    if m == 2 then (if IsLeapYear(y) then 29 else 28)
    else if m == 4 || m == 6 || m == 9 || m == 11 then 30
    else 31
  }

  /** Days from 0000-01-01 to the first of January of year `y` (proleptic Gregorian). */
  function DaysBeforeYear(y: nat): int {
    365 * y + (y + 3) / 4 - (y + 99) / 100 + (y + 399) / 400
  }

  /** Days from the first of January to the first of month `m` of year `y`. */
  function DaysBeforeMonth(y: int, m: int): int
    requires 1 <= m <= 12
  {
    [0, 31, 59, 90, 120, 151, 181, 212, 243, 273, 304, 334][m - 1]
    + (if m > 2 && IsLeapYear(y) then 1 else 0)
  }

  /**
   * ECMAScript's MakeDay: the day number, counted from 1970-01-01, of day `d`
   * of month `m`. Like MakeDay it does not reject a day past the end of the
   * month: the count simply runs on into the next month.
   */
  function EpochDay(y: nat, m: int, d: int): int
    requires 1 <= m <= 12
  {
    DaysBeforeYear(y) - DaysBeforeYear(1970) + DaysBeforeMonth(y, m) + d - 1
  }

  predicate InRange(w: WallClock) {
    && 0 <= w.year
    && 1 <= w.month <= 12 && 1 <= w.day <= 31
    && 0 <= w.hour <= 23 && 0 <= w.minute <= 59 && 0 <= w.second <= 59
  }

  /** A reading that also names a real calendar day. */
  predicate CalendarValid(w: WallClock) {
    InRange(w) && w.day <= DaysInMonth(w.year, w.month)
  }

  function TimeOfDayMs(w: WallClock): int {
    ((w.hour * 60 + w.minute) * 60 + w.second) * 1000
  }

  /** The instant of the reading taken as UTC. */
  function UtcMs(w: WallClock): int
    requires InRange(w)
  {
    EpochDay(w.year, w.month, w.day) * MsPerDay + TimeOfDayMs(w)
  }

  /** Date.parse of `YYYY-MM-DDTHH:mm:ss+08:00`: the reading taken at UTC+8. */
  function InstantAtUtc8(w: WallClock): int
    requires InRange(w)
  {
    UtcMs(w) - OffsetMs
  }

  /**
   * The same moment read on a UTC clock: eight hours earlier, borrowing a
   * day, a month or a year when the hour is before eight.
   */
  function UtcReading(w: WallClock): (u: WallClock)
    requires CalendarValid(w) && (w.year >= 1 || w.month > 1 || w.day > 1 || w.hour >= 8)
    ensures CalendarValid(u) && u.minute == w.minute && u.second == w.second
  {
    if w.hour >= 8 then w.(hour := w.hour - 8)
    else if w.day > 1 then w.(day := w.day - 1, hour := w.hour + 16)
    else if w.month > 1 then
      w.(month := w.month - 1, day := DaysInMonth(w.year, w.month - 1), hour := w.hour + 16)
    else WallClock(w.year - 1, 12, 31, w.hour + 16, w.minute, w.second)
  }

  /** A reading at UTC+8 denotes the instant of its UTC reading taken as UTC. */
  lemma InstantIsUtcReading(w: WallClock)
    requires CalendarValid(w) && (w.year >= 1 || w.month > 1 || w.day > 1 || w.hour >= 8)
    ensures InstantAtUtc8(w) == UtcMs(UtcReading(w))
  {
    if w.hour < 8 && w.day == 1 {
      if w.month > 1 {
        MonthStep(w.year, w.month - 1);
      } else {
        YearStep(w.year - 1);
      }
    }
  }

  function FieldsOf(c: Captures): WallClock
    requires WellFormed(c)
  {
    WallClock(DigitsValue(c.year), DigitsValue(c.month), DigitsValue(c.day),
              DigitsValue(c.hour), DigitsValue(c.minute),
              if c.second.Some? then DigitsValue(c.second.value) else 0)
  }

  /**
   * parseExpireAtToMs. Number() of an ASCII digit string is always finite,
   * so the finiteness check of the source can never fail here; the ISO
   * string handed to Date.parse is well formed whenever the ranges hold.
   */
  function ParseExpireAt(value: Option<string>): (r: Option<int>)
    // an instant comes only from a trimmed string of the pattern's language with every field in range
    ensures r.Some? ==> exists c :: && WellFormed(c) && Render(c) == Trim(value.GetOr(""))
                                    && InRange(FieldsOf(c)) && r.value == InstantAtUtc8(FieldsOf(c))
  {
    ParseTrimmed(Trim(value.GetOr("")))
  }

  /** parseExpireAtToMs from the trimmed string on. */
  function ParseTrimmed(raw: string): (r: Option<int>)
    // an instant comes only from a string of the pattern's language with every field in range
    ensures r.Some? ==> exists c :: && WellFormed(c) && Render(c) == raw
                                    && InRange(FieldsOf(c)) && r.value == InstantAtUtc8(FieldsOf(c))
  {
    if raw == [] then None
    else match Match(raw)
      case None => None
      case Some(c) =>
        var w := FieldsOf(c);
        if w.month < 1 || w.month > 12 then None
        else if w.day < 1 || w.day > 31 then None
        else if w.hour < 0 || w.hour > 23 then None
        else if w.minute < 0 || w.minute > 59 || w.second < 0 || w.second > 59 then None
        else Some(InstantAtUtc8(w))
  }

  // ---------------------------------------------------------------------
  // Properties
  // ---------------------------------------------------------------------

  /**
   * For a string of the pattern's language, possibly surrounded by white space:
   * an instant exactly when every field is in range, and then the reading at UTC+8.
   */
  lemma {:induction false} ParseOfRender(c: Captures, before: string, after: string)
    requires WellFormed(c)
    requires forall i :: 0 <= i < |before| ==> IsSpace(before[i])
    requires forall i :: 0 <= i < |after| ==> IsSpace(after[i])
    ensures ParseExpireAt(Some(before + Render(c) + after))
         == if InRange(FieldsOf(c)) then Some(InstantAtUtc8(FieldsOf(c))) else None
  {
    var s := Render(c);
    assert s[0] == c.year[0];
    assert !IsSpace(s[|s| - 1]) by {
      if c.second.Some? {
        assert s[|s| - 1] == c.second.value[1];
      } else {
        assert s[|s| - 1] == c.minute[1];
      }
    }
    TrimSurrounded(before, s, after);
    TrimmedOfRender(c);
  }

  /** A string of the pattern's language yields an instant exactly when every field is in range. */
  lemma TrimmedOfRender(c: Captures)
    requires WellFormed(c)
    ensures ParseTrimmed(Render(c)) == if InRange(FieldsOf(c)) then Some(InstantAtUtc8(FieldsOf(c))) else None
  {
    assert Render(c)[0] == c.year[0];
    MatchRender(c);
  }

  /** The same, for the rendered string alone. */
  lemma ParseOfRendered(c: Captures)
    requires WellFormed(c)
    ensures ParseExpireAt(Some(Render(c))) == if InRange(FieldsOf(c)) then Some(InstantAtUtc8(FieldsOf(c))) else None
  {
    ParseOfRender(c, [], []);
    assert [] + Render(c) + [] == Render(c);
  }

  /** Empty or blank input yields no instant. */
  lemma BlankIsNone(value: Option<string>)
    requires forall i :: 0 <= i < |value.GetOr("")| ==> IsSpace(value.GetOr("")[i])
    ensures ParseExpireAt(value) == None
  {
    TrimEmptyIff(value.GetOr(""));
  }

  /** A missing seconds field means zero seconds. */
  lemma MissingSecondsIsZero(c: Captures)
    requires WellFormed(c) && c.second.None?
    ensures ParseExpireAt(Some(Render(c))) == ParseExpireAt(Some(Render(c.(second := Some("00")))))
  {
    var c' := c.(second := Some("00"));
    assert DigitsValue("00") == 0 by { assert "00"[..1] == "0"; }
    assert FieldsOf(c') == FieldsOf(c);
    ParseOfRendered(c);
    ParseOfRendered(c');
  }

  /** Day `d` of month `m` starts exactly where month `m` ends, for every month length. */
  lemma MonthStep(y: int, m: int)
    requires 1 <= m < 12
    ensures DaysBeforeMonth(y, m + 1) == DaysBeforeMonth(y, m) + DaysInMonth(y, m)
  {
  }

  lemma {:induction false} MulAtLeast(d: nat, k: nat)
    requires k >= 1
    ensures d * k >= d
  {
    if k > 1 {
      MulAtLeast(d, k - 1);
      assert d * k == d * (k - 1) + d;
    }
  }

  /** `x / d == q` and `x % d == r` when `x == d * q + r` with `0 <= r < d`. */
  lemma DivMod(x: int, d: nat, q: int, r: int)
    requires 0 < d && 0 <= r < d && x == d * q + r
    ensures x / d == q && x % d == r
  {
    var q', r' := x / d, x % d;
    if q' < q {
      assert d * (q - q') == r' - r;
      MulAtLeast(d, q - q');
    } else if q' > q {
      assert d * (q' - q) == r - r';
      MulAtLeast(d, q' - q);
    }
  }

  /** How `(y + d - 1) / d` moves from `y` to `y + 1`: up by one exactly when `d` divides `y`. */
  lemma CeilStep(y: nat, d: nat)
    requires 0 < d
    ensures (y + d) / d - (y + d - 1) / d == (if y % d == 0 then 1 else 0)
  {
    var q, r := y / d, y % d;
    DivMod(y + d, d, q + 1, r);
    if r == 0 {
      DivMod(y + d - 1, d, q, d - 1);
    } else {
      DivMod(y + d - 1, d, q + 1, r - 1);
    }
  }

  /** One more year adds that year's length to the day count. */
  lemma YearStep(y: nat)
    ensures DaysBeforeYear(y + 1) == DaysBeforeYear(y) + DaysInYear(y)
  {
    CeilStep(y, 4);
    CeilStep(y, 100);
    CeilStep(y, 400);
    if y % 100 == 0 {
      DivMod(y, 4, 25 * (y / 100), 0);
    }
    if y % 400 == 0 {
      DivMod(y, 100, 4 * (y / 400), 0);
    }
  }

  lemma {:induction false} YearsIncrease(y: nat, y': nat)
    requires y < y'
    ensures DaysBeforeYear(y) + DaysInYear(y) <= DaysBeforeYear(y')
    decreases y' - y
  {
    YearStep(y);
    if y + 1 < y' {
      YearsIncrease(y + 1, y');
    }
  }

  /** The last day of a month ends no later than the last day of the year. */
  lemma {:induction false} MonthWithinYear(y: int, m: int)
    requires 1 <= m <= 12
    ensures DaysBeforeMonth(y, m) + DaysInMonth(y, m) <= DaysInYear(y)
  {
  }

  lemma {:induction false} MonthsIncrease(y: int, m: int, m': int)
    requires 1 <= m < m' <= 12
    ensures DaysBeforeMonth(y, m) + DaysInMonth(y, m) <= DaysBeforeMonth(y, m')
    decreases m' - m
  {
    MonthStep(y, m);
    if m + 1 < m' {
      MonthsIncrease(y, m + 1, m');
    }
  }

  /** Lexicographic order of readings. */
  predicate Earlier(a: WallClock, b: WallClock) {
    if a.year != b.year then a.year < b.year
    else if a.month != b.month then a.month < b.month
    else if a.day != b.day then a.day < b.day
    else if a.hour != b.hour then a.hour < b.hour
    else if a.minute != b.minute then a.minute < b.minute
    else a.second < b.second
  }

  /** On real calendar dates the instant preserves the order of wall-clock readings. */
  lemma {:induction false} InstantMonotonic(a: WallClock, b: WallClock)
    requires CalendarValid(a) && CalendarValid(b) && Earlier(a, b)
    ensures InstantAtUtc8(a) < InstantAtUtc8(b)
  {
    var da := EpochDay(a.year, a.month, a.day);
    var db := EpochDay(b.year, b.month, b.day);
    if a.year < b.year {
      MonthWithinYear(a.year, a.month);
      YearsIncrease(a.year, b.year);
      assert da < db;
    } else if a.year == b.year && a.month < b.month {
      MonthsIncrease(a.year, a.month, b.month);
      assert da < db;
    } else if a.year == b.year && a.month == b.month && a.day < b.day {
      assert da < db;
    } else {
      assert da == db;
    }
    assert 0 <= TimeOfDayMs(a) < MsPerDay && 0 <= TimeOfDayMs(b) < MsPerDay;
  }

  /** The instant of midnight 2024-01-01 at UTC+8, a fixed point on the real time line. */
  lemma NewYear2024()
    ensures ParseExpireAt(Some("2024-01-01 00:00")) == Some(1_704_038_400_000)
  {
    var c := Captures("2024", '-', "01", '-', "01", ' ', "00", "00", None);
    assert Render(c) == "2024-01-01 00:00";
    assert WellFormed(c);
    assert FieldsOf(c) == WallClock(2024, 1, 1, 0, 0, 0) by {
      assert DigitsValue("00") == 0 by { assert "00"[..1] == "0"; }
      assert DigitsValue("01") == 1 by { assert "01"[..1] == "0"; }
      assert DigitsValue("2024") == 2024 by {
        assert "2024"[..3] == "202" && "202"[..2] == "20" && "20"[..1] == "2";
      }
    }
    assert InstantAtUtc8(WallClock(2024, 1, 1, 0, 0, 0)) == 1_704_038_400_000;
    ParseOfRendered(c);
  }

  /** The epoch itself: 08:00 on 1970-01-01 at UTC+8. */
  lemma Epoch()
    ensures ParseExpireAt(Some("1970/1/1T8:00:00")) == Some(0)
  {
    var c := Captures("1970", '/', "1", '/', "1", 'T', "8", "00", Some("00"));
    assert Render(c) == "1970/1/1T8:00:00";
    assert WellFormed(c);
    assert FieldsOf(c) == WallClock(1970, 1, 1, 8, 0, 0) by {
      assert DigitsValue("00") == 0 by { assert "00"[..1] == "0"; }
      assert DigitsValue("1970") == 1970 by {
        assert "1970"[..3] == "197" && "197"[..2] == "19" && "19"[..1] == "1";
      }
    }
    assert InstantAtUtc8(WallClock(1970, 1, 1, 8, 0, 0)) == 0;
    ParseOfRendered(c);
  }

  /**
   * A day past the end of the month is not rejected: the 31st of February
   * 2023 is read as the 3rd of March, as Date.parse does in the JavaScript
   * engine the backend runs on.
   */
  lemma DayOverflowRollsOver()
    ensures InstantAtUtc8(WallClock(2023, 2, 31, 0, 0, 0)) == InstantAtUtc8(WallClock(2023, 3, 3, 0, 0, 0))
    ensures !CalendarValid(WallClock(2023, 2, 31, 0, 0, 0))
  {
  }
}
