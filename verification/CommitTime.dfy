/** Author dates as text: gmtime, timegm, and the printer and scanner built on them. */
module CommitTime {
  import opened Wrappers
  import opened Strings

  datatype Time = Time(time: int, offset: int)

  /** A broken-down time, as in C's struct tm but with the full year. */
  datatype Tm = Tm(year: int, mon: nat, mday: int, hour: int, min: int, sec: int, wday: int)

  const WEEKDAYS: seq<string> := ["Sun", "Mon", "Tue", "Wed", "Thu", "Fri", "Sat"]
  const MONTHS: seq<string> := ["Jan", "Feb", "Mar", "Apr", "May", "Jun", "Jul", "Aug", "Sep", "Oct", "Nov", "Dec"]

  // ----- the Gregorian calendar -----

  predicate Leap(y: int) {
    y % 4 == 0 && (y % 100 != 0 || y % 400 == 0)
  }

  /** Days from the start of year 1 to the start of year `y`, up to a constant. */
  function YearStart(y: int): int {
    365 * y + (y - 1) / 4 - (y - 1) / 100 + (y - 1) / 400
  }

  /** Days from the start of a year to the start of its month `m`. */
  function MonthStart(leap: bool, m: nat): nat
    requires m <= 12
  {
    (if m == 0 then 0 else if m == 1 then 31 else if m == 2 then 59 else if m == 3 then 90 else if m == 4 then 120
     else if m == 5 then 151 else if m == 6 then 181 else if m == 7 then 212 else if m == 8 then 243
     else if m == 9 then 273 else if m == 10 then 304 else if m == 11 then 334 else 365)
    + (if leap && m >= 2 then 1 else 0)
  }

  lemma DivisionStep(y: int, d: int)
    requires d == 4 || d == 100 || d == 400
    ensures y / d - (y - 1) / d == if y % d == 0 then 1 else 0
  {
    if d == 4 {
    } else if d == 100 {
    } else {
    }
  }

  lemma LeapYears(y: int)
    ensures y % 100 == 0 ==> y % 4 == 0
    ensures y % 400 == 0 ==> y % 100 == 0
  {
    if y % 100 == 0 {
      Multiples(25 * (y / 100));
      assert y == 4 * (25 * (y / 100));
    }
    if y % 400 == 0 {
      Multiples(4 * (y / 400));
      assert y == 100 * (4 * (y / 400));
    }
  }

  lemma Multiples(k: int)
    ensures (4 * k) % 4 == 0 && (100 * k) % 100 == 0
  {
  }

  lemma YearLength(y: int)
    ensures YearStart(y + 1) - YearStart(y) == MonthStart(Leap(y), 12)
  {
    DivisionStep(y, 4);
    DivisionStep(y, 100);
    DivisionStep(y, 400);
    LeapYears(y);
  }

  lemma YearGrows(y: int)
    ensures YearStart(y) < YearStart(y + 1)
  {
    hide YearStart;
    YearLength(y);
  }

  /** The year a day lies in, looking from year `y`. */
  function YearOf(day: int, y: int): (r: int)
    ensures YearStart(r) <= day < YearStart(r + 1)
    decreases if day < YearStart(y) then YearStart(y) - day else day - YearStart(y)
  {
    YearGrows(y);
    YearGrows(y - 1);
    if day < YearStart(y) then
      if YearStart(y - 1) <= day then y - 1 else YearOf(day, y - 1)
    else if day < YearStart(y + 1) then y
    else YearOf(day, y + 1)
  }

  function MonthOf(leap: bool, day: nat, m: nat): (r: nat)
    requires m < 12 && MonthStart(leap, m) <= day < MonthStart(leap, 12)
    ensures r < 12 && MonthStart(leap, r) <= day < MonthStart(leap, r + 1)
    decreases 12 - m
  {
    if day < MonthStart(leap, m + 1) then m else MonthOf(leap, day, m + 1)
  }

  const EPOCH_DAY: int := YearStart(1970)

  /** C's timegm: seconds since 1970, with days, hours, minutes and seconds outside of their range carried over. */
  function TimeGm(tm: Tm): int
    requires tm.mon < 12
  {
    (YearStart(tm.year) + MonthStart(Leap(tm.year), tm.mon) + tm.mday - 1 - EPOCH_DAY) * 86400
      + tm.hour * 3600 + tm.min * 60 + tm.sec
  }

  predicate InRange(tm: Tm) {
    tm.mon < 12 && 1 <= tm.mday <= 31 && 0 <= tm.hour < 24 && 0 <= tm.min < 60 && 0 <= tm.sec < 60 && 0 <= tm.wday < 7
  }

  lemma SplitSeconds(s: int)
    requires 0 <= s < 86400
    ensures s == s / 3600 * 3600 + s / 60 % 60 * 60 + s % 60 && 0 <= s / 3600 < 24
  {
    assert s / 60 / 60 == s / 3600;
    assert s / 60 == s / 60 / 60 * 60 + s / 60 % 60;
  }

  /** The date of a day: year, month and day of the month. */
  function DateOf(day: int): (d: (int, nat, int))
    ensures d.1 < 12 && 1 <= d.2 <= 31
    ensures YearStart(d.0) + MonthStart(Leap(d.0), d.1) + d.2 - 1 == day
  {
    var y := YearOf(day, 1970);
    YearLength(y);
    var m := MonthOf(Leap(y), day - YearStart(y), 0);
    (y, m, day - YearStart(y) - MonthStart(Leap(y), m) + 1)
  }

  /** C's gmtime. */
  function GmTime(t: int): (tm: Tm)
    ensures InRange(tm) && TimeGm(tm) == t
  {
    var (y, m, d) := DateOf(t / 86400 + EPOCH_DAY);
    var s := t % 86400;
    SplitSeconds(s);
    Tm(y, m, d, s / 3600, s / 60 % 60, s % 60, (t / 86400 + 4) % 7)
  }

  // ----- the calendar, day by day -----

  /** Thirty days have September, April, June and November. */
  function DaysIn(mon: nat, leap: bool): nat {
    if mon == 1 then if leap then 29 else 28
    else if mon == 3 || mon == 5 || mon == 8 || mon == 10 then 30
    else 31
  }

  lemma MonthLength(leap: bool, m: nat)
    requires m < 12
    ensures MonthStart(leap, m + 1) - MonthStart(leap, m) == DaysIn(m, leap)
  {
  }

  lemma {:induction false} YearsGrow(a: int, b: int)
    requires a < b
    ensures YearStart(a) < YearStart(b)
    decreases b - a
  {
    hide YearStart;
    YearGrows(b - 1);
    if a < b - 1 {
      YearsGrow(a, b - 1);
    }
  }

  /** A day has one date. */
  lemma DateIs(day: int, y: int, m: nat, d: int)
    requires m < 12 && 1 <= d <= DaysIn(m, Leap(y)) && YearStart(y) + MonthStart(Leap(y), m) + d - 1 == day
    ensures DateOf(day) == (y, m, d)
  {
    hide YearStart, YearOf, MonthOf, Leap;
    YearLength(y);
    MonthLength(Leap(y), m);
    var y' := YearOf(day, 1970);
    assert YearStart(y) <= day < YearStart(y + 1) by {
      assert 0 <= MonthStart(Leap(y), m) && MonthStart(Leap(y), m + 1) <= MonthStart(Leap(y), 12);
    }
    if y + 1 < y' {
      YearsGrow(y + 1, y');
    } else if y' + 1 < y {
      YearsGrow(y' + 1, y);
    }
  }

  /** The day after: the next one of the month, the first of the next month, or the first of January. */
  lemma DateAfter(day: int)
    ensures var (y, m, d) := DateOf(day);
            DateOf(day + 1) == if d < DaysIn(m, Leap(y)) then (y, m, d + 1)
                               else if m < 11 then (y, m + 1, 1)
                               else (y + 1, 0, 1)
  {
    hide YearStart, YearOf, MonthOf, Leap, DateOf;
    var (y, m, d) := DateOf(day);
    YearLength(y);
    MonthLength(Leap(y), m);
    assert d <= DaysIn(m, Leap(y)) by { DateInMonth(day); }
    if d < DaysIn(m, Leap(y)) {
      DateIs(day + 1, y, m, d + 1);
    } else if m < 11 {
      DateIs(day + 1, y, m + 1, 1);
    } else {
      DateIs(day + 1, y + 1, 0, 1);
    }
  }

  lemma DateInMonth(day: int)
    ensures var (y, m, d) := DateOf(day); d <= DaysIn(m, Leap(y))
  {
    hide YearStart, YearOf, Leap;
    var (y, m, d) := DateOf(day);
    YearLength(y);
    MonthLength(Leap(y), m);
  }

  /** Every day that follows another one is the next day of the calendar and of the week, and the first of January 1970
      was a Thursday. With the time of the day given by the seconds, this is all there is to the calendar. */
  lemma NextDay(t: int)
    ensures GmTime(0) == Tm(1970, 0, 1, 0, 0, 0, 4)
    ensures var a, b := GmTime(t), GmTime(t + 86400);
            && b.hour == a.hour && b.min == a.min && b.sec == a.sec && b.wday == (a.wday + 1) % 7
            && (b.year, b.mon, b.mday) == if a.mday < DaysIn(a.mon, Leap(a.year)) then (a.year, a.mon, a.mday + 1)
                                          else if a.mon < 11 then (a.year, a.mon + 1, 1)
                                          else (a.year + 1, 0, 1)
    ensures var a := GmTime(t); t % 86400 == a.hour * 3600 + a.min * 60 + a.sec
  {
    hide YearStart, MonthStart, DateOf, DaysIn, Leap;
    assert (t + 86400) / 86400 == t / 86400 + 1 && (t + 86400) % 86400 == t % 86400;
    assert t / 86400 + 1 + EPOCH_DAY == (t / 86400 + EPOCH_DAY) + 1;
    DateAfter(t / 86400 + EPOCH_DAY);
    SplitSeconds(t % 86400);
    assert DateOf(EPOCH_DAY) == (1970, 0, 1) by { DateOfEpoch(); }
  }

  lemma DateOfEpoch()
    ensures DateOf(EPOCH_DAY) == (1970, 0, 1)
  {
    DateIs(EPOCH_DAY, 1970, 0, 1);
  }

  // ----- decimal numbers -----

  predicate IsDigit(c: char) {
    '0' <= c <= '9'
  }

  function Digits(n: nat): (s: string)
    ensures s != [] && forall c :: c in s ==> IsDigit(c)
    ensures Value(s) == n
  {
    var d := ['0' + (n % 10) as char];
    if n < 10 then
      assert d[..0] == [];
      d
    else
      var high := Digits(n / 10);
      assert (high + d)[..|high + d| - 1] == high;
      high + d
  }

  function Value(s: string): nat
    requires forall c :: c in s ==> IsDigit(c)
  {
    if s == [] then 0 else
      assert s[|s| - 1] in s && IsDigit(s[|s| - 1]);
      Value(s[..|s| - 1]) * 10 + (s[|s| - 1] as int - '0' as int)
  }

  function Zeros(n: int): (s: string)
    ensures forall i :: 0 <= i < |s| ==> s[i] == '0'
    ensures |s| == if n < 0 then 0 else n
  {
    seq(if n < 0 then 0 else n, _ => '0')
  }

  lemma {:induction false} ValueZeros(zeros: string, s: string)
    requires forall i :: 0 <= i < |zeros| ==> zeros[i] == '0'
    requires forall c :: c in s ==> IsDigit(c)
    ensures Value(zeros + s) == Value(s)
  {
    if s != [] {
      assert (zeros + s)[..|zeros + s| - 1] == zeros + s[..|s| - 1];
      ValueZeros(zeros, s[..|s| - 1]);
    } else if zeros != [] {
      assert zeros + s == zeros;
      ValueZeros(zeros[..|zeros| - 1], []);
      assert zeros[..|zeros| - 1] + [] == zeros[..|zeros| - 1];
    } else {
      assert zeros + s == [];
    }
  }

  /** The digits printf produces for the magnitude of a number, in at least `width` columns. */
  function Padded(n: nat, width: int): (s: string)
    ensures s != [] && (forall c :: c in s ==> IsDigit(c)) && Value(s) == n
    ensures 0 <= n < 100 && width == 2 ==> |s| == 2
  {
    var d := Digits(n);
    ValueZeros(Zeros(width - |d|), d);
    assert n < 10 ==> |d| == 1;
    assert 10 <= n < 100 ==> |Digits(n / 10)| == 1 && |d| == 2;
    Zeros(width - |d|) + d
  }

  /** printf's %d with zero padding to `width` columns, sign included, and an explicit plus sign if `plus`. */
  function Format(n: int, width: int, plus: bool): string {
    if n < 0 then "-" + Padded(-n, width - 1)
    else if plus then "+" + Padded(n, width - 1)
    else Padded(n, width)
  }

  // ----- printing -----

  function Abs(n: int): nat {
    if n < 0 then -n else n
  }

  /** C's division and remainder, which truncate towards zero. */
  function DivC(n: int, d: int): int
    requires d > 0
  {
    if n < 0 then -(-n / d) else n / d
  }

  function ModC(n: int, d: int): int
    requires d > 0
  {
    n - d * DivC(n, d)
  }

  function OffsetText(offset: int): string {
    Format(DivC(offset, 60), 3, true) + Format(ModC(offset, 60), 2, false)
  }

  /** printf of "%02d:%02d:%02d". */
  function ClockText(tm: Tm, rest: string): string {
    Format(tm.hour, 2, false) + (":" + (Format(tm.min, 2, false) + (":" + (Format(tm.sec, 2, false) + rest))))
  }

  /** printf of "%s %s %d %02d:%02d:%02d %04d %+03d%02d". */
  function TmText(tm: Tm, offset: string): string
    requires InRange(tm)
  {
    WEEKDAYS[tm.wday] + (" " + (MONTHS[tm.mon] + (" " + (Format(tm.mday, 0, false) + (" " +
      ClockText(tm, " " + (Format(tm.year, 4, false) + (" " + offset))))))))
  }

  function StringFromTime(t: Time): string {
    TmText(GmTime(t.time + t.offset * 60), OffsetText(t.offset))
  }

  /** How a date is printed, at an hour and a half past the start of 1970. */
  lemma PrintedEpoch()
    ensures StringFromTime(Time(0, 90)) == "Thu Jan 1 01:30:00 1970 +0130"
  {
    hide GmTime, Format, OffsetText, ClockText;
    EpochTm();
    OneThirty();
    FormatExamples();
    DateGlued();
  }

  lemma DateGlued()
    ensures "1970" + (" " + "+0130") == "1970 +0130" && " " + "1970 +0130" == " 1970 +0130"
    ensures "Thu" + (" " + ("Jan" + (" " + ("1" + (" " + "01:30:00 1970 +0130"))))) == "Thu Jan 1 01:30:00 1970 +0130"
  {
  }

  lemma OneThirty()
    ensures OffsetText(90) == "+0130"
    ensures ClockText(Tm(1970, 0, 1, 1, 30, 0, 4), " 1970 +0130") == "01:30:00 1970 +0130"
  {
    hide Format, DivC, ModC;
    assert DivC(90, 60) == 1 && ModC(90, 60) == 30 by { NinetyMinutes(); }
    FormatExamples();
    assert "+01" + "30" == "+0130";
    assert "01" + (":" + ("30" + (":" + ("00" + " 1970 +0130")))) == "01:30:00 1970 +0130";
  }

  lemma NinetyMinutes()
    ensures DivC(90, 60) == 1 && ModC(90, 60) == 30
  {
  }

  lemma EpochTm()
    ensures GmTime(5400) == Tm(1970, 0, 1, 1, 30, 0, 4)
  {
    hide DateOf, TimeGm, InRange, YearStart;
    DateOfEpoch();
    assert 5400 / 86400 == 0 && 5400 % 86400 == 5400;
  }

  lemma FormatExamples()
    ensures Format(1, 0, false) == "1" && Format(1, 2, false) == "01" && Format(30, 2, false) == "30"
    ensures Format(0, 2, false) == "00" && Format(1970, 4, false) == "1970" && Format(1, 3, true) == "+01"
  {
    hide Digits;
    DigitsExamples();
    assert Zeros(1) == "0" && Zeros(0) == "" && Zeros(-1) == "" && Zeros(-2) == "";
  }

  lemma DigitsExamples()
    ensures Digits(0) == "0" && Digits(1) == "1" && Digits(30) == "30" && Digits(1970) == "1970"
  {
    assert Digits(3) == "3";
    assert Digits(19) == "19";
    assert Digits(197) == "197";
  }

  // ----- scanning -----

  /** The longest prefix of `s`, of at most `max` characters, that satisfies `p`. */
  function TakeWhile(s: string, p: char -> bool, max: nat): (r: string)
    ensures r <= s && forall c :: c in r ==> p(c)
  {
    if s != [] && max > 0 && p(s[0]) then [s[0]] + TakeWhile(s[1..], p, max - 1) else []
  }

  /** sscanf's %15s. */
  function ScanWord(s: string): Option<(string, string)> {
    var t := TrimLeft(s);
    var w := TakeWhile(t, c => !IsSpace(c), 15);
    if w == [] then None else Some((w, t[|w|..]))
  }

  /** sscanf's %d. */
  function ScanInt(s: string): Option<(int, string)> {
    var t := TrimLeft(s);
    if t != [] && t[0] == '-' then ScanDigits(-1, t[1..])
    else if t != [] && t[0] == '+' then ScanDigits(1, t[1..])
    else ScanDigits(1, t)
  }

  function ScanDigits(sign: int, t: string): Option<(int, string)> {
    var d := TakeWhile(t, IsDigit, |t|);
    if d == [] then None else Some((sign * Value(d), t[|d|..]))
  }

  function ScanColon(s: string): Option<string> {
    if s != [] && s[0] == ':' then Some(s[1..]) else None
  }

  /** sscanf of " %d:%d:%d". */
  function ScanClock(s: string): Option<(int, int, int, string)> {
    match ScanInt(s) case None => None case Some((hour, s1)) =>
    match ScanColon(s1) case None => None case Some(s2) =>
    match ScanInt(s2) case None => None case Some((min, s3)) =>
    match ScanColon(s3) case None => None case Some(s4) =>
    match ScanInt(s4) case None => None case Some((sec, s5)) =>
    Some((hour, min, sec, s5))
  }

  /** sscanf of "%15s %15s %d". */
  function ScanDay(s: string): Option<(string, string, int, string)> {
    match ScanWord(s) case None => None case Some((weekday, s1)) =>
    match ScanWord(s1) case None => None case Some((month, s2)) =>
    match ScanInt(s2) case None => None case Some((mday, s3)) =>
    Some((weekday, month, mday, s3))
  }

  datatype Scanned = Scanned(weekday: string, month: string, mday: int, hour: int, min: int, sec: int, year: int,
      offset: int)

  /** sscanf of "%15s %15s %d %d:%d:%d %d %d"; None when fewer than eight items are assigned. */
  function Scan(s: string): Option<Scanned> {
    match ScanDay(s) case None => None case Some((weekday, month, mday, s1)) =>
    match ScanClock(s1) case None => None case Some((hour, min, sec, s2)) =>
    match ScanInt(s2) case None => None case Some((year, s3)) =>
    match ScanInt(s3) case None => None case Some((offset, _)) =>
    Some(Scanned(weekday, month, mday, hour, min, sec, year, offset))
  }

  function Cap3(s: string): string {
    if |s| <= 3 then s else s[..3]
  }

  /** Where `s` stands in a table of names. */
  function IndexIn(s: string, names: seq<string>): (i: Option<nat>)
    ensures i.Some? ==> i.value < |names| && names[i.value] == s
    ensures i.None? ==> s !in names
  {
    if names == [] then None
    else if names[0] == s then Some(0)
    else match IndexIn(s, names[1..]) case None => None case Some(i) => Some(i + 1)
  }

  /** Undoes the printed form of the offset: hours in the hundreds, minutes below. */
  function OffsetFromNumber(n: int): int {
    (if n >= 0 then 1 else -1) * (Abs(n) / 100) * 60 + Abs(n) % 100
  }

  function TimeFromScanned(x: Scanned): Option<Time> {
    match IndexIn(Cap3(x.month), MONTHS)
    case None => None
    case Some(mon) =>
      if IndexIn(Cap3(x.weekday), WEEKDAYS).None? then None else
      var offset := OffsetFromNumber(x.offset);
      var t := TimeGm(Tm(x.year, mon, x.mday, x.hour, x.min, x.sec, 0));
      if t == -1 then None else Some(Time(t - offset * 60, offset))
  }

  /** None stands for the exception the parser throws. */
  function TimeFromString(s: string): Option<Time> {
    match Scan(s) case None => None case Some(x) => TimeFromScanned(x)
  }

  // ----- scanning what was printed -----

  lemma {:induction false} TakeWhileAll(a: string, p: char -> bool, rest: string, max: nat)
    requires forall c :: c in a ==> p(c)
    requires |a| <= max && (|a| == max || rest == [] || !p(rest[0]))
    ensures TakeWhile(a + rest, p, max) == a
  {
    if a == [] {
      assert a + rest == rest;
    } else {
      assert (a + rest)[1..] == a[1..] + rest;
      TakeWhileAll(a[1..], p, rest, max - 1);
    }
  }

  /** An optional space before a text that starts with something else is skipped. */
  lemma SkipSpace(space: string, t: string)
    requires space == "" || space == " "
    requires t != [] && !IsSpace(t[0])
    ensures TrimLeft(space + t) == t
  {
    if space == " " {
      assert (space + t)[1..] == t;
    } else {
      assert space + t == t;
    }
  }

  lemma ScanDigitsAll(sign: int, d: string, rest: string)
    requires d != [] && forall c :: c in d ==> IsDigit(c)
    requires rest == [] || !IsDigit(rest[0])
    ensures ScanDigits(sign, d + rest) == Some((sign * Value(d), rest))
  {
    TakeWhileAll(d, IsDigit, rest, |d + rest|);
  }

  lemma ScanSigned(space: string, c: char, sign: int, d: string, rest: string)
    requires space == "" || space == " "
    requires (c == '-' && sign == -1) || (c == '+' && sign == 1)
    requires d != [] && forall c :: c in d ==> IsDigit(c)
    requires rest == [] || !IsDigit(rest[0])
    ensures ScanInt(space + ([c] + d + rest)) == Some((sign * Value(d), rest))
  {
    hide ScanDigits, TrimLeft, Value;
    var t := [c] + d + rest;
    SkipSpace(space, t);
    assert t[1..] == d + rest;
    ScanDigitsAll(sign, d, rest);
  }

  lemma ScanUnsigned(space: string, d: string, rest: string)
    requires space == "" || space == " "
    requires d != [] && forall c :: c in d ==> IsDigit(c)
    requires rest == [] || !IsDigit(rest[0])
    ensures ScanInt(space + (d + rest)) == Some((Value(d) as int, rest))
  {
    assert d[0] in d;
    SkipSpace(space, d + rest);
    ScanDigitsAll(1, d, rest);
  }

  lemma ScanIntFormat(space: string, n: int, width: int, plus: bool, rest: string)
    requires space == "" || space == " "
    requires rest == [] || !IsDigit(rest[0])
    ensures ScanInt(space + (Format(n, width, plus) + rest)) == Some((n, rest))
  {
    if n < 0 {
      ScanSigned(space, '-', -1, Padded(-n, width - 1), rest);
    } else if plus {
      ScanSigned(space, '+', 1, Padded(n, width - 1), rest);
    } else {
      ScanUnsigned(space, Padded(n, width), rest);
    }
  }

  lemma ScanWordName(space: string, name: string, rest: string)
    requires space == "" || space == " "
    requires |name| == 3 && forall c :: c in name ==> !IsSpace(c)
    requires rest != [] && IsSpace(rest[0])
    ensures ScanWord(space + (name + rest)) == Some((name, rest))
  {
    SkipSpace(space, name + rest);
    TakeWhileAll(name, c => !IsSpace(c), rest, 15);
    assert (name + rest)[|name|..] == rest;
  }

  lemma NamesAreWords(weekday: string, month: string)
    requires weekday in WEEKDAYS && month in MONTHS
    ensures |weekday| == 3 && forall c :: c in weekday ==> !IsSpace(c)
    ensures |month| == 3 && forall c :: c in month ==> !IsSpace(c)
  {
  }

  lemma {:induction false} IndexInDistinct(names: seq<string>, i: nat)
    requires i < |names| && forall j, k :: 0 <= j < k < |names| ==> names[j] != names[k]
    ensures IndexIn(names[i], names) == Some(i)
  {
    if i > 0 {
      IndexInDistinct(names[1..], i - 1);
    }
  }

  lemma MonthIndex(i: nat)
    requires i < 12
    ensures IndexIn(MONTHS[i], MONTHS) == Some(i)
  {
    forall j, k | 0 <= j < k < 12 ensures MONTHS[j] != MONTHS[k] {
      assert MONTHS[j][0] != MONTHS[k][0] || MONTHS[j][1] != MONTHS[k][1] || MONTHS[j][2] != MONTHS[k][2];
    }
    IndexInDistinct(MONTHS, i);
  }

  lemma WeekdayIndex(i: nat)
    requires i < 7
    ensures IndexIn(WEEKDAYS[i], WEEKDAYS) == Some(i)
  {
    forall j, k | 0 <= j < k < 7 ensures WEEKDAYS[j] != WEEKDAYS[k] {
      assert WEEKDAYS[j][0] != WEEKDAYS[k][0] || WEEKDAYS[j][1] != WEEKDAYS[k][1];
    }
    IndexInDistinct(WEEKDAYS, i);
  }

  // ----- the offset -----

  /** Whether the printed offset reads back as the same offset. */
  predicate OffsetSurvives(offset: int) {
    offset >= 0 || offset % 60 == 0
  }

  /** The number that is read back where an offset was printed. */
  function OffsetNumber(offset: int): int {
    if OffsetSurvives(offset) then DivC(offset, 60) * 100 + ModC(offset, 60) else DivC(offset, 60)
  }

  lemma ValueTwo(a: string, b: string)
    requires |b| == 2 && forall c :: c in a || c in b ==> IsDigit(c)
    ensures Value(a + b) == Value(a) * 100 + Value(b)
  {
    var s, x, y := a + b, [b[0]], [b[1]];
    assert b == x + y && b[0] in b && b[1] in b;
    assert s[..|s| - 1] == a + x;
    assert (a + x)[..|a + x| - 1] == a;
    assert Value(s) == Value(a + x) * 10 + (b[1] as int - '0' as int);
    assert x[..0] == [] && b[..1] == x;
    assert Value(b) == Value(x) * 10 + (b[1] as int - '0' as int);
  }

  lemma ScanOffset(offset: int)
    ensures ScanInt(" " + OffsetText(offset)).Some? && ScanInt(" " + OffsetText(offset)).value.0 == OffsetNumber(offset)
  {
    var h, m := DivC(offset, 60), ModC(offset, 60);
    if OffsetSurvives(offset) {
      var sign := if h < 0 then '-' else '+';
      var a, b := Padded(Abs(h), 2), Padded(m, 2);
      assert OffsetText(offset) == [sign] + (a + b) + [];
      ValueTwo(a, b);
      ScanSigned(" ", sign, if h < 0 then -1 else 1, a + b, []);
    } else {
      ScanIntFormat(" ", h, 3, true, Format(m, 2, false));
    }
  }

  /** The offset a printed offset reads back as is the same one if and only if it is not negative or is a whole number
      of hours. */
  lemma OffsetRoundTrip(offset: int)
    ensures OffsetFromNumber(OffsetNumber(offset)) == offset <==> OffsetSurvives(offset)
  {
    var h, m := DivC(offset, 60), ModC(offset, 60);
    if OffsetSurvives(offset) {
      assert Abs(OffsetNumber(offset)) == Abs(h) * 100 + m && 0 <= m < 60;
      assert Abs(OffsetNumber(offset)) / 100 == Abs(h) && Abs(OffsetNumber(offset)) % 100 == m;
    } else {
      assert -60 < m < 0 && h <= 0 && offset == 60 * h + m;
    }
  }

  // ----- the whole date -----

  lemma ScanClockText(tm: Tm, rest: string)
    requires InRange(tm) && rest != [] && IsSpace(rest[0])
    ensures ScanClock(" " + ClockText(tm, rest)) == Some((tm.hour, tm.min, tm.sec, rest))
  {
    hide Format, ScanInt, GmTime, TimeGm;
    var s5 := rest;
    var s4 := Format(tm.sec, 2, false) + s5;
    var s3 := ":" + s4;
    var s2 := Format(tm.min, 2, false) + s3;
    var s1 := ":" + s2;
    assert s1[1..] == s2 && s3[1..] == s4;
    assert ScanInt(" " + (Format(tm.hour, 2, false) + s1)) == Some((tm.hour, s1)) by {
      ScanIntFormat(" ", tm.hour, 2, false, s1);
    }
    assert ScanInt(s2) == Some((tm.min, s3)) by {
      ScanIntFormat("", tm.min, 2, false, s3);
      assert "" + s2 == s2;
    }
    assert ScanInt(s4) == Some((tm.sec, s5)) by {
      ScanIntFormat("", tm.sec, 2, false, s5);
      assert "" + s4 == s4;
    }
  }

  lemma ScanDayText(weekday: string, month: string, mday: int, rest: string)
    requires weekday in WEEKDAYS && month in MONTHS && rest != [] && IsSpace(rest[0])
    ensures ScanDay(weekday + (" " + (month + (" " + (Format(mday, 0, false) + rest)))))
            == Some((weekday, month, mday, rest))
  {
    hide Format, ScanInt, ScanWord;
    var s2 := " " + (Format(mday, 0, false) + rest);
    var s1 := " " + (month + s2);
    var s0 := weekday + s1;
    NamesAreWords(weekday, month);
    assert ScanWord(s0) == Some((weekday, s1)) by {
      ScanWordName("", weekday, s1);
      assert "" + s0 == s0;
    }
    assert ScanWord(s1) == Some((month, s2)) by {
      ScanWordName(" ", month, s2);
    }
    ScanIntFormat(" ", mday, 0, false, rest);
  }

  lemma ScanTmText(tm: Tm, offset: string)
    requires InRange(tm) && ScanInt(" " + offset).Some?
    ensures Scan(TmText(tm, offset)) ==
            Some(Scanned(WEEKDAYS[tm.wday], MONTHS[tm.mon], tm.mday, tm.hour, tm.min, tm.sec, tm.year,
                         ScanInt(" " + offset).value.0))
  {
    hide Format, ScanInt, ScanDay, ScanClock, ClockText, GmTime, TimeGm;
    var s3 := " " + offset;
    var s2 := " " + (Format(tm.year, 4, false) + s3);
    var s1 := " " + ClockText(tm, s2);
    ScanDayText(WEEKDAYS[tm.wday], MONTHS[tm.mon], tm.mday, s1);
    ScanClockText(tm, s2);
    ScanIntFormat(" ", tm.year, 4, false, s3);
  }

  /** What a printed date reads back as. */
  lemma TimeFromPrinted(tm: Tm, offset: int)
    requires InRange(tm)
    ensures var read := OffsetFromNumber(OffsetNumber(offset));
            TimeFromString(TmText(tm, OffsetText(offset))) ==
            if TimeGm(tm) == -1 then None else Some(Time(TimeGm(tm) - read * 60, read))
  {
    hide Scan, ScanInt, TmText, OffsetText, OffsetNumber, OffsetFromNumber, TimeFromScanned, TimeGm;
    ScanOffset(offset);
    ScanTmText(tm, OffsetText(offset));
    TimeFromFields(tm, OffsetNumber(offset));
  }

  lemma TimeFromFields(tm: Tm, n: int)
    requires InRange(tm)
    ensures TimeFromScanned(Scanned(WEEKDAYS[tm.wday], MONTHS[tm.mon], tm.mday, tm.hour, tm.min, tm.sec, tm.year, n)) ==
            if TimeGm(tm) == -1 then None else Some(Time(TimeGm(tm) - OffsetFromNumber(n) * 60, OffsetFromNumber(n)))
  {
    hide IndexIn, OffsetFromNumber, TimeGm, IsSpace;
    NamesAreWords(WEEKDAYS[tm.wday], MONTHS[tm.mon]);
    MonthIndex(tm.mon);
    WeekdayIndex(tm.wday);
    AnyWeekday(tm);
  }

  /** The weekday says nothing that the date does not. */
  lemma AnyWeekday(tm: Tm)
    requires tm.mon < 12
    ensures TimeGm(Tm(tm.year, tm.mon, tm.mday, tm.hour, tm.min, tm.sec, 0)) == TimeGm(tm)
  {
    hide YearStart, MonthStart, Leap;
  }

  /** A printed date reads back as itself if and only if its offset survives and its local time is not the one second
      that timegm's error value stands for. */
  lemma TimeRoundTrip(t: Time)
    ensures TimeFromString(StringFromTime(t)) == Some(t) <==> OffsetSurvives(t.offset) && t.time + t.offset * 60 != -1
  {
    hide TimeFromString, TmText, OffsetText, GmTime, OffsetFromNumber, OffsetNumber;
    TimeFromPrinted(GmTime(t.time + t.offset * 60), t.offset);
    OffsetRoundTrip(t.offset);
  }

  /** An author in Newfoundland: half past three hours west of Greenwich reads back as three minutes east of it. */
  lemma NewfoundlandDoesNotSurvive()
    ensures TimeFromString(StringFromTime(Time(0, -210))) == Some(Time(-12780, 3))
  {
    hide TimeFromString, TmText, OffsetText, GmTime, TimeGm, ScanInt;
    TimeFromPrinted(GmTime(-12600), -210);
    assert OffsetNumber(-210) == -3 by { assert DivC(-210, 60) == -3; }
    assert OffsetFromNumber(-3) == 3;
  }

  // ----- the printed date is one trimmed line -----

  /** A text without spaces at its end and without newlines. */
  predicate Inked(s: string) {
    s != "" && !IsSpace(s[|s| - 1]) && NoNewline(s)
  }

  lemma InkedConcat(a: string, b: string)
    requires NoNewline(a) && Inked(b)
    ensures Inked(a + b)
  {
  }

  lemma FormatInked(n: int, width: int, plus: bool)
    ensures Inked(Format(n, width, plus))
  {
    var m := if n < 0 then -n else n;
    var w := if n < 0 || plus then width - 1 else width;
    PaddedInked(m, w);
    InkedConcat("-", Padded(m, w));
    InkedConcat("+", Padded(m, w));
  }

  lemma PaddedInked(n: nat, width: int)
    ensures Inked(Padded(n, width))
  {
    var d := Padded(n, width);
    assert d[|d| - 1] in d;
    assert forall c :: c in d ==> IsDigit(c);
  }

  lemma ClockTextInked(tm: Tm, rest: string)
    requires Inked(rest)
    ensures Inked(ClockText(tm, rest))
  {
    hide Format, Inked;
    FormatInked(tm.hour, 2, false);
    FormatInked(tm.min, 2, false);
    FormatInked(tm.sec, 2, false);
    forall s: string | Inked(s) ensures NoNewline(s) { InkedIsLine(s); }
    InkedConcat(Format(tm.sec, 2, false), rest);
    InkedConcat(":", Format(tm.sec, 2, false) + rest);
    InkedConcat(Format(tm.min, 2, false), ":" + (Format(tm.sec, 2, false) + rest));
    InkedConcat(":", Format(tm.min, 2, false) + (":" + (Format(tm.sec, 2, false) + rest)));
    InkedConcat(Format(tm.hour, 2, false),
        ":" + (Format(tm.min, 2, false) + (":" + (Format(tm.sec, 2, false) + rest))));
  }

  lemma InkedIsLine(s: string)
    requires Inked(s)
    ensures NoNewline(s)
  {
  }

  lemma TmTextInked(tm: Tm, offset: string)
    requires InRange(tm) && Inked(offset)
    ensures Inked(TmText(tm, offset)) && !IsSpace(TmText(tm, offset)[0])
  {
    hide Format, Inked, ClockText;
    NamesAreWords(WEEKDAYS[tm.wday], MONTHS[tm.mon]);
    FormatInked(tm.year, 4, false);
    FormatInked(tm.mday, 0, false);
    forall s: string | Inked(s) ensures NoNewline(s) { InkedIsLine(s); }
    var s1 := " " + offset;
    InkedConcat(" ", offset);
    InkedConcat(Format(tm.year, 4, false), s1);
    var s2 := " " + (Format(tm.year, 4, false) + s1);
    InkedConcat(" ", Format(tm.year, 4, false) + s1);
    ClockTextInked(tm, s2);
    var s3 := " " + ClockText(tm, s2);
    InkedConcat(" ", ClockText(tm, s2));
    InkedConcat(Format(tm.mday, 0, false), s3);
    var s4 := " " + (Format(tm.mday, 0, false) + s3);
    InkedConcat(" ", Format(tm.mday, 0, false) + s3);
    InkedConcat(MONTHS[tm.mon], s4);
    InkedConcat(" ", MONTHS[tm.mon] + s4);
    InkedConcat(WEEKDAYS[tm.wday], " " + (MONTHS[tm.mon] + s4));
    assert WEEKDAYS[tm.wday][0] in WEEKDAYS[tm.wday];
  }

  lemma StringFromTimeIsLine(t: Time)
    ensures StringFromTime(t) != "" && Trimmed(StringFromTime(t)) && NoNewline(StringFromTime(t))
  {
    hide GmTime, TmText, Format;
    var h, m := Format(DivC(t.offset, 60), 3, true), Format(ModC(t.offset, 60), 2, false);
    FormatInked(DivC(t.offset, 60), 3, true);
    FormatInked(ModC(t.offset, 60), 2, false);
    InkedConcat(h, m);
    TmTextInked(GmTime(t.time + t.offset * 60), h + m);
  }
}
