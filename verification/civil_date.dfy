/** Dates of http_source.c: days_from_civil and parse_http_date (src/http_source.c:187-212). */
module CivilDate {
  import opened Arith
  import opened Text

  // ---------------------------------------------------------------- the calendar, counted naively

  datatype Date = Date(y: int, m: int, d: int)

  predicate Leap(y: int) { y % 4 == 0 && (y % 100 != 0 || y % 400 == 0) }

  function DaysIn(y: int, m: int): int {
    if m == 2 then (if Leap(y) then 29 else 28)
    else if m == 4 || m == 6 || m == 9 || m == 11 then 30
    else 31
  }

  predicate Valid(t: Date) { 1 <= t.m <= 12 && 1 <= t.d <= DaysIn(t.y, t.m) }

  function Tomorrow(t: Date): (u: Date)
    requires Valid(t)
    ensures Valid(u)
  {
    if t.d < DaysIn(t.y, t.m) then t.(d := t.d + 1)
    else if t.m < 12 then Date(t.y, t.m + 1, 1)
    else Date(t.y + 1, 1, 1)
  }

  function Yesterday(t: Date): (u: Date)
    requires Valid(t)
    ensures Valid(u) && Tomorrow(u) == t
  {
    if t.d > 1 then t.(d := t.d - 1)
    else if t.m > 1 then Date(t.y, t.m - 1, DaysIn(t.y, t.m - 1))
    else Date(t.y - 1, 12, 31)
  }

  predicate Before(t: Date, u: Date) { t.y < u.y || (t.y == u.y && (t.m < u.m || (t.m == u.m && t.d < u.d))) }

  const EPOCH: Date := Date(1970, 1, 1)

  function Position(t: Date): int { t.y * 372 + (t.m - 1) * 31 + t.d - 1 }

  /** Days since the epoch, by walking there one day at a time. */
  function DayCount(t: Date): int
    requires Valid(t)
    decreases if Before(t, EPOCH) then Position(EPOCH) - Position(t) else Position(t) - Position(EPOCH)
  {
    if t == EPOCH then 0
    else if Before(t, EPOCH) then DayCount(Tomorrow(t)) - 1
    else DayCount(Yesterday(t)) + 1
  }

  // ---------------------------------------------------------------- the closed form

  /** C's integer division truncates toward zero. */
  function TruncDiv(a: int, b: int): int
    requires b > 0
  {
    if a >= 0 then a / b else -((-a) / b)
  }

  /** days_from_civil. */
  function DaysFromCivil(year: int, m: int, d: int): int {
    var y := if m <= 2 then year - 1 else year;
    var era := TruncDiv(if y >= 0 then y else y - 399, 400);
    var yoe := y - era * 400;
    var doy := TruncDiv(153 * (m + if m > 2 then -3 else 9) + 2, 5) + d - 1;
    var doe := yoe * 365 + TruncDiv(yoe, 4) - TruncDiv(yoe, 100) + doy;
    era * 146097 + doe - 719468
  }

  /** Years are counted from March: the day before March 1 of year y. */
  function YearStart(y: int): int { 365 * y + y / 4 - y / 100 + y / 400 }

  function MonthStart(m: int): int { (153 * (m + if m > 2 then -3 else 9) + 2) / 5 }

  lemma EraSplit(y: int)
    ensures var era := TruncDiv(if y >= 0 then y else y - 399, 400);
      var yoe := y - era * 400;
      0 <= yoe < 400 && era == y / 400 && era * 146097 + yoe * 365 + yoe / 4 - yoe / 100 == YearStart(y)
  {
    var era, yoe := y / 400, y % 400;
    assert y == 400 * era + yoe;
    assert y / 4 == 100 * era + yoe / 4;
    assert y / 100 == 4 * era + yoe / 100;
    if y < 0 {
      assert -(y - 399) == 400 * (-era) + (399 - yoe);
      assert (-(y - 399)) / 400 == -era;
    }
  }

  lemma ClosedForm(t: Date)
    requires 1 <= t.m <= 12
    ensures DaysFromCivil(t.y, t.m, t.d)
         == YearStart(if t.m <= 2 then t.y - 1 else t.y) + MonthStart(t.m) + t.d - 1 - 719468
  {
    EraSplit(if t.m <= 2 then t.y - 1 else t.y);
  }

  lemma YearLength(y: int)
    ensures YearStart(y) - YearStart(y - 1) == 365 + if Leap(y) then 1 else 0
  {
    By4(y);
    By100(y);
    By400(y);
  }

  lemma By4(y: int)
    ensures y / 4 - (y - 1) / 4 == if y % 4 == 0 then 1 else 0
  {
    Counted(y, 4);
  }

  lemma By100(y: int)
    ensures y / 100 - (y - 1) / 100 == if y % 100 == 0 then 1 else 0
    ensures y % 100 == 0 ==> y % 4 == 0
  {
    Counted(y, 100);
    if y % 100 == 0 { Quotient(y, 4, 25 * (y / 100)); }
  }

  lemma By400(y: int)
    ensures y / 400 - (y - 1) / 400 == if y % 400 == 0 then 1 else 0
    ensures y % 400 == 0 ==> y % 100 == 0
  {
    Counted(y, 400);
    if y % 400 == 0 { Quotient(y, 100, 4 * (y / 400)); }
  }

  lemma Counted(y: int, n: nat)
    requires n > 0
    ensures y / n - (y - 1) / n == if y % n == 0 then 1 else 0
  {
    var q := y / n;
    assert y == q * n + y % n && (q - 1) * n == q * n - n;
    Quotient(y - 1, n, if y % n == 0 then q - 1 else q);
  }

  /** The closed form steps by one from each day to the next, across month, leap and century ends. */
  lemma StepsByOne(t: Date)
    requires Valid(t)
    ensures var u := Tomorrow(t); DaysFromCivil(u.y, u.m, u.d) == DaysFromCivil(t.y, t.m, t.d) + 1
  {
    hide DaysFromCivil, YearStart;
    ClosedForm(t);
    ClosedForm(Tomorrow(t));
    YearLength(t.y);
  }

  lemma EpochIsZero()
    ensures DaysFromCivil(1970, 1, 1) == 0
  {}

  /** days_from_civil counts the days since 1970-01-01, for every valid date before and after. */
  lemma {:induction false} CountsDays(t: Date)
    requires Valid(t)
    ensures DaysFromCivil(t.y, t.m, t.d) == DayCount(t)
    decreases if Before(t, EPOCH) then Position(EPOCH) - Position(t) else Position(t) - Position(EPOCH)
  {
    hide DaysFromCivil;
    if t == EPOCH {
      EpochIsZero();
    } else if Before(t, EPOCH) {
      CountsDays(Tomorrow(t));
      StepsByOne(t);
    } else {
      CountsDays(Yesterday(t));
      StepsByOne(Yesterday(t));
    }
  }

  /** Later dates have larger day numbers. */
  lemma {:induction false} Increasing(t: Date, u: Date)
    requires Valid(t) && Valid(u) && Before(t, u)
    ensures DaysFromCivil(t.y, t.m, t.d) < DaysFromCivil(u.y, u.m, u.d)
    decreases Position(u) - Position(t)
  {
    hide DaysFromCivil;
    StepsByOne(t);
    if Tomorrow(t) != u { Increasing(Tomorrow(t), u); }
  }

  // ---------------------------------------------------------------- HTTP dates

  const MONTHS: seq<string> := ["Jan", "Feb", "Mar", "Apr", "May", "Jun", "Jul", "Aug", "Sep", "Oct", "Nov", "Dec"]

  /** %3s of sscanf. */
  function ScanWord(s: string): Option<(string, string)> {
    var t := SkipSpaces(s);
    if t == [] then None
    else if |t| == 1 || IsSpace(t[1]) then Some((t[..1], t[1..]))
    else if |t| == 2 || IsSpace(t[2]) then Some((t[..2], t[2..]))
    else Some((t[..3], t[3..]))
  }

  function ScanColon(s: string): Option<string> { if s != [] && s[0] == ':' then Some(s[1..]) else None }

  datatype Fields = Fields(d: int, mon: string, y: int, hh: int, mm: int, ss: int)

  /** sscanf(s, " %d %3s %d %d:%d:%d"). */
  function ScanFields(s: string): Option<Fields> {
    var d := ScanInt(s);
    if d.None? then None else
    var mon := ScanWord(d.value.1);
    if mon.None? then None else
    var y := ScanInt(mon.value.1);
    if y.None? then None else
    var t := ScanTime(y.value.1);
    if t.None? then None else Some(Fields(d.value.0, mon.value.0, y.value.0, t.value.0, t.value.1, t.value.2))
  }

  function ScanTime(s: string): Option<(int, int, int)> {
    var hh := ScanInt(s);
    if hh.None? then None else
    var c1 := ScanColon(hh.value.1);
    if c1.None? then None else
    var mm := ScanInt(c1.value);
    if mm.None? then None else
    var c2 := ScanColon(mm.value.1);
    if c2.None? then None else
    var ss := ScanInt(c2.value);
    if ss.None? then None else Some((hh.value.0, mm.value.0, ss.value.0))
  }

  /** 1 to 12, or 0 for an unknown name. */
  function MonthOf(mon: string): (m: nat)
    ensures m <= 12
    ensures m > 0 ==> EqCI(mon, MONTHS[m - 1])
  {
    MonthFrom(mon, 0)
  }

  function MonthFrom(mon: string, i: nat): (m: nat)
    requires i <= 12
    ensures m == 0 || i < m <= 12
    ensures m > 0 ==> EqCI(mon, MONTHS[m - 1])
    decreases 12 - i
  {
    if i == 12 then 0 else if EqCI(mon, MONTHS[i]) then i + 1 else MonthFrom(mon, i + 1)
  }

  function Seconds(date: Date, hh: int, mm: int, ss: int): int {
    DaysFromCivil(date.y, date.m, date.d) * 86400 + hh * 3600 + mm * 60 + ss
  }

  /** parse_http_date: seconds since the epoch, 0 on failure. */
  function ParseHttpDate(s: string): nat {
    var comma := IndexOf(s, ',');
    var f := ScanFields(if comma < |s| then s[comma + 1..] else s);
    if f.None? then 0
    else
      var m := MonthOf(f.value.mon);
      if m == 0 || f.value.y < 1970 then 0
      else
        var t := Seconds(Date(f.value.y, m, f.value.d), f.value.hh, f.value.mm, f.value.ss);
        if 0 < t < 0xFFFF_FFFF then t else 0
  }

  // ---------------------------------------------------------------- what a server sends

  function Two(n: nat): (s: string)
    requires n < 100
    ensures |s| == 2 && AllDigits(s, 10) && Value(s, 10) == n
  {
    var s := [Digit(n / 10), Digit(n % 10)];
    assert s[..1] == [Digit(n / 10)] && s[..1][..0] == [];
    assert Value(s[..1], 10) == Value(s[..1][..0], 10) * 10 + n / 10;
    s
  }

  function Four(n: nat): (s: string)
    requires n < 10000
    ensures |s| == 4 && AllDigits(s, 10) && Value(s, 10) == n
  {
    var s := Two(n / 100) + Two(n % 100);
    assert s[..3] == Two(n / 100) + [Digit(n % 100 / 10)] && s[..3][..2] == Two(n / 100);
    s
  }

  function Time(hh: nat, mm: nat, ss: nat): string
    requires hh < 24 && mm < 60 && ss < 60
  {
    " " + Two(hh) + (":" + (Two(mm) + (":" + (Two(ss) + " GMT"))))
  }

  /** An IMF-fixdate (section 7.1.1.1 of RFC 7231). */
  function ImfDate(weekday: string, date: Date, hh: nat, mm: nat, ss: nat): string
    requires Valid(date) && 0 <= date.y < 10000 && hh < 24 && mm < 60 && ss < 60
  {
    weekday + ("," + (" " + Two(date.d) + (" " + MONTHS[date.m - 1] + (" " + Four(date.y) + Time(hh, mm, ss)))))
  }

  lemma IntScanned(pad: string, ds: string, tail: string)
    requires forall i | 0 <= i < |pad| :: IsSpace(pad[i])
    requires |pad| <= 1 && 0 < |ds| <= 4 && AllDigits(ds, 10)
    requires tail == [] || (!IsDigitIn(tail[0], 10) && Lower(tail[0]) != 'x')
    ensures ScanInt(pad + ds + tail) == Some((Value(ds, 10), tail))
  {
    hide ScanNumber, Value, Pow10, IsDigitIn;
    assert pad + ds + tail == pad + (ds + tail);
    if pad == [] {
      assert pad + (ds + tail) == ds + tail;
    } else {
      assert pad == [pad[0]];
      SpaceScanned(pad[0], ds + tail, 10);
    }
    ScanPlain(ds, tail, 10);
    ValueBound(ds);
    Pow10Small(|ds|);
  }

  lemma Pow10Small(n: nat)
    requires n <= 4
    ensures Pow10(n) <= 10000
  {
    assert Pow10(1) == 10 && Pow10(2) == 100 && Pow10(3) == 1000 && Pow10(4) == 10000;
  }

  lemma WordScanned(mon: string, tail: string)
    requires mon in MONTHS && tail != [] && tail[0] == ' '
    ensures ScanWord(" " + mon + tail) == Some((mon, tail))
  {
    assert |mon| == 3 && forall i | 0 <= i < 3 :: !IsSpace(mon[i]);
    assert (" " + mon + tail)[1..] == mon + tail;
    assert (mon + tail)[..3] == mon && (mon + tail)[3..] == tail;
  }

  lemma TimeScanned(hh: nat, mm: nat, ss: nat)
    requires hh < 24 && mm < 60 && ss < 60
    ensures ScanTime(Time(hh, mm, ss)) == Some((hh as int, mm as int, ss as int))
  {
    hide ScanInt, Two;
    var t2 := Two(ss) + " GMT";
    var t1 := Two(mm) + (":" + t2);
    IntScanned(" ", Two(hh), ":" + t1);
    IntScanned("", Two(mm), ":" + t2);
    IntScanned("", Two(ss), " GMT");
    assert "" + Two(mm) + (":" + t2) == t1 && "" + Two(ss) + " GMT" == t2;
    assert (":" + t1)[1..] == t1 && (":" + t2)[1..] == t2;
  }

  lemma MonthFound(m: nat, i: nat)
    requires 1 <= m <= 12 && i < m
    ensures MonthFrom(MONTHS[m - 1], i) == m
    decreases m - i
  {
    hide EqCI, MONTHS;
    MonthsDiffer(m, i);
    if i + 1 < m { MonthFound(m, i + 1); }
  }

  lemma MonthsDiffer(m: nat, i: nat)
    requires 1 <= m <= 12 && i < m
    ensures |MONTHS| == 12 && (EqCI(MONTHS[m - 1], MONTHS[i]) <==> i + 1 == m)
  {
    var a, b := MONTHS[i], MONTHS[m - 1];
    assert i + 1 < m ==> Lower(a[0]) != Lower(b[0]) || Lower(a[1]) != Lower(b[1]) || Lower(a[2]) != Lower(b[2]);
  }

  /** The date a server prints is the date read back, within the range of the 32-bit result. */
  lemma DateRead(weekday: string, date: Date, hh: nat, mm: nat, ss: nat)
    requires Valid(date) && 0 <= date.y < 10000 && hh < 24 && mm < 60 && ss < 60 && ',' !in weekday
    ensures var t := DayCount(date) * 86400 + hh * 3600 + mm * 60 + ss;
      ParseHttpDate(ImfDate(weekday, date, hh, mm, ss)) == if date.y >= 1970 && 0 < t < 0xFFFF_FFFF then t else 0
  {
    hide ScanInt, ScanWord, ScanTime, IndexOf, Two, Four, Time, DaysFromCivil, DayCount, MonthFrom;
    var mon := MONTHS[date.m - 1];
    var t3 := Time(hh, mm, ss);
    var t2 := " " + Four(date.y) + t3;
    var t1 := " " + mon + t2;
    var t0 := " " + Two(date.d) + t1;
    assert ImfDate(weekday, date, hh, mm, ss) == weekday + ([','] + t0);
    CutAt(weekday, ',', t0);
    IntScanned(" ", Two(date.d), t1);
    WordScanned(mon, t2);
    TimeHead(hh, mm, ss);
    IntScanned(" ", Four(date.y), t3);
    TimeScanned(hh, mm, ss);
    MonthFound(date.m, 0);
    CountsDays(date);
  }

  lemma TimeHead(hh: nat, mm: nat, ss: nat)
    requires hh < 24 && mm < 60 && ss < 60
    ensures Time(hh, mm, ss) != [] && Time(hh, mm, ss)[0] == ' '
  {}

  predicate Earlier(t: Date, h: nat, m: nat, s: nat, t2: Date, h2: nat, m2: nat, s2: nat) {
    Before(t, t2) || (t == t2 && (h < h2 || (h == h2 && (m < m2 || (m == m2 && s < s2)))))
  }

  lemma SecondsOrdered(t: Date, h: nat, m: nat, s: nat, t2: Date, h2: nat, m2: nat, s2: nat)
    requires Valid(t) && Valid(t2) && h < 24 && m < 60 && s < 60 && h2 < 24 && m2 < 60 && s2 < 60
    requires Earlier(t, h, m, s, t2, h2, m2, s2)
    ensures DayCount(t) * 86400 + h * 3600 + m * 60 + s < DayCount(t2) * 86400 + h2 * 3600 + m2 * 60 + s2
  {
    hide DaysFromCivil, DayCount;
    CountsDays(t);
    CountsDays(t2);
    if Before(t, t2) { Increasing(t, t2); }
  }

  /** So of two dates as servers print them the earlier is read as the smaller number, exactly when the later one is
      within the range of the 32-bit result; a later date out of range is read as 0. */
  lemma DatesOrdered(day: string, t: Date, h: nat, m: nat, s: nat, day2: string, t2: Date, h2: nat, m2: nat, s2: nat)
    requires Valid(t) && 0 <= t.y < 10000 && h < 24 && m < 60 && s < 60 && ',' !in day
    requires Valid(t2) && 0 <= t2.y < 10000 && h2 < 24 && m2 < 60 && s2 < 60 && ',' !in day2
    requires Earlier(t, h, m, s, t2, h2, m2, s2)
    ensures var moment := DayCount(t2) * 86400 + h2 * 3600 + m2 * 60 + s2;
      ParseHttpDate(ImfDate(day, t, h, m, s)) < ParseHttpDate(ImfDate(day2, t2, h2, m2, s2))
      <==> t2.y >= 1970 && 0 < moment < 0xFFFF_FFFF
  {
    hide ParseHttpDate, ImfDate, DayCount;
    DateRead(day, t, h, m, s);
    DateRead(day2, t2, h2, m2, s2);
    SecondsOrdered(t, h, m, s, t2, h2, m2, s2);
  }
}
