/** The proleptic Gregorian calendar, and timestamps as text and as points in time. */
module Calendar {
  import opened Text

  datatype Date = Date(year: nat, month: nat, day: nat)

  /** RFC 3339, Appendix C. */
  predicate IsLeap(year: nat) {
    year % 4 == 0 && (year % 100 != 0 || year % 400 == 0)
  }

  /** RFC 3339, section 5.7. */
  function DaysInMonth(year: nat, month: nat): (days: nat)
    ensures 28 <= days <= 31
  {
    if month == 2 then (if IsLeap(year) then 29 else 28)
    else if month in {4, 6, 9, 11} then 30
    else 31
  }

  /** The dates Python's `date` accepts. */
  predicate ValidDate(d: Date) {
    1 <= d.year <= 9999 && 1 <= d.month <= 12 && 1 <= d.day <= DaysInMonth(d.year, d.month)
  }

  predicate Earlier(a: Date, b: Date) {
    a.year < b.year || (a.year == b.year && (a.month < b.month || (a.month == b.month && a.day < b.day)))
  }

  /** `d - timedelta(days=1)` */
  function DayBefore(d: Date): Date {
    if d.day > 1 then Date(d.year, d.month, d.day - 1)
    else if d.month > 1 then Date(d.year, d.month - 1, DaysInMonth(d.year, d.month - 1))
    else Date(if d.year > 0 then d.year - 1 else 0, 12, 31)
  }

  function YearLength(year: nat): nat {
    if IsLeap(year) then 366 else 365
  }

  function DaysBeforeYear(year: nat): nat {
    if year == 0 then 0 else DaysBeforeYear(year - 1) + YearLength(year - 1)
  }

  function DaysBeforeMonth(year: nat, month: nat): nat {
    if month <= 1 then 0 else DaysBeforeMonth(year, month - 1) + DaysInMonth(year, month - 1)
  }

  function DayNumber(d: Date): nat {
    DaysBeforeYear(d.year) + DaysBeforeMonth(d.year, d.month) + d.day
  }

  lemma TwelveMonths(year: nat)
    ensures DaysBeforeMonth(year, 12) + DaysInMonth(year, 12) == YearLength(year)
  {
    var leap := DaysInMonth(year, 2);
    assert DaysBeforeMonth(year, 2) == 31 && DaysBeforeMonth(year, 3) == 31 + leap;
    assert DaysBeforeMonth(year, 4) == 62 + leap && DaysBeforeMonth(year, 5) == 92 + leap;
    assert DaysBeforeMonth(year, 6) == 123 + leap && DaysBeforeMonth(year, 7) == 153 + leap;
    assert DaysBeforeMonth(year, 8) == 184 + leap && DaysBeforeMonth(year, 9) == 215 + leap;
    assert DaysBeforeMonth(year, 10) == 245 + leap && DaysBeforeMonth(year, 11) == 276 + leap;
  }

  lemma {:induction false} MonthsMonotone(year: nat, m: nat, n: nat)
    requires 1 <= m < n
    ensures DaysBeforeMonth(year, m) + DaysInMonth(year, m) <= DaysBeforeMonth(year, n)
  {
    if m + 1 < n {
      MonthsMonotone(year, m, n - 1);
    }
  }

  lemma {:induction false} YearsMonotone(y: nat, z: nat)
    requires y < z
    ensures DaysBeforeYear(y) + YearLength(y) <= DaysBeforeYear(z)
  {
    if y + 1 < z {
      YearsMonotone(y, z - 1);
    }
  }

  lemma DayWithinYear(d: Date)
    requires ValidDate(d)
    ensures 1 <= DaysBeforeMonth(d.year, d.month) + d.day <= YearLength(d.year)
  {
    TwelveMonths(d.year);
    if d.month < 12 {
      MonthsMonotone(d.year, d.month, 12);
    }
  }

  /** Calendar order is the order in which the days follow each other. */
  lemma EarlierIsBefore(a: Date, b: Date)
    requires ValidDate(a) && ValidDate(b)
    ensures Earlier(a, b) <==> DayNumber(a) < DayNumber(b)
    ensures a == b <==> DayNumber(a) == DayNumber(b)
  {
    if Earlier(a, b) {
      EarlierMeansFewerDays(a, b);
    } else if Earlier(b, a) {
      EarlierMeansFewerDays(b, a);
    }
  }

  lemma EarlierMeansFewerDays(a: Date, b: Date)
    requires ValidDate(a) && ValidDate(b) && Earlier(a, b)
    ensures DayNumber(a) < DayNumber(b)
  {
    if a.year < b.year {
      DayWithinYear(a);
      DayWithinYear(b);
      YearsMonotone(a.year, b.year);
    } else if a.month < b.month {
      MonthsMonotone(a.year, a.month, b.month);
    }
  }

  // ---- Timestamps ----

  datatype Stamp = Stamp(date: Date, hour: nat, minute: nat, second: nat)

  /** A time of day without leap second, on a real date. */
  predicate ValidStamp(t: Stamp) {
    ValidDate(t.date) && t.hour < 24 && t.minute < 60 && t.second < 60
  }

  /** Every field fits the digits it is printed with; the date need not exist. */
  predicate Printable(t: Stamp) {
    t.date.year < 10000 && t.date.month < 100 && t.date.day < 100 && t.hour < 100 && t.minute < 100 && t.second < 100
  }

  /** Seconds on the UTC time line. */
  function Instant(t: Stamp): nat {
    DayNumber(t.date) * 86400 + t.hour * 3600 + t.minute * 60 + t.second
  }

  datatype Field = Field(value: nat, width: nat, separator: string)

  function Fields(t: Stamp): seq<Field> {
    [Field(t.date.year, 4, "-"), Field(t.date.month, 2, "-"), Field(t.date.day, 2, "T"),
     Field(t.hour, 2, ":"), Field(t.minute, 2, ":"), Field(t.second, 2, "")]
  }

  function PrintFields(fields: seq<Field>): string {
    if fields == [] then ""
    else Pad(fields[0].value, fields[0].width) + fields[0].separator + PrintFields(fields[1..])
  }

  /** `YYYY-MM-DDTHH:MM:SS` */
  function Print(t: Stamp): string {
    PrintFields(Fields(t))
  }

  ghost predicate SameShape(a: seq<Field>, b: seq<Field>) {
    |a| == |b| && forall i :: 0 <= i < |a| ==> a[i].width == b[i].width && a[i].separator == b[i].separator
  }

  ghost predicate Fit(a: seq<Field>) {
    forall i :: 0 <= i < |a| ==> a[i].value < Pow10(a[i].width)
  }

  ghost predicate FieldsBefore(a: seq<Field>, b: seq<Field>)
    requires |a| == |b|
  {
    a != [] && (a[0].value < b[0].value || (a[0].value == b[0].value && FieldsBefore(a[1..], b[1..])))
  }

  /** Equally shaped fields compare as strings as they compare as numbers, field by field. */
  lemma {:induction false} FieldsOrder(a: seq<Field>, b: seq<Field>)
    requires SameShape(a, b) && Fit(a) && Fit(b)
    ensures |PrintFields(a)| == |PrintFields(b)|
    ensures Less(PrintFields(a), PrintFields(b)) <==> FieldsBefore(a, b)
    ensures PrintFields(a) == PrintFields(b) <==> a == b
  {
    if a != [] {
      var x, y := Pad(a[0].value, a[0].width), Pad(b[0].value, b[0].width);
      var sep := a[0].separator;
      var restA, restB := PrintFields(a[1..]), PrintFields(b[1..]);
      FieldsOrder(a[1..], b[1..]);
      PadOrder(a[0].value, b[0].value, a[0].width);
      LessAroundSeparator(x, y, sep, restA, restB);
      assert a[0].value == b[0].value ==> a[0] == b[0];
      assert a == [a[0]] + a[1..] && b == [b[0]] + b[1..];
    }
  }

  /** Field by field, the date first. */
  predicate StampBefore(a: Stamp, b: Stamp) {
    || Earlier(a.date, b.date)
    || (a.date == b.date && (a.hour < b.hour || (a.hour == b.hour && (a.minute < b.minute
          || (a.minute == b.minute && a.second < b.second)))))
  }

  /** RFC 3339, section 5.1: printed timestamps sort as text in the order of their fields; the suffix breaks ties. */
  lemma PrintOrder(a: Stamp, zoneA: string, b: Stamp, zoneB: string)
    requires Printable(a) && Printable(b)
    ensures Less(Print(a) + zoneA, Print(b) + zoneB) <==> StampBefore(a, b) || (a == b && Less(zoneA, zoneB))
  {
    assert Pow10(2) == 100 && Pow10(4) == 10000;
    FieldsOrder(Fields(a), Fields(b));
    LessConcat(Print(a), zoneA, Print(b), zoneB);
    FieldsOfStamps(a, b);
  }

  lemma TimeFields(a: Stamp, b: Stamp)
    ensures FieldsBefore(Fields(a)[3..], Fields(b)[3..]) <==>
              a.hour < b.hour || (a.hour == b.hour && (a.minute < b.minute || (a.minute == b.minute && a.second < b.second)))
  {
    var f, g := Fields(a), Fields(b);
    assert f[5..][1..] == [] && g[5..][1..] == [];
    assert FieldsBefore(f[5..], g[5..]) <==> a.second < b.second;
    assert f[4..][1..] == f[5..] && g[4..][1..] == g[5..];
    assert FieldsBefore(f[4..], g[4..]) <==> a.minute < b.minute || (a.minute == b.minute && a.second < b.second);
    assert f[3..][1..] == f[4..] && g[3..][1..] == g[4..];
  }

  lemma FieldsOfStamps(a: Stamp, b: Stamp)
    ensures FieldsBefore(Fields(a), Fields(b)) <==> StampBefore(a, b)
    ensures Fields(a) == Fields(b) <==> a == b
  {
    var f, g := Fields(a), Fields(b);
    TimeFields(a, b);
    SameFields(a, b);
    assert f[2..][1..] == f[3..] && g[2..][1..] == g[3..];
    assert FieldsBefore(f[2..], g[2..]) <==>
           a.date.day < b.date.day || (a.date.day == b.date.day && FieldsBefore(f[3..], g[3..]));
    assert f[1..][1..] == f[2..] && g[1..][1..] == g[2..];
    assert FieldsBefore(f[1..], g[1..]) <==>
           a.date.month < b.date.month || (a.date.month == b.date.month && FieldsBefore(f[2..], g[2..]));
  }

  lemma SameFields(a: Stamp, b: Stamp)
    ensures Fields(a) == Fields(b) <==> a == b
  {
    var f, g := Fields(a), Fields(b);
    if f == g {
      assert f[0].value == g[0].value && f[1].value == g[1].value && f[2].value == g[2].value;
      assert f[3].value == g[3].value && f[4].value == g[4].value && f[5].value == g[5].value;
    }
  }

  /** Timestamps with the same suffix compare as strings exactly as they compare in time. */
  lemma TextOrderIsTimeOrder(a: Stamp, b: Stamp, zone: string)
    requires ValidStamp(a) && ValidStamp(b)
    ensures Less(Print(a) + zone, Print(b) + zone) <==> Instant(a) < Instant(b)
  {
    PrintOrder(a, zone, b, zone);
    LessTotal(zone, zone);
    EarlierIsBefore(a.date, b.date);
  }

  // ---- Known values ----

  lemma PrintTwo(f: Field, rest: seq<Field>)
    ensures PrintFields([f] + rest) == Pad(f.value, f.width) + f.separator + PrintFields(rest)
  {
    assert ([f] + rest)[1..] == rest;
  }

  lemma TimeShape(h: nat, m: nat, s: nat)
    ensures PrintFields([Field(h, 2, ":"), Field(m, 2, ":"), Field(s, 2, "")]) == Pad(h, 2) + ":" + (Pad(m, 2) + ":" + Pad(s, 2))
  {
    var fh, fm, fs := Field(h, 2, ":"), Field(m, 2, ":"), Field(s, 2, "");
    PrintTwo(fs, []);
    PrintTwo(fm, [fs]);
    PrintTwo(fh, [fm, fs]);
    assert [fs] + [] == [fs] && [fm] + [fs] == [fm, fs] && [fh] + [fm, fs] == [fh, fm, fs];
  }

  /** A printed stamp letter by letter. */
  lemma StampShape(t: Stamp)
    ensures Print(t) == Pad(t.date.year, 4) + "-" + (Pad(t.date.month, 2) + "-" + (Pad(t.date.day, 2) + "T"
                        + (Pad(t.hour, 2) + ":" + (Pad(t.minute, 2) + ":" + Pad(t.second, 2)))))
  {
    var y, m, d := Field(t.date.year, 4, "-"), Field(t.date.month, 2, "-"), Field(t.date.day, 2, "T");
    var time := [Field(t.hour, 2, ":"), Field(t.minute, 2, ":"), Field(t.second, 2, "")];
    TimeShape(t.hour, t.minute, t.second);
    PrintTwo(d, time);
    PrintTwo(m, [d] + time);
    PrintTwo(y, [m] + ([d] + time));
    assert Fields(t) == [y] + ([m] + ([d] + time));
  }

  /** The days before a year: a leap day every fourth year, but for three in four hundred. */
  lemma {:induction false} DaysBeforeYearClosed(year: nat)
    ensures DaysBeforeYear(year) == 365 * year + (year + 3) / 4 - (year + 99) / 100 + (year + 399) / 400
  {
    if year > 0 {
      DaysBeforeYearClosed(year - 1);
      NextFour(year - 1);
      NextHundred(year - 1);
      NextFourHundred(year - 1);
      LeapByMultiples(year - 1);
    }
  }

  lemma NextFour(n: nat)
    ensures (n + 4) / 4 == (n + 3) / 4 + if n % 4 == 0 then 1 else 0
  {
  }

  lemma NextHundred(n: nat)
    ensures (n + 100) / 100 == (n + 99) / 100 + if n % 100 == 0 then 1 else 0
  {
  }

  lemma NextFourHundred(n: nat)
    ensures (n + 400) / 400 == (n + 399) / 400 + if n % 400 == 0 then 1 else 0
  {
  }

  lemma LeapByMultiples(year: nat)
    ensures YearLength(year) ==
              365 + (if year % 4 == 0 then 1 else 0) - (if year % 100 == 0 then 1 else 0) + if year % 400 == 0 then 1 else 0
  {
    FourHundredths(year);
    Hundredths(year);
  }

  lemma TimesHundred(k: nat)
    ensures (100 * k) % 100 == 0
  {
  }

  lemma TimesFour(k: nat)
    ensures (4 * k) % 4 == 0
  {
  }

  lemma FourHundredths(n: nat)
    ensures n % 400 == 0 ==> n % 100 == 0
  {
    if n % 400 == 0 {
      var q := n / 400;
      TimesHundred(4 * q);
      assert n == 400 * q == 100 * (4 * q);
    }
  }

  lemma Hundredths(n: nat)
    ensures n % 100 == 0 ==> n % 4 == 0
  {
    if n % 100 == 0 {
      var q := n / 100;
      TimesFour(25 * q);
      assert n == 100 * q == 4 * (25 * q);
    }
  }

  /** The days of each month. */
  lemma MonthTable(year: nat)
    ensures DaysInMonth(year, 2) == YearLength(year) - 337
    ensures forall m | m in {4, 6, 9, 11} :: DaysInMonth(year, m) == 30
    ensures forall m | m in {1, 3, 5, 7, 8, 10, 12} :: DaysInMonth(year, m) == 31
  {
  }
}
