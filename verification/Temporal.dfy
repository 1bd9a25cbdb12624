/** The deterministic time normalizer and how its scopes meet the evidence's timestamps. */
module Temporal {
  import opened Wrappers
  import opened Text
  import opened Calendar
  import Rerank

  datatype Granularity = DayScope | MonthScope | YearScope | TermScope | UnknownScope

  datatype TimeScope = TimeScope(start: Option<string>, end: Option<string>, granularity: Granularity)

  const UTC := "+00:00"

  function Midnight(d: Date): Stamp {
    Stamp(d, 0, 0, 0)
  }

  function LastSecond(d: Date): Stamp {
    Stamp(d, 23, 59, 59)
  }

  function Between(first: Date, last: Date, granularity: Granularity): TimeScope {
    TimeScope(Some(Print(Midnight(first)) + UTC), Some(Print(LastSecond(last)) + UTC), granularity)
  }

  function Unknown(): TimeScope {
    TimeScope(None, None, UnknownScope)
  }

  function YearBounds(year: nat): TimeScope {
    Between(Date(year, 1, 1), Date(year, 12, 31), YearScope)
  }

  /** `date(...)` raises beyond year 9999, so the last December has no bounds. */
  function MonthBounds(year: nat, month: nat): Option<TimeScope> {
    var next := if month == 12 then Date(year + 1, 1, 1) else Date(year, month + 1, 1);
    if !ValidDate(next) then None
    else Some(Between(Date(year, month, 1), DayBefore(next), MonthScope))
  }

  /** The numbers are not checked to be a date. */
  function DayBounds(year: nat, month: nat, day: nat): TimeScope {
    Between(Date(year, month, day), Date(year, month, day), DayScope)
  }

  // ---- What lies inside a scope ----

  function Bounds(scope: TimeScope): Rerank.TimeBounds {
    Rerank.TimeBounds(scope.start, scope.end)
  }

  /** The reranker's test, on strings. */
  predicate Inside(value: string, scope: TimeScope) {
    !Rerank.BeforeStart(value, Bounds(scope)) && !Rerank.AfterEnd(value, Bounds(scope))
  }

  ghost predicate PrintableDate(d: Date) {
    d.year < 10000 && d.month < 100 && d.day < 100
  }

  lemma PrintNotEmpty(t: Stamp)
    ensures Print(t) + UTC != ""
  {
    assert |UTC| > 0;
  }

  /** A stamp with any suffix against a scope: the fields decide, and at the two ends the suffix does. */
  lemma InsideBetween(t: Stamp, zone: string, first: Date, last: Date, granularity: Granularity)
    requires Printable(t) && PrintableDate(first) && PrintableDate(last)
    ensures Inside(Print(t) + zone, Between(first, last, granularity)) <==>
              && !StampBefore(t, Midnight(first)) && (t == Midnight(first) ==> !Less(zone, UTC))
              && !StampBefore(LastSecond(last), t) && (t == LastSecond(last) ==> !Less(UTC, zone))
  {
    PrintOrder(t, zone, Midnight(first), UTC);
    PrintOrder(LastSecond(last), UTC, t, zone);
    PrintNotEmpty(Midnight(first));
    PrintNotEmpty(LastSecond(last));
  }

  /** A month ends on its last day; only the last December of the calendar has no bounds. */
  lemma MonthBoundsEnd(year: nat, month: nat)
    requires 1 <= year <= 9999 && 1 <= month <= 12
    ensures MonthBounds(year, month) ==
              if year == 9999 && month == 12 then None
              else Some(Between(Date(year, month, 1), Date(year, month, DaysInMonth(year, month)), MonthScope))
  {
  }

  /** An instant stamped in the normalizer's own format is inside a scope exactly when it belongs to that day, month or year. */
  lemma InsideMeansBelongs(t: Stamp, d: Date)
    requires ValidStamp(t) && ValidDate(d) && (d.year < 9999 || d.month < 12)
    ensures Inside(Print(t) + UTC, DayBounds(d.year, d.month, d.day)) <==> t.date == d
    ensures Inside(Print(t) + UTC, MonthBounds(d.year, d.month).value) <==> t.date.year == d.year && t.date.month == d.month
    ensures Inside(Print(t) + UTC, YearBounds(d.year)) <==> t.date.year == d.year
  {
    LessTotal(UTC, UTC);
    MonthBoundsEnd(d.year, d.month);
    InsideBetween(t, UTC, d, d, DayScope);
    InsideBetween(t, UTC, Date(d.year, d.month, 1), Date(d.year, d.month, DaysInMonth(d.year, d.month)), MonthScope);
    InsideBetween(t, UTC, Date(d.year, 1, 1), Date(d.year, 12, 31), YearScope);
  }

  /** An evidence stamp that ends in `Z` is inside the day too, except in its very last second. */
  lemma ZuluLosesTheLastSecond(t: Stamp, d: Date)
    requires ValidStamp(t) && ValidDate(d)
    ensures Inside(Print(t) + "Z", DayBounds(d.year, d.month, d.day)) <==> t.date == d && t != LastSecond(d)
  {
    assert "Z"[0] == 'Z' && UTC[0] == '+' && |UTC| == 6;
    assert Less(UTC, "Z") && !Less("Z", UTC);
    InsideBetween(t, "Z", d, d, DayScope);
  }

  /** Evidence stamped with a bare date is never inside the scope of that date: the date is a prefix of its midnight. */
  lemma BareDateMissesItsDay(d: Date)
    requires PrintableDate(d)
    ensures !Inside(PrintFields(Fields(Midnight(d))[..2] + [Field(d.day, 2, "")]), DayBounds(d.year, d.month, d.day))
  {
    var f := Fields(Midnight(d));
    var bare := PrintFields(f[..2] + [Field(d.day, 2, "")]);
    var rest := "T" + PrintFields(f[3..]) + UTC;
    BareDateIsPrefix(d);
    assert Print(Midnight(d)) + UTC == bare + rest;
    PrefixLess(bare, rest);
    PrintNotEmpty(Midnight(d));
  }

  lemma BareDateIsPrefix(d: Date)
    ensures var f := Fields(Midnight(d));
            Print(Midnight(d)) == PrintFields(f[..2] + [Field(d.day, 2, "")]) + "T" + PrintFields(f[3..])
  {
    var f := Fields(Midnight(d));
    var bare := f[..2] + [Field(d.day, 2, "")];
    var y, m, dd := Pad(d.year, 4), Pad(d.month, 2), Pad(d.day, 2);
    assert bare[1..][1..] == [Field(d.day, 2, "")] && bare[1..][1..][1..] == [];
    assert bare[1..][0] == f[1] && bare[0] == f[0];
    assert PrintFields(bare[1..][1..]) == dd;
    assert PrintFields(bare[1..]) == m + "-" + dd;
    assert PrintFields(bare) == y + "-" + (m + "-" + dd);
    assert f[1..][1..] == f[2..] && f[2..][1..] == f[3..];
    assert PrintFields(f[2..]) == dd + "T" + PrintFields(f[3..]);
    assert PrintFields(f[1..]) == m + "-" + PrintFields(f[2..]);
    assert PrintFields(f) == y + "-" + PrintFields(f[1..]);
  }

  lemma NextMonthFollows(year: nat, month: nat)
    requires 1 <= month < 12
    ensures Instant(LastSecond(Date(year, month, DaysInMonth(year, month)))) + 1 == Instant(Midnight(Date(year, month + 1, 1)))
  {
    assert DayNumber(Date(year, month + 1, 1)) == DayNumber(Date(year, month, DaysInMonth(year, month))) + 1;
  }

  /** The twelve month scopes of a year follow each other without gap or overlap and fill the year scope. */
  lemma MonthsTileYear(year: nat, month: nat)
    requires 1 <= year <= 9998 && 1 <= month <= 12
    ensures MonthBounds(year, 1).value.start == YearBounds(year).start
    ensures MonthBounds(year, 12).value.end == YearBounds(year).end
    ensures MonthBounds(year, month).value ==
              Between(Date(year, month, 1), Date(year, month, DaysInMonth(year, month)), MonthScope)
    ensures month < 12 ==>
              Instant(LastSecond(Date(year, month, DaysInMonth(year, month)))) + 1 == Instant(Midnight(Date(year, month + 1, 1)))
  {
    MonthBoundsEnd(year, 1);
    MonthBoundsEnd(year, 12);
    MonthBoundsEnd(year, month);
    if month < 12 {
      NextMonthFollows(year, month);
    }
  }

  // ---- Widening a scope ----

  /** `outer` starts no later and ends no earlier, as strings. */
  ghost predicate Encloses(outer: TimeScope, inner: TimeScope) {
    && outer.start.Some? && inner.start.Some? && outer.end.Some? && inner.end.Some?
    && inner.start.value != "" && inner.end.value != ""
    && AtMost(outer.start.value, inner.start.value) && AtMost(inner.end.value, outer.end.value)
  }

  lemma EnclosureOfDates(first: Date, last: Date, innerFirst: Date, innerLast: Date, g: Granularity, h: Granularity)
    requires PrintableDate(first) && PrintableDate(last) && PrintableDate(innerFirst) && PrintableDate(innerLast)
    requires !Earlier(innerFirst, first) && !Earlier(last, innerLast)
    ensures Encloses(Between(first, last, g), Between(innerFirst, innerLast, h))
  {
    LessTotal(UTC, UTC);
    PrintOrder(Midnight(innerFirst), UTC, Midnight(first), UTC);
    PrintOrder(LastSecond(last), UTC, LastSecond(innerLast), UTC);
    PrintNotEmpty(Midnight(innerFirst));
    PrintNotEmpty(LastSecond(innerLast));
  }

  lemma EnclosureNeverLowersScore(e: Rerank.Evidence, outer: TimeScope, inner: TimeScope)
    requires Encloses(outer, inner)
    ensures Rerank.TemporalScore(e, Some(Bounds(inner))) <= Rerank.TemporalScore(e, Some(Bounds(outer)))
  {
    var value := if e.Graph? then e.facts.occurredAt else e.capturedAt;
    if Inside(value, inner) {
      AtMostTransitive(outer.start.value, inner.start.value, value);
      AtMostTransitive(value, inner.end.value, outer.end.value);
    }
  }

  /**
   * Widening a day to its month and the month to its year never lowers the temporal score, for any
   * evidence at all: its timestamp may have any format.
   */
  lemma WideningNeverLowersScore(e: Rerank.Evidence, d: Date)
    requires ValidDate(d) && (d.year < 9999 || d.month < 12)
    ensures MonthBounds(d.year, d.month).Some?
    ensures var day, month := DayBounds(d.year, d.month, d.day), MonthBounds(d.year, d.month).value;
            && Rerank.TemporalScore(e, Some(Bounds(day))) <= Rerank.TemporalScore(e, Some(Bounds(month)))
            && Rerank.TemporalScore(e, Some(Bounds(month))) <= Rerank.TemporalScore(e, Some(Bounds(YearBounds(d.year))))
  {
    MonthBoundsEnd(d.year, d.month);
    var first, last := Date(d.year, d.month, 1), Date(d.year, d.month, DaysInMonth(d.year, d.month));
    EnclosureOfDates(first, last, d, d, MonthScope, DayScope);
    EnclosureOfDates(Date(d.year, 1, 1), Date(d.year, 12, 31), first, last, YearScope, MonthScope);
    EnclosureNeverLowersScore(e, MonthBounds(d.year, d.month).value, DayBounds(d.year, d.month, d.day));
    EnclosureNeverLowersScore(e, YearBounds(d.year), MonthBounds(d.year, d.month).value);
  }

  // ---- Knesset terms ----

  /** An open term has no end. */
  datatype Term = Term(number: nat, start: Date, end: Option<Date>)

  const KNESSET_TERMS: seq<Term> := [
    Term(1, Date(1949, 2, 14), Some(Date(1951, 8, 20))), Term(2, Date(1951, 8, 20), Some(Date(1955, 8, 15))),
    Term(3, Date(1955, 8, 15), Some(Date(1959, 12, 4))), Term(4, Date(1959, 12, 4), Some(Date(1961, 9, 4))),
    Term(5, Date(1961, 9, 4), Some(Date(1965, 11, 22))), Term(6, Date(1965, 11, 22), Some(Date(1969, 11, 17))),
    Term(7, Date(1969, 11, 17), Some(Date(1974, 1, 21))), Term(8, Date(1974, 1, 21), Some(Date(1977, 6, 13))),
    Term(9, Date(1977, 6, 13), Some(Date(1981, 7, 20))), Term(10, Date(1981, 7, 20), Some(Date(1984, 8, 13))),
    Term(11, Date(1984, 8, 13), Some(Date(1988, 11, 21))), Term(12, Date(1988, 11, 21), Some(Date(1992, 7, 13))),
    Term(13, Date(1992, 7, 13), Some(Date(1996, 6, 17))), Term(14, Date(1996, 6, 17), Some(Date(1999, 6, 7))),
    Term(15, Date(1999, 6, 7), Some(Date(2003, 2, 17))), Term(16, Date(2003, 2, 17), Some(Date(2006, 4, 17))),
    Term(17, Date(2006, 4, 17), Some(Date(2009, 2, 24))), Term(18, Date(2009, 2, 24), Some(Date(2013, 2, 5))),
    Term(19, Date(2013, 2, 5), Some(Date(2015, 3, 31))), Term(20, Date(2015, 3, 31), Some(Date(2019, 4, 30))),
    Term(21, Date(2019, 4, 30), Some(Date(2019, 10, 3))), Term(22, Date(2019, 10, 3), Some(Date(2020, 3, 16))),
    Term(23, Date(2020, 3, 16), Some(Date(2020, 12, 22))), Term(24, Date(2020, 12, 22), Some(Date(2022, 11, 15))),
    Term(25, Date(2022, 11, 15), None)
  ]

  /** Terms are numbered from one, each ends on the day the next one starts, and only the last is open. */
  ghost predicate Contiguous(terms: seq<Term>) {
    && |terms| > 0 && terms[|terms| - 1].end.None?
    && (forall i :: 0 <= i < |terms| ==> terms[i].number == i + 1 && ValidDate(terms[i].start))
    && (forall i :: 0 <= i < |terms| - 1 ==>
          terms[i].end == Some(terms[i + 1].start) && Earlier(terms[i].start, terms[i + 1].start))
  }

  lemma KnessetTermsNumbered()
    ensures forall i :: 0 <= i < |KNESSET_TERMS| ==> KNESSET_TERMS[i].number == i + 1 && ValidDate(KNESSET_TERMS[i].start)
  {
  }

  lemma EarlyTermsLinked()
    ensures forall i :: 0 <= i < 12 ==>
              KNESSET_TERMS[i].end == Some(KNESSET_TERMS[i + 1].start)
              && Earlier(KNESSET_TERMS[i].start, KNESSET_TERMS[i + 1].start)
  {
  }

  lemma LateTermsLinked()
    ensures forall i :: 12 <= i < 24 ==>
              KNESSET_TERMS[i].end == Some(KNESSET_TERMS[i + 1].start)
              && Earlier(KNESSET_TERMS[i].start, KNESSET_TERMS[i + 1].start)
  {
  }

  lemma KnessetTermsContiguous()
    ensures Contiguous(KNESSET_TERMS)
  {
    KnessetTermsNumbered();
    EarlyTermsLinked();
    LateTermsLinked();
  }

  predicate Covers(t: Term, ref: Date) {
    var end := if t.end.Some? then t.end.value else ref;
    !Earlier(ref, t.start) && !Earlier(end, ref)
  }

  lemma {:induction false} StartsIncrease(terms: seq<Term>, i: nat, j: nat)
    requires Contiguous(terms) && i < j < |terms|
    ensures Earlier(terms[i].start, terms[j].start)
  {
    if i + 1 < j {
      StartsIncrease(terms, i, j - 1);
    }
  }

  function FirstCovering(terms: seq<Term>, ref: Date, from: nat): (k: Option<nat>)
    ensures k.Some? ==> from <= k.value < |terms|
    decreases |terms| - from
  {
    if from >= |terms| then None
    else if Covers(terms[from], ref) then Some(from)
    else FirstCovering(terms, ref, from + 1)
  }

  /** The scan over the table that stops at the first term covering `ref`. */
  method CurrentTerm(terms: seq<Term>, ref: Date) returns (k: Option<nat>)
    ensures k == FirstCovering(terms, ref, 0)
  {
    for i := 0 to |terms|
      invariant FirstCovering(terms, ref, 0) == FirstCovering(terms, ref, i)
    {
      if Covers(terms[i], ref) {
        return Some(i);
      }
    }
    k := None;
  }

  lemma {:induction false} FirstCoveringMeaning(terms: seq<Term>, ref: Date, from: nat)
    requires Contiguous(terms) && from < |terms|
    requires !Earlier(ref, terms[from].start)
    ensures var k := FirstCovering(terms, ref, from);
            && k.Some?
            && (k.value > from ==> Earlier(terms[k.value].start, ref))
            && (k.value + 1 < |terms| ==> !Earlier(terms[k.value + 1].start, ref))
    decreases |terms| - from
  {
    if !Covers(terms[from], ref) {
      FirstCoveringMeaning(terms, ref, from + 1);
    }
  }

  /**
   * On a contiguous table the scan succeeds from the first day of the first term on; on a change-over
   * day it finds the outgoing term, so any later term it finds had begun before that day.
   */
  lemma CurrentTermMeaning(terms: seq<Term>, ref: Date)
    requires Contiguous(terms)
    ensures var k := FirstCovering(terms, ref, 0);
            && (k.None? <==> Earlier(ref, terms[0].start))
            && (k.Some? ==> terms[k.value].number == k.value + 1)
            && (k.Some? && k.value > 0 ==> Earlier(terms[k.value].start, ref))
            && (k.Some? && k.value + 1 < |terms| ==> !Earlier(terms[k.value + 1].start, ref))
  {
    if Earlier(ref, terms[0].start) {
      NoneCoversBefore(terms, ref, 0);
    } else {
      FirstCoveringMeaning(terms, ref, 0);
    }
  }

  lemma {:induction false} NoneCoversBefore(terms: seq<Term>, ref: Date, from: nat)
    requires Contiguous(terms) && Earlier(ref, terms[0].start)
    ensures FirstCovering(terms, ref, from).None?
    decreases |terms| - from
  {
    if from < |terms| {
      if from > 0 {
        StartsIncrease(terms, 0, from);
      }
      NoneCoversBefore(terms, ref, from + 1);
    }
  }

  function TermScopeOf(t: Term): TimeScope {
    TimeScope(Some(Print(Midnight(t.start)) + UTC),
              if t.end.Some? then Some(Print(LastSecond(t.end.value)) + UTC) else None, TermScope)
  }

  function TermByNumber(terms: seq<Term>, n: nat): (r: Option<Term>)
    ensures r.Some? ==> r.value in terms && r.value.number == n
    ensures r.None? ==> forall t | t in terms :: t.number != n
  {
    if terms == [] then None
    else if terms[0].number == n then Some(terms[0])
    else
      assert terms == [terms[0]] + terms[1..];
      TermByNumber(terms[1..], n)
  }

  // ---- The ladder ----

  /** What the patterns found in a non-empty phrase. */
  datatype Phrase = Phrase(iso: Option<Date>, hebrewMonth: Option<(nat, nat)>, hebrewTerm: Option<nat>,
                           englishTerm: Option<nat>, lastYear: bool, lastTerm: bool, year: Option<nat>)

  /** Two or four digits for an ISO date, a named month, and years from 1900 to 2099. */
  ghost predicate PatternsFit(p: Phrase) {
    && (p.iso.Some? ==> PrintableDate(p.iso.value))
    && (p.hebrewMonth.Some? ==> 1900 <= p.hebrewMonth.value.0 < 2100 && 1 <= p.hebrewMonth.value.1 <= 12)
    && (p.year.Some? ==> 1900 <= p.year.value < 2100)
  }

  function NumberedTerm(terms: seq<Term>, n: Option<nat>): Option<Term> {
    if n.Some? then TermByNumber(terms, n.value) else None
  }

  /** The term before the one that covers `ref`. */
  function PreviousTerm(terms: seq<Term>, ref: Date): Option<Term> {
    match FirstCovering(terms, ref, 0)
    case None => None
    case Some(k) => if terms[k].number > 1 then TermByNumber(terms, terms[k].number - 1) else None
  }

  /** The first pattern, in this order, that yields a scope. */
  ghost function Ladder(terms: seq<Term>, p: Phrase, ref: Date): TimeScope
    requires PatternsFit(p) && ValidDate(ref)
  {
    if p.iso.Some? then DayBounds(p.iso.value.year, p.iso.value.month, p.iso.value.day)
    else if p.hebrewMonth.Some? then
      MonthBoundsEnd(p.hebrewMonth.value.0, p.hebrewMonth.value.1);
      MonthBounds(p.hebrewMonth.value.0, p.hebrewMonth.value.1).value
    else if NumberedTerm(terms, p.hebrewTerm).Some? then TermScopeOf(NumberedTerm(terms, p.hebrewTerm).value)
    else if NumberedTerm(terms, p.englishTerm).Some? then TermScopeOf(NumberedTerm(terms, p.englishTerm).value)
    else if p.lastYear then YearBounds(ref.year - 1)
    else if p.lastTerm && PreviousTerm(terms, ref).Some? then TermScopeOf(PreviousTerm(terms, ref).value)
    else if p.year.Some? then YearBounds(p.year.value)
    else Unknown()
  }

  lemma MemberWithNumber(terms: seq<Term>, n: nat)
    requires Contiguous(terms) && 1 <= n <= |terms|
    ensures TermByNumber(terms, n) == Some(terms[n - 1])
  {
    assert terms[n - 1] in terms;
    var t := TermByNumber(terms, n);
    var i :| 0 <= i < |terms| && terms[i] == t.value;
  }

  /** The previous term exists once the second term has begun, and it had ended before `ref`. */
  lemma PreviousTermIsOver(terms: seq<Term>, ref: Date)
    requires Contiguous(terms) && |terms| > 1
    ensures PreviousTerm(terms, ref).Some? <==> Earlier(terms[1].start, ref)
    ensures PreviousTerm(terms, ref).Some? ==>
              PreviousTerm(terms, ref).value.end.Some? && Earlier(PreviousTerm(terms, ref).value.end.value, ref)
  {
    CurrentTermMeaning(terms, ref);
    var k := FirstCovering(terms, ref, 0);
    if k.Some? && k.value > 0 {
      MemberWithNumber(terms, k.value);
      if k.value > 1 {
        StartsIncrease(terms, 1, k.value);
      }
    }
  }

  method Normalize(terms: seq<Term>, phrase: Option<Phrase>, ref: Date) returns (scope: TimeScope)
    requires ValidDate(ref)
    requires phrase.Some? ==> PatternsFit(phrase.value)
    ensures scope == if phrase.None? then Unknown() else Ladder(terms, phrase.value, ref)
  {
    if phrase.None? {
      return Unknown();
    }
    var p := phrase.value;
    if p.iso.Some? {
      return DayBounds(p.iso.value.year, p.iso.value.month, p.iso.value.day);
    }
    if p.hebrewMonth.Some? {
      MonthBoundsEnd(p.hebrewMonth.value.0, p.hebrewMonth.value.1);
      return MonthBounds(p.hebrewMonth.value.0, p.hebrewMonth.value.1).value;
    }
    if p.hebrewTerm.Some? {
      var t := TermByNumber(terms, p.hebrewTerm.value);
      if t.Some? {
        return TermScopeOf(t.value);
      }
    }
    if p.englishTerm.Some? {
      var t := TermByNumber(terms, p.englishTerm.value);
      if t.Some? {
        return TermScopeOf(t.value);
      }
    }
    if p.lastYear {
      return YearBounds(ref.year - 1);
    }
    if p.lastTerm {
      var current := CurrentTerm(terms, ref);
      if current.Some? && terms[current.value].number > 1 {
        var t := TermByNumber(terms, terms[current.value].number - 1);
        if t.Some? {
          return TermScopeOf(t.value);
        }
      }
    }
    if p.year.Some? {
      return YearBounds(p.year.value);
    }
    scope := Unknown();
  }

  /** A scope that starts before it ends, or is open, or is the unknown scope. */
  ghost predicate WellOrdered(scope: TimeScope) {
    if scope.granularity == UnknownScope then scope == Unknown()
    else scope.start.Some? && (scope.end.Some? ==> Less(scope.start.value, scope.end.value))
  }

  lemma BetweenWellOrdered(first: Date, last: Date, g: Granularity)
    requires PrintableDate(first) && PrintableDate(last) && !Earlier(last, first) && g != UnknownScope
    ensures WellOrdered(Between(first, last, g))
  {
    PrintOrder(Midnight(first), UTC, LastSecond(last), UTC);
  }

  lemma TermScopesWellOrdered(terms: seq<Term>, t: Term)
    requires Contiguous(terms) && t in terms
    ensures WellOrdered(TermScopeOf(t))
  {
    var i :| 0 <= i < |terms| && terms[i] == t;
    if t.end.Some? {
      assert ValidDate(terms[i + 1].start);
      PrintOrder(Midnight(t.start), UTC, LastSecond(t.end.value), UTC);
    }
  }

  /** Whatever the phrase, the scope is unknown with no bounds, or starts before it ends, or is open. */
  lemma ScopesAreWellOrdered(terms: seq<Term>, p: Phrase, ref: Date)
    requires Contiguous(terms) && PatternsFit(p) && ValidDate(ref)
    ensures WellOrdered(Ladder(terms, p, ref))
  {
    if p.iso.Some? {
      BetweenWellOrdered(p.iso.value, p.iso.value, DayScope);
    } else if p.hebrewMonth.Some? {
      var (y, m) := p.hebrewMonth.value;
      MonthBoundsEnd(y, m);
      BetweenWellOrdered(Date(y, m, 1), Date(y, m, DaysInMonth(y, m)), MonthScope);
    } else if NumberedTerm(terms, p.hebrewTerm).Some? {
      TermScopesWellOrdered(terms, NumberedTerm(terms, p.hebrewTerm).value);
    } else if NumberedTerm(terms, p.englishTerm).Some? {
      TermScopesWellOrdered(terms, NumberedTerm(terms, p.englishTerm).value);
    } else if p.lastYear {
      BetweenWellOrdered(Date(ref.year - 1, 1, 1), Date(ref.year - 1, 12, 31), YearScope);
    } else if p.lastTerm && PreviousTerm(terms, ref).Some? {
      TermScopesWellOrdered(terms, PreviousTerm(terms, ref).value);
    } else if p.year.Some? {
      BetweenWellOrdered(Date(p.year.value, 1, 1), Date(p.year.value, 12, 31), YearScope);
    }
  }

  // ---- What a phrase comes to mean ----

  /** The instant lies in the term, its last day included; an open term goes on. */
  predicate InTerm(t: Stamp, term: Term) {
    !Earlier(t.date, term.start) && (term.end.Some? ==> !Earlier(term.end.value, t.date))
  }

  lemma InsideDates(t: Stamp, first: Date, last: Date, g: Granularity)
    requires ValidStamp(t) && PrintableDate(first) && PrintableDate(last)
    ensures Inside(Print(t) + UTC, Between(first, last, g)) <==> !Earlier(t.date, first) && !Earlier(last, t.date)
  {
    LessTotal(UTC, UTC);
    InsideBetween(t, UTC, first, last, g);
  }

  lemma InsideTerm(terms: seq<Term>, term: Term, t: Stamp)
    requires Contiguous(terms) && term in terms && ValidStamp(t)
    ensures Inside(Print(t) + UTC, TermScopeOf(term)) <==> InTerm(t, term)
  {
    var i :| 0 <= i < |terms| && terms[i] == term;
    assert ValidDate(term.start);
    if term.end.Some? {
      assert ValidDate(terms[i + 1].start);
      InsideDates(t, term.start, term.end.value, TermScope);
    } else {
      LessTotal(UTC, UTC);
      PrintOrder(t, UTC, Midnight(term.start), UTC);
      PrintNotEmpty(Midnight(term.start));
    }
  }

  /** The previous term is the latest that had ended before the reference date. */
  lemma PreviousTermIsLatest(terms: seq<Term>, ref: Date, other: Term)
    requires Contiguous(terms) && |terms| > 1 && PreviousTerm(terms, ref).Some?
    requires other in terms && other.end.Some? && Earlier(other.end.value, ref)
    ensures PreviousTerm(terms, ref).value in terms
    ensures other.number <= PreviousTerm(terms, ref).value.number
  {
    PreviousTermIsOver(terms, ref);
    CurrentTermMeaning(terms, ref);
    var k := FirstCovering(terms, ref, 0).value;
    MemberWithNumber(terms, k);
    var i :| 0 <= i < |terms| && terms[i] == other;
    if i >= k {
      assert terms[i].end == Some(terms[i + 1].start);
      if i > k {
        StartsIncrease(terms, k + 1, i + 1);
      }
    }
  }

  /** The scope has this granularity, and the instant lies in it exactly if the condition holds. */
  ghost predicate Means(scope: TimeScope, t: Stamp, g: Granularity, condition: bool) {
    scope.granularity == g && (Inside(Print(t) + UTC, scope) <==> condition)
  }

  lemma DayMeans(d: Date, t: Stamp)
    requires ValidStamp(t) && PrintableDate(d)
    ensures Means(DayBounds(d.year, d.month, d.day), t, DayScope, t.date == d)
  {
    InsideDates(t, d, d, DayScope);
  }

  lemma MonthMeans(year: nat, month: nat, t: Stamp)
    requires ValidStamp(t) && 1900 <= year < 2100 && 1 <= month <= 12
    ensures MonthBounds(year, month).Some?
    ensures Means(MonthBounds(year, month).value, t, MonthScope, t.date.year == year && t.date.month == month)
  {
    MonthBoundsEnd(year, month);
    InsideDates(t, Date(year, month, 1), Date(year, month, DaysInMonth(year, month)), MonthScope);
  }

  lemma YearMeans(year: nat, t: Stamp)
    requires ValidStamp(t) && year < 10000
    ensures Means(YearBounds(year), t, YearScope, t.date.year == year)
  {
    InsideDates(t, Date(year, 1, 1), Date(year, 12, 31), YearScope);
  }

  lemma TermMeans(terms: seq<Term>, term: Term, t: Stamp)
    requires Contiguous(terms) && term in terms && ValidStamp(t)
    ensures Means(TermScopeOf(term), t, TermScope, InTerm(t, term))
  {
    InsideTerm(terms, term, t);
  }

  /**
   * Which instants lie in the scope of a phrase, pattern by pattern in the order in which they count. A term
   * that is not in the table leaves the word to the next pattern.
   */
  lemma PhraseMeaning(terms: seq<Term>, p: Phrase, ref: Date, t: Stamp)
    requires Contiguous(terms) && PatternsFit(p) && ValidDate(ref) && ValidStamp(t)
    ensures var scope := Ladder(terms, p, ref);
            if p.iso.Some? then Means(scope, t, DayScope, t.date == p.iso.value)
            else if p.hebrewMonth.Some? then
              Means(scope, t, MonthScope, t.date.year == p.hebrewMonth.value.0 && t.date.month == p.hebrewMonth.value.1)
            else if p.hebrewTerm.Some? && TermByNumber(terms, p.hebrewTerm.value).Some? then
              Means(scope, t, TermScope, InTerm(t, TermByNumber(terms, p.hebrewTerm.value).value))
            else if p.englishTerm.Some? && TermByNumber(terms, p.englishTerm.value).Some? then
              Means(scope, t, TermScope, InTerm(t, TermByNumber(terms, p.englishTerm.value).value))
            else if p.lastYear then Means(scope, t, YearScope, t.date.year + 1 == ref.year)
            else if p.lastTerm && PreviousTerm(terms, ref).Some? then
              Means(scope, t, TermScope, InTerm(t, PreviousTerm(terms, ref).value))
            else if p.year.Some? then Means(scope, t, YearScope, t.date.year == p.year.value)
            else scope == TimeScope(None, None, UnknownScope)
  {
    if p.iso.Some? {
      DayMeans(p.iso.value, t);
    } else if p.hebrewMonth.Some? {
      MonthMeans(p.hebrewMonth.value.0, p.hebrewMonth.value.1, t);
    } else if NumberedTerm(terms, p.hebrewTerm).Some? {
      TermMeans(terms, NumberedTerm(terms, p.hebrewTerm).value, t);
    } else if NumberedTerm(terms, p.englishTerm).Some? {
      TermMeans(terms, NumberedTerm(terms, p.englishTerm).value, t);
    } else if p.lastYear {
      YearMeans(ref.year - 1, t);
    } else if p.lastTerm && PreviousTerm(terms, ref).Some? {
      TermMeans(terms, PreviousTerm(terms, ref).value, t);
    } else if p.year.Some? {
      YearMeans(p.year.value, t);
    }
  }
}
