/** Longest-first selection of rule matches that do not overlap. */
module SpanSelection {
  import opened Sorting

  /** `end` is exclusive, as in `re.Match.span()`. */
  datatype Span = Span(start: nat, end: nat)

  /** A match of one rule template, with its named groups; `template` is its position in the declared order. */
  datatype RuleMatch = RuleMatch(template: nat, span: Span, groups: map<string, string>)

  predicate Overlaps(a: Span, b: Span) {
    !(a.end <= b.start || b.end <= a.start)
  }

  /** The sort key: longer first, then earlier start. */
  predicate Before(a: Span, b: Span) {
    a.end - a.start > b.end - b.start || (a.end - a.start == b.end - b.start && a.start <= b.start)
  }

  const BY_KEY: (RuleMatch, RuleMatch) -> bool := (a: RuleMatch, b: RuleMatch) => Before(a.span, b.span)

  // ---- What a selection is ----

  ghost predicate Disjoint(ms: seq<RuleMatch>) {
    forall i, j :: 0 <= i < j < |ms| ==> !Overlaps(ms[i].span, ms[j].span)
  }

  /** `m` loses to a chosen match that is at least as long and, if equally long, starts no later. */
  ghost predicate Blocked(m: RuleMatch, chosen: seq<RuleMatch>) {
    exists s :: s in chosen && Overlaps(s.span, m.span) && Before(s.span, m.span)
  }

  /** `m` is the earliest element of `ms` that carries its span. */
  ghost predicate FirstWithSpan(m: RuleMatch, ms: seq<RuleMatch>) {
    exists k :: 0 <= k < |ms| && ms[k] == m && forall j :: 0 <= j < k ==> ms[j].span != m.span
  }

  ghost predicate IsSelection(matches: seq<RuleMatch>, selected: seq<RuleMatch>) {
    && Sorted(selected, BY_KEY)
    && Disjoint(selected)
    && (forall m | m in selected :: m in matches)
    && (forall m | m in matches :: m in selected || Blocked(m, selected))
    && (forall m | m in selected && m.span.start < m.span.end :: FirstWithSpan(m, matches))
  }

  lemma ByKeyIsTotalPreorder()
    ensures TotalPreorder(BY_KEY)
  {
  }

  lemma {:induction false} FirstIsHeadOfFilter(m: RuleMatch, ms: seq<RuleMatch>)
    ensures var same := Filter(ms, (x: RuleMatch) => x.span == m.span);
            FirstWithSpan(m, ms) <==> |same| > 0 && same[0] == m
  {
    if |ms| > 0 {
      FirstIsHeadOfFilter(m, ms[1..]);
      if ms[0].span != m.span {
        if FirstWithSpan(m, ms) {
          var k :| 0 <= k < |ms| && ms[k] == m && forall j :: 0 <= j < k ==> ms[j].span != m.span;
          assert ms[1..][k - 1] == m;
        }
        if FirstWithSpan(m, ms[1..]) {
          var k :| 0 <= k < |ms[1..]| && ms[1..][k] == m && forall j :: 0 <= j < k ==> ms[1..][j].span != m.span;
          assert ms[k + 1] == m;
          forall j | 0 <= j < k + 1 ensures ms[j].span != m.span {
            assert j == 0 || ms[j] == ms[1..][j - 1];
          }
        }
      }
    }
  }

  /** Sorting does not change which of several matches of one span comes first. */
  lemma FirstSurvivesSorting(m: RuleMatch, ms: seq<RuleMatch>)
    requires FirstWithSpan(m, Sort(ms, BY_KEY))
    ensures FirstWithSpan(m, ms)
  {
    var p := (x: RuleMatch) => x.span == m.span;
    SortStable(ms, BY_KEY, p);
    FirstIsHeadOfFilter(m, ms);
    FirstIsHeadOfFilter(m, Sort(ms, BY_KEY));
  }

  /** What holds once the first `i` matches, in sorted order, have been dealt with. */
  ghost predicate Progress(sorted: seq<RuleMatch>, i: nat, selected: seq<RuleMatch>)
    requires i <= |sorted|
  {
    && Sorted(selected, BY_KEY)
    && Disjoint(selected)
    && (forall m | m in selected :: m in sorted[..i])
    && (forall m | m in sorted[..i] :: m in selected || Blocked(m, selected))
    && (forall m | m in selected && m.span.start < m.span.end :: FirstWithSpan(m, sorted))
  }

  lemma Skip(sorted: seq<RuleMatch>, i: nat, selected: seq<RuleMatch>, winner: RuleMatch)
    requires Sorted(sorted, BY_KEY) && i < |sorted| && Progress(sorted, i, selected)
    requires winner in selected && Overlaps(sorted[i].span, winner.span)
    ensures Progress(sorted, i + 1, selected)
  {
    assert winner in sorted[..i];
    assert Blocked(sorted[i], selected);
    forall m | m in selected ensures m in sorted[..i + 1] {
      assert m in sorted[..i];
    }
  }

  lemma Take(sorted: seq<RuleMatch>, i: nat, selected: seq<RuleMatch>)
    requires Sorted(sorted, BY_KEY) && i < |sorted| && Progress(sorted, i, selected)
    requires forall x | x in selected :: !Overlaps(x.span, sorted[i].span)
    ensures Progress(sorted, i + 1, selected + [sorted[i]])
  {
    var m := sorted[i];
    var after := selected + [m];
    assert sorted[..i + 1] == sorted[..i] + [m];
    forall k | 0 <= k < |selected| ensures Before(selected[k].span, m.span) && !Overlaps(selected[k].span, m.span) {
      assert selected[k] in sorted[..i];
    }
    forall x | x in sorted[..i + 1] ensures x in after || Blocked(x, after) {
      if x !in after {
        var s :| s in selected && Overlaps(s.span, x.span) && Before(s.span, x.span);
        assert s in after;
      }
    }
    if m.span.start < m.span.end {
      forall j | 0 <= j < i ensures sorted[j].span != m.span {
        assert sorted[j] in sorted[..i];
      }
      assert FirstWithSpan(m, sorted);
    }
  }

  method Select(matches: seq<RuleMatch>) returns (selected: seq<RuleMatch>)
    ensures IsSelection(matches, selected)
  {
    var sorted := Sort(matches, BY_KEY);
    ByKeyIsTotalPreorder();
    SortSorted(matches, BY_KEY);
    SortMembers(matches, BY_KEY);
    selected := [];
    var used: seq<Span> := [];
    for i := 0 to |sorted|
      invariant used == SpansOf(selected)
      invariant Progress(sorted, i, selected)
    {
      var m := sorted[i];
      if exists s :: s in used && Overlaps(m.span, s) {
        ghost var s :| s in used && Overlaps(m.span, s);
        ghost var winner := SpanCarrier(selected, s);
        Skip(sorted, i, selected, winner);
      } else {
        forall x | x in selected ensures !Overlaps(x.span, m.span) {
          SpanOfMember(selected, x);
        }
        Take(sorted, i, selected);
        selected := selected + [m];
        used := used + [m.span];
      }
    }
    assert sorted[..|sorted|] == sorted;
    forall m | m in selected && m.span.start < m.span.end ensures FirstWithSpan(m, matches) {
      FirstSurvivesSorting(m, matches);
    }
  }

  // ---- There is only one selection ----

  function SpansOf(ms: seq<RuleMatch>): seq<Span> {
    seq(|ms|, i requires 0 <= i < |ms| => ms[i].span)
  }

  ghost predicate SameSpans(a: seq<RuleMatch>, b: seq<RuleMatch>) {
    forall s: Span :: s in SpansOf(a) <==> s in SpansOf(b)
  }

  lemma SpanCarrier(ms: seq<RuleMatch>, s: Span) returns (m: RuleMatch)
    requires s in SpansOf(ms)
    ensures m in ms && m.span == s
  {
    var k :| 0 <= k < |SpansOf(ms)| && SpansOf(ms)[k] == s;
    m := ms[k];
  }

  lemma SpanOfMember(ms: seq<RuleMatch>, m: RuleMatch)
    requires m in ms
    ensures m.span in SpansOf(ms)
  {
    var k :| 0 <= k < |ms| && ms[k] == m;
    assert SpansOf(ms)[k] == m.span;
  }

  /**
   * Two selections from yields with the same spans choose the same spans: by induction along the
   * sort key, whatever blocks a span in one selection was chosen in the other as well.
   */
  lemma {:induction false} ChosenSpansAgree(ms1: seq<RuleMatch>, sel1: seq<RuleMatch>,
                                            ms2: seq<RuleMatch>, sel2: seq<RuleMatch>, span: Span, bound: nat)
    requires IsSelection(ms1, sel1) && IsSelection(ms2, sel2) && SameSpans(ms1, ms2)
    requires forall s | s in SpansOf(ms1) :: s.start < s.end <= bound
    requires span in SpansOf(sel1)
    ensures span in SpansOf(sel2)
    decreases bound - (span.end - span.start), span.start
  {
    var m := SpanCarrier(sel1, span);
    SpanOfMember(ms1, m);
    var m2 := SpanCarrier(ms2, span);
    if m2 in sel2 {
      SpanOfMember(sel2, m2);
    } else {
      var b :| b in sel2 && Overlaps(b.span, m2.span) && Before(b.span, m2.span);
      SpanOfMember(sel2, b);
      SpanOfMember(ms2, b);
      if b.span != span {
        ChosenSpansAgree(ms2, sel2, ms1, sel1, b.span, bound);
        var b1 := SpanCarrier(sel1, b.span);
        OverlappingMembersEqual(sel1, b1, m);
      }
    }
  }

  lemma OverlappingMembersEqual(ms: seq<RuleMatch>, x: RuleMatch, y: RuleMatch)
    requires Disjoint(ms) && x in ms && y in ms && Overlaps(x.span, y.span)
    ensures x == y
  {
    var i :| 0 <= i < |ms| && ms[i] == x;
    var j :| 0 <= j < |ms| && ms[j] == y;
    assert !(i < j) && !(j < i);
  }

  function Bound(spans: seq<Span>): nat {
    if spans == [] then 0
    else if spans[0].end > Bound(spans[1..]) then spans[0].end else Bound(spans[1..])
  }

  lemma {:induction false} BoundHolds(spans: seq<Span>)
    ensures forall s | s in spans :: s.end <= Bound(spans)
  {
    if spans != [] {
      BoundHolds(spans[1..]);
    }
  }

  lemma HeadIsMember(a: seq<Span>)
    ensures |a| > 0 ==> a[0] in a
  {
  }

  /** Sorted selections with the same spans list them in the same order. */
  lemma {:induction false} SortedListsAgree(a: seq<Span>, b: seq<Span>)
    requires forall i, j :: 0 <= i < j < |a| ==> Before(a[i], a[j]) && a[i] != a[j]
    requires forall i, j :: 0 <= i < j < |b| ==> Before(b[i], b[j]) && b[i] != b[j]
    requires forall s :: s in a <==> s in b
    ensures a == b
  {
    HeadIsMember(a);
    HeadIsMember(b);
    if |a| > 0 {
      var i :| 0 <= i < |b| && b[i] == a[0];
      var j :| 0 <= j < |a| && a[j] == b[0];
      assert a[0] == b[0];
      assert a == [a[0]] + a[1..] && b == [b[0]] + b[1..];
      forall s ensures s in a[1..] <==> s in b[1..] {
        assert s in a <==> s == a[0] || s in a[1..];
        assert s in b <==> s == b[0] || s in b[1..];
      }
      SortedListsAgree(a[1..], b[1..]);
    }
  }

  lemma DisjointSpansDistinct(ms: seq<RuleMatch>)
    requires Sorted(ms, BY_KEY) && Disjoint(ms)
    requires forall m | m in ms :: m.span.start < m.span.end
    ensures var a := SpansOf(ms); forall i, j :: 0 <= i < j < |a| ==> Before(a[i], a[j]) && a[i] != a[j]
  {
  }

  /**
   * The chosen spans, and their order, depend only on which spans were matched: not on the order in
   * which the templates yielded them, and not on how often.
   */
  lemma SelectionIsUnique(ms1: seq<RuleMatch>, sel1: seq<RuleMatch>, ms2: seq<RuleMatch>, sel2: seq<RuleMatch>)
    requires IsSelection(ms1, sel1) && IsSelection(ms2, sel2) && SameSpans(ms1, ms2)
    requires forall m | m in ms1 :: m.span.start < m.span.end
    ensures SpansOf(sel1) == SpansOf(sel2)
  {
    var bound := Bound(SpansOf(ms1));
    BoundHolds(SpansOf(ms1));
    forall s | s in SpansOf(ms1) ensures s.start < s.end <= bound {
      var m := SpanCarrier(ms1, s);
    }
    forall s ensures s in SpansOf(sel1) <==> s in SpansOf(sel2) {
      if s in SpansOf(sel1) {
        ChosenSpansAgree(ms1, sel1, ms2, sel2, s, bound);
      }
      if s in SpansOf(sel2) {
        ChosenSpansAgree(ms2, sel2, ms1, sel1, s, bound);
      }
    }
    forall m | m in sel1 ensures m.span.start < m.span.end {}
    forall m | m in sel2 ensures m.span.start < m.span.end {
      SpanOfMember(ms2, m);
    }
    DisjointSpansDistinct(sel1);
    DisjointSpansDistinct(sel2);
    SortedListsAgree(SpansOf(sel1), SpansOf(sel2));
  }

  /** With the same yields even the winning matches are the same: each is the first yielded with its span. */
  lemma SelectionIsDeterministic(ms: seq<RuleMatch>, sel1: seq<RuleMatch>, sel2: seq<RuleMatch>)
    requires IsSelection(ms, sel1) && IsSelection(ms, sel2)
    requires forall m | m in ms :: m.span.start < m.span.end
    ensures sel1 == sel2
  {
    SelectionIsUnique(ms, sel1, ms, sel2);
    assert |sel1| == |SpansOf(sel1)| && |sel2| == |SpansOf(sel2)|;
    forall k | 0 <= k < |sel1| ensures sel1[k] == sel2[k] {
      assert SpansOf(sel1)[k] == SpansOf(sel2)[k];
      assert FirstWithSpan(sel1[k], ms) && FirstWithSpan(sel2[k], ms);
    }
  }

  // ---- The documented tie-break ----

  /** The templates are tried one after the other. */
  ghost predicate DeclaredOrder(matches: seq<RuleMatch>) {
    forall i, j :: 0 <= i < j < |matches| ==> matches[i].template <= matches[j].template
  }

  /** Equally long overlapping matches. */
  predicate Tied(a: RuleMatch, b: RuleMatch) {
    Overlaps(a.span, b.span) && a.span.end - a.span.start == b.span.end - b.span.start
  }

  /** The documented order: longer first, then the earlier template. */
  predicate BeforeByTemplate(a: RuleMatch, b: RuleMatch) {
    var aLen, bLen := a.span.end - a.span.start, b.span.end - b.span.start;
    aLen > bLen || (aLen == bLen && a.template <= b.template)
  }

  /** Every match left out loses to a chosen one by the documented order. */
  ghost predicate RespectsTemplates(matches: seq<RuleMatch>, selected: seq<RuleMatch>) {
    forall m | m in matches :: m in selected
      || exists s :: s in selected && Overlaps(s.span, m.span) && BeforeByTemplate(s, m)
  }

  /**
   * What decides between two tied matches in any yields is where they start, not which template comes
   * first: the one that starts later is chosen only if a third match beats the other one.
   */
  lemma TieBreak(matches: seq<RuleMatch>, selected: seq<RuleMatch>, a: RuleMatch, b: RuleMatch)
    requires DeclaredOrder(matches) && IsSelection(matches, selected)
    requires forall m | m in matches :: m.span.start < m.span.end
    requires a in matches && b in matches && a.template < b.template && Tied(a, b)
    ensures a.span.start <= b.span.start && b in selected ==>
              exists s :: s in selected && s.span != b.span && Overlaps(s.span, a.span) && Before(s.span, a.span)
    ensures a.span.start > b.span.start && a in selected ==>
              exists s :: s in selected && s.span != a.span && Overlaps(s.span, b.span) && Before(s.span, b.span)
  {
    if a in selected && b in selected {
      OverlappingMembersEqual(selected, a, b);
    } else if a.span.start <= b.span.start && b in selected {
      var s :| s in selected && Overlaps(s.span, a.span) && Before(s.span, a.span);
      if a.span == b.span {
        EarlierTemplateFirst(matches, a, b);
      }
      assert s.span != b.span;
    } else if a.span.start > b.span.start && a in selected {
      var s :| s in selected && Overlaps(s.span, b.span) && Before(s.span, b.span);
      assert s.span != a.span;
    }
  }

  /** Of two matches with one span the earlier template is yielded first. */
  lemma EarlierTemplateFirst(matches: seq<RuleMatch>, a: RuleMatch, b: RuleMatch)
    requires DeclaredOrder(matches) && a in matches && a.span == b.span && FirstWithSpan(b, matches)
    ensures b.template <= a.template
  {
    var k :| 0 <= k < |matches| && matches[k] == b && forall j :: 0 <= j < k ==> matches[j].span != b.span;
    var i :| 0 <= i < |matches| && matches[i] == a;
    assert k <= i;
  }

  /** If these two are all there is, the earlier template wins exactly when it does not start later. */
  lemma TieOfTwo(a: RuleMatch, b: RuleMatch, selected: seq<RuleMatch>)
    requires a.template < b.template && Tied(a, b) && a.span.start < a.span.end
    requires IsSelection([a, b], selected)
    ensures selected == if a.span.start <= b.span.start then [a] else [b]
  {
    var winner := if a.span.start <= b.span.start then a else b;
    SelectionOfTwo(a, b, winner);
    SelectionIsDeterministic([a, b], selected, [winner]);
  }

  lemma SelectionOfTwo(a: RuleMatch, b: RuleMatch, winner: RuleMatch)
    requires Tied(a, b) && a.span.start < a.span.end
    requires winner == if a.span.start <= b.span.start then a else b
    ensures IsSelection([a, b], [winner])
  {
    var both := [a, b];
    assert both[0] == a && both[1] == b;
    assert winner in [winner];
    assert Blocked(a, [winner]) && Blocked(b, [winner]);
    assert FirstWithSpan(winner, both);
  }

  /** The earlier template starts later than a match it ties with. */
  predicate Upset(a: RuleMatch, b: RuleMatch) {
    a.template < b.template && Tied(a, b) && b.span.start < a.span.start
  }

  lemma NoUpsetRespectsTemplates(matches: seq<RuleMatch>, selected: seq<RuleMatch>)
    requires DeclaredOrder(matches) && IsSelection(matches, selected)
    requires forall m | m in matches :: m.span.start < m.span.end
    requires forall a, b | a in matches && b in matches :: !Upset(a, b)
    ensures RespectsTemplates(matches, selected)
  {
    forall m | m in matches && m !in selected
      ensures exists s :: s in selected && Overlaps(s.span, m.span) && BeforeByTemplate(s, m)
    {
      var s :| s in selected && Overlaps(s.span, m.span) && Before(s.span, m.span);
      if s.span == m.span {
        EarlierTemplateFirst(matches, m, s);
      }
      assert !Upset(m, s);
      assert BeforeByTemplate(s, m);
    }
  }

  /**
   * When the documentation is right: the templates decide in all yields that can be drawn from a pool of
   * matches if and only if no match of the pool starts later than one that it ties with and that belongs
   * to a later template.
   */
  lemma TemplatesDecideIff(pool: set<RuleMatch>)
    requires forall m | m in pool :: m.span.start < m.span.end
    ensures (forall matches, selected ::
               DeclaredOrder(matches) && (forall m | m in matches :: m in pool) && IsSelection(matches, selected)
               ==> RespectsTemplates(matches, selected))
            <==> (forall a, b | a in pool && b in pool :: !Upset(a, b))
  {
    if a, b :| a in pool && b in pool && Upset(a, b) {
      var both := [a, b];
      assert both[0] == a && both[1] == b;
      SelectionOfTwo(a, b, b);
      assert a in both && !BeforeByTemplate(b, a);
      assert DeclaredOrder(both) && !RespectsTemplates(both, [b]);
    } else {
      forall matches, selected
        | DeclaredOrder(matches) && (forall m | m in matches :: m in pool) && IsSelection(matches, selected)
        ensures RespectsTemplates(matches, selected)
      {
        NoUpsetRespectsTemplates(matches, selected);
      }
    }
  }

  /**
   * The yields of `החלטת ממשלה 1 דן תמך חוק אב`: the vote match loses to an equally long reference to a
   * government decision that starts earlier, although the vote template is declared first. They share
   * the blank between them.
   */
  lemma TieBreakFails() returns (matches: seq<RuleMatch>, selected: seq<RuleMatch>)
    ensures DeclaredOrder(matches) && IsSelection(matches, selected) && !RespectsTemplates(matches, selected)
    ensures matches == [RuleMatch(0, Span(13, 27), map["subject" := " דן", "bill" := "אב"]),
                        RuleMatch(14, Span(0, 14), map["decision_number" := "1"])]
    ensures selected == [matches[1]]
  {
    var vote := RuleMatch(0, Span(13, 27), map["subject" := " דן", "bill" := "אב"]);
    var decision := RuleMatch(14, Span(0, 14), map["decision_number" := "1"]);
    matches, selected := [vote, decision], [decision];
    SelectionOfTwo(vote, decision, decision);
    assert matches[0] in matches && !BeforeByTemplate(decision, vote);
  }

  // ---- Coverage within a factor of three ----

  function Total(ms: seq<RuleMatch>): int {
    if ms == [] then 0 else ms[0].span.end - ms[0].span.start + Total(ms[1..])
  }

  function Range(lo: int, hi: int): (s: set<int>)
    ensures forall i: int :: i in s <==> lo <= i < hi
    decreases hi - lo
  {
    if lo < hi then Range(lo, hi - 1) + {hi - 1} else {}
  }

  lemma {:induction false} RangeSize(lo: int, hi: int)
    requires lo <= hi
    ensures |Range(lo, hi)| == hi - lo
    decreases hi - lo
  {
    if lo < hi {
      RangeSize(lo, hi - 1);
    }
  }

  datatype Interval = Interval(lo: int, hi: int)

  /** How far a match that loses to a selected span of this length can stick out of it on the left. */
  function LeftReach(len: int): nat {
    if len > 2 then len - 2 else 0
  }

  function RightReach(len: int): nat {
    if len > 1 then len - 1 else 0
  }

  /** Where the matches that lose to a selected span lie; it may stick out of the statement. */
  function Halo(s: Span): Interval {
    Interval(s.start - LeftReach(s.end - s.start), s.end + RightReach(s.end - s.start))
  }

  /** The length of all halos: 3 * (len - 1) for a span of two characters or more, else its own length. */
  function Reach(ms: seq<RuleMatch>): int {
    if ms == [] then 0
    else
      var len := ms[0].span.end - ms[0].span.start;
      len + LeftReach(len) + RightReach(len) + Reach(ms[1..])
  }

  /** The characters covered by `ms`. */
  function Cover(ms: seq<RuleMatch>): set<int> {
    if ms == [] then {} else Range(ms[0].span.start, ms[0].span.end) + Cover(ms[1..])
  }

  function HaloCover(ms: seq<RuleMatch>): set<int> {
    if ms == [] then {} else Range(Halo(ms[0].span).lo, Halo(ms[0].span).hi) + HaloCover(ms[1..])
  }

  ghost predicate WellFormed(ms: seq<RuleMatch>) {
    forall m | m in ms :: m.span.start <= m.span.end
  }

  lemma {:induction false} CoverContains(ms: seq<RuleMatch>, p: int) returns (m: RuleMatch)
    requires p in Cover(ms)
    ensures m in ms && m.span.start <= p < m.span.end
  {
    if ms[0].span.start <= p < ms[0].span.end {
      m := ms[0];
    } else {
      m := CoverContains(ms[1..], p);
    }
  }

  lemma {:induction false} HaloCoverContains(ms: seq<RuleMatch>, m: RuleMatch, p: int)
    requires m in ms && Halo(m.span).lo <= p < Halo(m.span).hi
    ensures p in HaloCover(ms)
  {
    if m != ms[0] {
      HaloCoverContains(ms[1..], m, p);
    }
  }

  lemma SubsetSize(a: set<int>, b: set<int>)
    requires a <= b
    ensures |a| <= |b|
  {
    assert b == a + (b - a);
  }

  /** Spans that do not overlap cover as many characters as their lengths add up to. */
  lemma {:induction false} DisjointCover(ms: seq<RuleMatch>)
    requires WellFormed(ms) && Disjoint(ms)
    ensures |Cover(ms)| == Total(ms)
  {
    if ms != [] {
      var s := ms[0].span;
      assert ms[0] in ms;
      DisjointCover(ms[1..]);
      RangeSize(s.start, s.end);
      forall p | p in Cover(ms[1..]) ensures p !in Range(s.start, s.end) {
        var m := CoverContains(ms[1..], p);
        var k :| 0 <= k < |ms[1..]| && ms[1..][k] == m;
        assert !Overlaps(ms[0].span, ms[k + 1].span);
      }
      assert Range(s.start, s.end) * Cover(ms[1..]) == {};
    }
  }

  lemma {:induction false} HaloSize(ms: seq<RuleMatch>)
    requires WellFormed(ms)
    ensures |HaloCover(ms)| <= Reach(ms)
  {
    if ms != [] {
      assert ms[0] in ms;
      HaloSize(ms[1..]);
      var h := Halo(ms[0].span);
      RangeSize(h.lo, h.hi);
      var a, b := Range(h.lo, h.hi), HaloCover(ms[1..]);
      assert a + b == a + (b - a);
      SubsetSize(b - a, b);
    }
  }

  lemma {:induction false} ReachWithinThree(ms: seq<RuleMatch>)
    requires WellFormed(ms)
    ensures Reach(ms) <= 3 * Total(ms)
    ensures (forall m | m in ms :: m.span.start < m.span.end) ==> Reach(ms) <= 3 * Total(ms) - 2 * |ms|
    ensures (forall m | m in ms :: m.span.start + 2 <= m.span.end) ==> Reach(ms) == 3 * Total(ms) - 3 * |ms|
  {
    if ms != [] {
      assert ms[0] in ms;
      assert forall m | m in ms[1..] :: m in ms;
      ReachWithinThree(ms[1..]);
    }
  }

  lemma RivalInHalo(matches: seq<RuleMatch>, selected: seq<RuleMatch>, t: RuleMatch, p: int)
    requires IsSelection(matches, selected) && t in matches && t.span.start <= p < t.span.end
    ensures p in HaloCover(selected)
  {
    if t in selected {
      HaloCoverContains(selected, t, p);
    } else {
      var s :| s in selected && Overlaps(s.span, t.span) && Before(s.span, t.span);
      HaloCoverContains(selected, s, p);
    }
  }

  /**
   * No choice of pairwise non-overlapping matches covers more than three times what the selection
   * covers: each of its characters lies in the halo of a selected span.
   */
  lemma WithinFactorThree(matches: seq<RuleMatch>, selected: seq<RuleMatch>, rival: seq<RuleMatch>)
    requires WellFormed(matches) && IsSelection(matches, selected)
    requires Disjoint(rival) && forall m | m in rival :: m in matches
    ensures Total(rival) <= Reach(selected) <= 3 * Total(selected)
    ensures (forall m | m in matches :: m.span.start < m.span.end) ==> Total(rival) <= 3 * Total(selected) - 2 * |selected|
  {
    forall p | p in Cover(rival) ensures p in HaloCover(selected) {
      var t := CoverContains(rival, p);
      RivalInHalo(matches, selected, t, p);
    }
    DisjointCover(rival);
    HaloSize(selected);
    ReachWithinThree(selected);
    SubsetSize(Cover(rival), HaloCover(selected));
  }

  /** The bound is attained: one selected span of length n beats three matches of total length 3 * (n - 1). */
  lemma FactorThreeIsSharp(n: nat) returns (matches: seq<RuleMatch>, selected: seq<RuleMatch>, rival: seq<RuleMatch>)
    requires n >= 2
    ensures WellFormed(matches) && IsSelection(matches, selected)
    ensures Disjoint(rival) && forall m | m in rival :: m in matches
    ensures Total(selected) == n && Total(rival) == Reach(selected) == 3 * (n - 1)
  {
    var winner := RuleMatch(0, Span(n, 2 * n), map[]);
    var left, middle := RuleMatch(0, Span(2, n + 1), map[]), RuleMatch(0, Span(n + 1, 2 * n - 1), map[]);
    var right := RuleMatch(0, Span(2 * n - 1, 3 * n - 1), map[]);
    selected, rival := [winner], [left, middle, right];
    matches := [winner] + rival;
    assert matches[0] == winner && matches[1] == left && matches[2] == middle && matches[3] == right;
    assert winner in selected;
    assert Blocked(left, selected) && Blocked(middle, selected) && Blocked(right, selected);
    assert FirstWithSpan(winner, matches);
    TotalOfThree(left, middle, right);
    assert selected[1..] == [];
  }

  lemma TotalOfThree(a: RuleMatch, b: RuleMatch, c: RuleMatch)
    ensures Total([a, b, c]) == a.span.end - a.span.start + b.span.end - b.span.start + c.span.end - c.span.start
  {
    assert [a, b, c][1..] == [b, c] && [b, c][1..] == [c] && [c][1..] == [];
    assert Total([c]) == c.span.end - c.span.start;
    assert Total([b, c]) == b.span.end - b.span.start + Total([c]);
  }
}
