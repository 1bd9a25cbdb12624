/** Five-axis scoring and ordering of retrieved evidence. */
module Rerank {
  import opened Wrappers
  import opened Text
  import opened Sorting
  import opened ClaimSlots

  /** A Python dict of strings: pairs in insertion order, keys distinct. */
  type Dict = seq<(string, string)>

  function Lookup(d: Dict, key: string): Option<string> {
    if d == [] then None else if d[0].0 == key then Some(d[0].1) else Lookup(d[1..], key)
  }

  function Values(d: Dict): seq<string> {
    seq(|d|, i requires 0 <= i < |d| => d[i].1)
  }

  /**
   * The properties of a graph row that some engine reads. A missing or null time is the empty string;
   * `seatsWon` is absent also when it cannot be read as an integer.
   */
  datatype Facts = Facts(occurredAt: string, voteValue: Option<string>, presence: Option<string>,
                         seatsWon: Option<int>, passedThreshold: Option<bool>, governmentDecisionId: Option<string>)

  datatype Evidence =
    | Graph(claimType: ClaimType, nodeIds: Dict, facts: Facts, documentIds: seq<string>, tier: int)
    | Lexical(spanId: string, documentId: string, text: string, tier: int, capturedAt: string)

  datatype TimeBounds = TimeBounds(start: Option<string>, end: Option<string>)

  /** What a claim asks of its evidence; an empty scope mapping counts as no scope. */
  datatype Query = Query(claimType: ClaimType, scope: Option<TimeBounds>, resolvedIds: Dict)

  /** Axis scores in hundredths, `overall` in ten-thousandths: every weighted sum is then exact. */
  datatype Score = Score(tier: int, directness: int, temporal: int, entity: int, cross: int,
                         overall: int, evidence: Evidence)

  function TierScore(tier: int): int {
    if tier == 1 then 100 else if tier == 2 then 60 else if tier == 3 then 30 else 10
  }

  function DirectnessScore(e: Evidence, claimType: ClaimType): int {
    match e
    case Graph(t, _, _, _, _) => if t == claimType then 100 else 60
    case Lexical(_, _, text, _, _) =>
      var stripped := Strip(text);
      if stripped == "" then 0 else if |stripped| < 160 then 75 else 50
  }

  /** `bound and value < bound`, and its mirror image: an absent or empty bound excludes nothing. */
  predicate BeforeStart(value: string, scope: TimeBounds) {
    scope.start.Some? && scope.start.value != "" && Less(value, scope.start.value)
  }

  predicate AfterEnd(value: string, scope: TimeBounds) {
    scope.end.Some? && scope.end.value != "" && Less(scope.end.value, value)
  }

  function TemporalScore(e: Evidence, scope: Option<TimeBounds>): int {
    match scope
    case None => 50
    case Some(bounds) =>
      match e
      case Graph(_, _, facts, _, _) =>
        if facts.occurredAt == "" then 60
        else if BeforeStart(facts.occurredAt, bounds) then 20
        else if AfterEnd(facts.occurredAt, bounds) then 20
        else 100
      case Lexical(_, _, _, _, capturedAt) =>
        if capturedAt == "" then 50
        else if BeforeStart(capturedAt, bounds) then 40
        else if AfterEnd(capturedAt, bounds) then 40
        else 80
  }

  function Hits(resolvedIds: Dict, nodeIds: Dict): nat {
    if resolvedIds == [] then 0
    else
      (if Lookup(nodeIds, resolvedIds[0].0) == Some(resolvedIds[0].1) then 1 else 0) + Hits(resolvedIds[1..], nodeIds)
  }

  function EntityScore(e: Evidence, resolvedIds: Dict): int {
    if resolvedIds == [] then 50
    else if e.Lexical? then 60
    else
      var hits := Hits(resolvedIds, e.nodeIds);
      if hits == 0 then 20 else if 50 + 25 * hits < 100 then 50 + 25 * hits else 100
  }

  function CrossScore(documents: nat): int {
    if documents <= 1 then 30 else if documents == 2 then 70 else 100
  }

  function Overall(tier: int, directness: int, temporal: int, entity: int, cross: int): int {
    30 * tier + 25 * directness + 20 * temporal + 15 * entity + 10 * cross
  }

  function ScoreOf(e: Evidence, q: Query, documents: nat): Score {
    var tier, directness := TierScore(e.tier), DirectnessScore(e, q.claimType);
    var temporal, entity := TemporalScore(e, q.scope), EntityScore(e, q.resolvedIds);
    var cross := CrossScore(documents);
    Score(tier, directness, temporal, entity, cross, Overall(tier, directness, temporal, entity, cross), e)
  }

  function DocumentsOf(e: Evidence): set<string> {
    match e
    case Graph(_, _, _, documentIds, _) => set d | d in documentIds
    case Lexical(_, documentId, _, _, _) => if documentId == "" then {} else {documentId}
  }

  function Documents(es: seq<Evidence>): set<string> {
    set e, d | e in es && d in DocumentsOf(e) :: d
  }

  function ScoreAll(es: seq<Evidence>, q: Query, documents: nat): seq<Score> {
    seq(|es|, i requires 0 <= i < |es| => ScoreOf(es[i], q, documents))
  }

  function Join(parts: seq<string>): string {
    if parts == [] then "" else if |parts| == 1 then parts[0] else parts[0] + ":" + Join(parts[1..])
  }

  function StableKey(e: Evidence): string {
    match e
    case Graph(_, nodeIds, _, _, _) => "g:" + Join(Sort(Values(nodeIds), AtMost))
    case Lexical(spanId, _, _, _, _) => "l:" + spanId
  }

  /** Higher overall first, then the smaller stable key. */
  predicate RanksBefore(a: Score, b: Score) {
    a.overall > b.overall || (a.overall == b.overall && AtMost(StableKey(a.evidence), StableKey(b.evidence)))
  }

  function Ranked(es: seq<Evidence>, q: Query): seq<Score> {
    Sort(ScoreAll(es, q, |Documents(es)|), RanksBefore)
  }

  lemma DocumentsAppend(es: seq<Evidence>, e: Evidence)
    ensures Documents(es + [e]) == Documents(es) + DocumentsOf(e)
  {
    assert forall x :: x in es + [e] <==> x in es || x == e;
  }

  method RerankAll(evidences: seq<Evidence>, q: Query) returns (ranked: seq<Score>)
    ensures ranked == Ranked(evidences, q)
  {
    var documents: set<string> := {};
    for i := 0 to |evidences|
      invariant documents == Documents(evidences[..i])
    {
      DocumentsAppend(evidences[..i], evidences[i]);
      assert evidences[..i + 1] == evidences[..i] + [evidences[i]];
      match evidences[i] {
        case Graph(_, _, _, documentIds, _) =>
          documents := documents + set d | d in documentIds;
        case Lexical(_, documentId, _, _, _) =>
          if documentId != "" {
            documents := documents + {documentId};
          }
      }
    }
    assert evidences[..|evidences|] == evidences;
    var scored: seq<Score> := [];
    for i := 0 to |evidences|
      invariant |scored| == i
      invariant forall k | 0 <= k < i :: scored[k] == ScoreOf(evidences[k], q, |documents|)
    {
      scored := scored + [ScoreOf(evidences[i], q, |documents|)];
    }
    assert scored == ScoreAll(evidences, q, |documents|);
    ranked := Sort(scored, RanksBefore);
  }

  // ---- What the ranking is ----

  function EvidenceOf(scores: seq<Score>): seq<Evidence> {
    seq(|scores|, i requires 0 <= i < |scores| => scores[i].evidence)
  }

  lemma {:induction false} EvidenceWithout(s: Score, scores: seq<Score>)
    requires s in scores
    ensures multiset(EvidenceOf(scores)) == multiset(EvidenceOf(Without(s, scores))) + multiset{s.evidence}
  {
    assert EvidenceOf(scores) == [scores[0].evidence] + EvidenceOf(scores[1..]);
    if scores[0] == s {
      assert Without(s, scores) == scores[1..];
    } else {
      EvidenceWithout(s, scores[1..]);
      assert EvidenceOf([scores[0]] + Without(s, scores[1..])) ==
             [scores[0].evidence] + EvidenceOf(Without(s, scores[1..]));
    }
  }

  lemma {:induction false} EvidenceMultiset(a: seq<Score>, b: seq<Score>)
    requires multiset(a) == multiset(b)
    ensures multiset(EvidenceOf(a)) == multiset(EvidenceOf(b))
  {
    if |a| == 0 {
      assert |b| == |multiset(b)| == |multiset(a)| == 0;
    } else {
      SubMultisetTail(a, b);
      EvidenceMultiset(a[1..], Without(a[0], b));
      EvidenceWithout(a[0], b);
      assert EvidenceOf(a) == [a[0].evidence] + EvidenceOf(a[1..]);
    }
  }

  /** The ranked evidence is the input, each item as often as it came in, scored against the whole set. */
  lemma RankingIsPermutation(es: seq<Evidence>, q: Query)
    ensures multiset(EvidenceOf(Ranked(es, q))) == multiset(es)
    ensures multiset(Ranked(es, q)) == multiset(ScoreAll(es, q, |Documents(es)|))
  {
    var scores := ScoreAll(es, q, |Documents(es)|);
    assert EvidenceOf(scores) == es;
    EvidenceMultiset(Ranked(es, q), scores);
  }

  lemma RankedMembers(es: seq<Evidence>, q: Query)
    ensures multiset(EvidenceOf(Ranked(es, q))) == multiset(es)
    ensures |Ranked(es, q)| == |es|
    ensures forall s | s in Ranked(es, q) :: s.evidence in es && s == ScoreOf(s.evidence, q, |Documents(es)|)
    ensures forall e | e in es :: ScoreOf(e, q, |Documents(es)|) in Ranked(es, q)
  {
    var scores := ScoreAll(es, q, |Documents(es)|);
    RankingIsPermutation(es, q);
    SortMembers(scores, RanksBefore);
    forall e | e in es ensures ScoreOf(e, q, |Documents(es)|) in Ranked(es, q) {
      var k :| 0 <= k < |es| && es[k] == e;
      assert scores[k] == ScoreOf(e, q, |Documents(es)|);
    }
  }

  lemma RankIsTotalPreorder()
    ensures TotalPreorder(RanksBefore)
  {
    forall a: Score, b: Score ensures RanksBefore(a, b) || RanksBefore(b, a) {
      LessTotal(StableKey(a.evidence), StableKey(b.evidence));
    }
    forall a: Score, b: Score, c: Score | RanksBefore(a, b) && RanksBefore(b, c) ensures RanksBefore(a, c) {
      if a.overall == b.overall == c.overall {
        AtMostTransitive(StableKey(a.evidence), StableKey(b.evidence), StableKey(c.evidence));
      }
    }
  }

  lemma {:induction false} ScoreAllWithout(e: Evidence, es: seq<Evidence>, q: Query, documents: nat)
    requires e in es
    ensures multiset(ScoreAll(es, q, documents)) ==
              multiset(ScoreAll(Without(e, es), q, documents)) + multiset{ScoreOf(e, q, documents)}
  {
    assert es == [es[0]] + es[1..];
    ScoreAllHead(es[0], es[1..], q, documents);
    if es[0] == e {
      assert Without(e, es) == es[1..];
    } else {
      ScoreAllWithout(e, es[1..], q, documents);
      ScoreAllHead(es[0], Without(e, es[1..]), q, documents);
    }
  }

  lemma ScoreAllHead(e: Evidence, es: seq<Evidence>, q: Query, documents: nat)
    ensures ScoreAll([e] + es, q, documents) == [ScoreOf(e, q, documents)] + ScoreAll(es, q, documents)
  {
  }

  lemma {:induction false} ScoreAllMultiset(es: seq<Evidence>, fs: seq<Evidence>, q: Query, documents: nat)
    requires multiset(es) <= multiset(fs)
    ensures multiset(ScoreAll(es, q, documents)) <= multiset(ScoreAll(fs, q, documents))
  {
    if |es| > 0 {
      SubMultisetTail(es, fs);
      ScoreAllMultiset(es[1..], Without(es[0], fs), q, documents);
      ScoreAllWithout(es[0], fs, q, documents);
      assert es == [es[0]] + es[1..];
      ScoreAllHead(es[0], es[1..], q, documents);
    }
  }

  lemma DocumentsGrow(es: seq<Evidence>, fs: seq<Evidence>)
    requires forall e | e in es :: e in fs
    ensures |Documents(es)| <= |Documents(fs)|
  {
    assert Documents(fs) == Documents(es) + (Documents(fs) - Documents(es));
  }

  lemma SameMultisetSameMembers(es: seq<Evidence>, fs: seq<Evidence>)
    requires multiset(es) <= multiset(fs)
    ensures forall e | e in es :: e in fs
  {
    forall e | e in es ensures e in fs {
      assert e in multiset(es);
    }
  }

  /**
   * The ranking is sorted, scores every item against the whole evidence set, and does not depend on
   * the order of retrieval except among items that tie on score and stable key.
   */
  lemma RankingIgnoresInputOrder(es: seq<Evidence>, fs: seq<Evidence>, q: Query)
    requires multiset(es) == multiset(fs)
    ensures Sorted(Ranked(es, q), RanksBefore)
    ensures multiset(Ranked(es, q)) == multiset(Ranked(fs, q))
    ensures (forall s, t | s in Ranked(es, q) && t in Ranked(es, q) && RanksBefore(s, t) && RanksBefore(t, s) :: s == t)
            ==> Ranked(es, q) == Ranked(fs, q)
  {
    SameMultisetSameMembers(es, fs);
    SameMultisetSameMembers(fs, es);
    assert Documents(es) == Documents(fs);
    ScoreAllMultiset(es, fs, q, |Documents(es)|);
    ScoreAllMultiset(fs, es, q, |Documents(es)|);
    RankIsTotalPreorder();
    SortSorted(ScoreAll(es, q, |Documents(es)|), RanksBefore);
    SortSorted(ScoreAll(fs, q, |Documents(fs)|), RanksBefore);
    if forall s, t | s in Ranked(es, q) && t in Ranked(es, q) && RanksBefore(s, t) && RanksBefore(t, s) :: s == t {
      SortedUnique(Ranked(es, q), Ranked(fs, q), RanksBefore);
    }
  }

  ghost predicate InRange(s: Score) {
    && 0 <= s.tier <= 100 && 0 <= s.directness <= 100 && 0 <= s.temporal <= 100
    && 0 <= s.entity <= 100 && 0 <= s.cross <= 100
    && s.overall == Overall(s.tier, s.directness, s.temporal, s.entity, s.cross)
  }

  lemma ScoresInRange(es: seq<Evidence>, q: Query)
    ensures forall s | s in Ranked(es, q) :: InRange(s)
  {
    RankedMembers(es, q);
  }

  /** More evidence never lowers an axis of an item that was already there. */
  lemma RankingDominated(es: seq<Evidence>, fs: seq<Evidence>, q: Query, s: Score) returns (t: Score)
    requires multiset(es) <= multiset(fs) && s in Ranked(es, q)
    ensures t in Ranked(fs, q) && t.evidence == s.evidence
    ensures t.tier == s.tier && t.directness == s.directness && t.temporal == s.temporal && t.entity == s.entity
    ensures t.cross >= s.cross
  {
    SameMultisetSameMembers(es, fs);
    DocumentsGrow(es, fs);
    RankedMembers(es, q);
    RankedMembers(fs, q);
    t := ScoreOf(s.evidence, q, |Documents(fs)|);
  }

  function LexicalCount(ranked: seq<Score>): nat {
    |Filter(ranked, (s: Score) => s.evidence.Lexical?)|
  }

  lemma {:induction false} LexicalCountOfScores(es: seq<Evidence>, q: Query, documents: nat)
    ensures LexicalCount(ScoreAll(es, q, documents)) == |Filter(es, (e: Evidence) => e.Lexical?)|
  {
    if |es| > 0 {
      LexicalCountOfScores(es[1..], q, documents);
      assert ScoreAll(es, q, documents)[1..] == ScoreAll(es[1..], q, documents);
    }
  }

  lemma LexicalCountOfRanking(es: seq<Evidence>, q: Query)
    ensures LexicalCount(Ranked(es, q)) == |Filter(es, (e: Evidence) => e.Lexical?)|
  {
    var scores := ScoreAll(es, q, |Documents(es)|);
    LexicalCountOfScores(es, q, |Documents(es)|);
    FilterCountMonotone(scores, Ranked(es, q), (s: Score) => s.evidence.Lexical?);
    FilterCountMonotone(Ranked(es, q), scores, (s: Score) => s.evidence.Lexical?);
  }

  // ---- Every score in ten-thousandths ----

  function TierPoints(tier: int): int {
    match tier
    case 1 => 3000
    case 2 => 1800
    case 3 => 900
    case _ => 300
  }

  /** A record of the claim's own type, of another type, and text that is missing, short or long. */
  function TextPoints(e: Evidence, claimType: ClaimType): int {
    if e.Graph? then (if e.claimType == claimType then 2500 else 1500)
    else if |Strip(e.text)| == 0 then 0
    else if |Strip(e.text)| >= 160 then 1250
    else 1875
  }

  function StampOf(e: Evidence): string {
    if e.Graph? then e.facts.occurredAt else e.capturedAt
  }

  predicate OutOfScope(value: string, scope: TimeBounds) {
    || (scope.start.Some? && scope.start.value != "" && Less(value, scope.start.value))
    || (scope.end.Some? && scope.end.value != "" && Less(scope.end.value, value))
  }

  /** No scope, no stamp, outside, inside. */
  function TimePoints(e: Evidence, scope: Option<TimeBounds>): int {
    if scope.None? then 1000
    else if StampOf(e) == "" then (if e.Graph? then 1200 else 1000)
    else if OutOfScope(StampOf(e), scope.value) then (if e.Graph? then 400 else 800)
    else if e.Graph? then 2000
    else 1600
  }

  /** How many of the resolved identifiers the node carries. */
  function Matching(resolvedIds: Dict, nodeIds: Dict): nat {
    |Filter(resolvedIds, (p: (string, string)) => Lookup(nodeIds, p.0) == Some(p.1))|
  }

  function EntityPoints(e: Evidence, resolvedIds: Dict): int {
    if resolvedIds == [] then 750
    else if e.Lexical? then 900
    else
      match Matching(resolvedIds, e.nodeIds)
      case 0 => 300
      case 1 => 1125
      case _ => 1500
  }

  function DocumentPoints(documents: nat): int {
    match documents
    case 0 => 300
    case 1 => 300
    case 2 => 700
    case _ => 1000
  }

  /** A key has the value of its first pair. */
  lemma {:induction false} LookupMeaning(d: Dict, key: string)
    ensures Lookup(d, key).None? <==> forall p | p in d :: p.0 != key
    ensures Lookup(d, key).Some? ==>
              exists i :: 0 <= i < |d| && d[i] == (key, Lookup(d, key).value) && forall j | 0 <= j < i :: d[j].0 != key
  {
    if d != [] && d[0].0 != key {
      LookupMeaning(d[1..], key);
      assert d == [d[0]] + d[1..];
      if Lookup(d[1..], key).Some? {
        var i :| 0 <= i < |d[1..]| && d[1..][i] == (key, Lookup(d, key).value) && forall j | 0 <= j < i :: d[1..][j].0 != key;
        assert d[i + 1] == (key, Lookup(d, key).value);
        assert forall j | 0 <= j < i + 1 :: d[j].0 != key;
      }
    }
  }

  lemma {:induction false} HitsAreMatches(resolvedIds: Dict, nodeIds: Dict)
    ensures Hits(resolvedIds, nodeIds) == Matching(resolvedIds, nodeIds)
  {
    if resolvedIds != [] {
      HitsAreMatches(resolvedIds[1..], nodeIds);
    }
  }

  /** What each axis contributes, from the evidence itself and in numbers. */
  lemma ExactAxes(e: Evidence, q: Query, documents: nat)
    ensures var s := ScoreOf(e, q, documents);
            && s.evidence == e
            && 30 * s.tier == TierPoints(e.tier)
            && 25 * s.directness == TextPoints(e, q.claimType)
            && 20 * s.temporal == TimePoints(e, q.scope)
            && 15 * s.entity == EntityPoints(e, q.resolvedIds)
            && 10 * s.cross == DocumentPoints(documents)
  {
    if e.Graph? {
      HitsAreMatches(q.resolvedIds, e.nodeIds);
    }
  }

  /** The overall score of an item in numbers. */
  lemma ExactScore(e: Evidence, q: Query, documents: nat)
    ensures ScoreOf(e, q, documents).overall ==
              TierPoints(e.tier) + TextPoints(e, q.claimType) + TimePoints(e, q.scope)
              + EntityPoints(e, q.resolvedIds) + DocumentPoints(documents)
  {
    ExactAxes(e, q, documents);
  }

  /** The weights: how much more an item scores overall for what it has more on each axis. */
  lemma AxisWeights(es: seq<Evidence>, q: Query, s: Score, fs: seq<Evidence>, r: Query, t: Score)
    requires s in Ranked(es, q) && t in Ranked(fs, r)
    ensures t.overall - s.overall ==
              30 * (t.tier - s.tier) + 25 * (t.directness - s.directness) + 20 * (t.temporal - s.temporal)
              + 15 * (t.entity - s.entity) + 10 * (t.cross - s.cross)
  {
    RankedMembers(es, q);
    RankedMembers(fs, r);
  }

  /** Which documents the cross-source axis counts. */
  lemma DocumentsMeaning(es: seq<Evidence>, d: string)
    ensures d in Documents(es) <==>
              exists e :: e in es && if e.Graph? then d in e.documentIds else d == e.documentId && d != ""
  {
    if e :| e in es && if e.Graph? then d in e.documentIds else d == e.documentId && d != "" {
      assert d in DocumentsOf(e);
    }
  }

  /** The order of a ranking, said of any two of its items. */
  lemma RankedDescending(es: seq<Evidence>, q: Query, i: nat, j: nat)
    requires i < j < |es|
    ensures |Ranked(es, q)| == |es| && Ranked(es, q)[i].overall >= Ranked(es, q)[j].overall
    ensures Ranked(es, q)[i].overall == Ranked(es, q)[j].overall && Ranked(es, q)[i].evidence.Lexical?
            ==> Ranked(es, q)[j].evidence.Lexical?
  {
    RankedMembers(es, q);
    RankingIgnoresInputOrder(es, es, q);
    var a, b := Ranked(es, q)[i], Ranked(es, q)[j];
    assert RanksBefore(a, b);
    RecordsKeyFirst(b.evidence, a.evidence);
  }

  lemma RecordsKeyFirst(e: Evidence, f: Evidence)
    ensures e.Graph? && f.Lexical? ==> Less(StableKey(e), StableKey(f))
  {
  }

  /** The key of a record depends on its identifiers only, not on the order of the mapping or their names. */
  lemma StableKeyIgnoresOrder(e: Evidence, f: Evidence)
    requires e.Graph? && f.Graph? && multiset(Values(e.nodeIds)) == multiset(Values(f.nodeIds))
    ensures StableKey(e) == StableKey(f)
  {
    AtMostIsTotalPreorder();
    SortSorted(Values(e.nodeIds), AtMost);
    SortSorted(Values(f.nodeIds), AtMost);
    forall a: string, b: string | AtMost(a, b) && AtMost(b, a) ensures a == b {
      LessTotal(a, b);
    }
    SortedUnique(Sort(Values(e.nodeIds), AtMost), Sort(Values(f.nodeIds), AtMost), AtMost);
  }

  lemma AtMostIsTotalPreorder()
    ensures TotalPreorder(AtMost)
  {
    forall a: string, b: string ensures AtMost(a, b) || AtMost(b, a) {
      LessTotal(a, b);
    }
    forall a: string, b: string, c: string | AtMost(a, b) && AtMost(b, c) ensures AtMost(a, c) {
      AtMostTransitive(a, b, c);
    }
  }
}
