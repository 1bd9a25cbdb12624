/** What reranking, confidence and verdict guarantee together. */
module VerdictProperties {
  import opened Wrappers
  import opened Calendar
  import Temporal
  import opened Sorting
  import opened ClaimSlots
  import opened Checkability
  import opened Rerank
  import opened Verdict

  /** A claim together with the way its evidence is scored; `claim.ranked` is replaced by the ranking. */
  function Judged(claim: Inputs, es: seq<Evidence>, q: Query): Inputs {
    claim.(ranked := Ranked(es, q))
  }

  // ---- Confidence against the ranking ----

  lemma OverallMonotone(a: Score, b: Confidence)
    requires a.tier <= b.authority && a.directness <= b.directness && a.temporal <= b.temporal
    requires a.entity <= b.entity && a.cross <= b.cross
    ensures Overall(a.tier, a.directness, a.temporal, a.entity, a.cross)
              <= Overall(b.authority, b.directness, b.temporal, b.entity, b.cross)
  {
  }

  lemma ItemBelowConfidence(ranked: seq<Score>, s: Score)
    requires s in ranked && InRange(s)
    ensures s.overall <= ConfidenceOf(ranked).overall
  {
    BestIsUpperBound(ranked, Tier);
    BestIsUpperBound(ranked, Directness);
    BestIsUpperBound(ranked, Temporal);
    BestIsUpperBound(ranked, Entity);
    BestIsUpperBound(ranked, Cross);
    assert On(Tier, s) == s.tier && On(Directness, s) == s.directness && On(Temporal, s) == s.temporal;
    assert On(Entity, s) == s.entity && On(Cross, s) == s.cross;
    OverallMonotone(s, ConfidenceOf(ranked));
  }

  lemma {:induction false} BestInRange(ranked: seq<Score>, axis: Axis)
    requires forall s | s in ranked :: InRange(s)
    ensures 0 <= Best(ranked, axis) <= 100
  {
    if |ranked| > 0 {
      assert InRange(ranked[0]);
      BestInRange(ranked[1..], axis);
    }
  }

  /** The confidence of a verdict is at least the score of every item it rests on, and at most one. */
  lemma ConfidenceCoversEvidence(es: seq<Evidence>, q: Query)
    ensures forall s | s in Ranked(es, q) :: s.overall <= ConfidenceOf(Ranked(es, q)).overall
    ensures 0 <= ConfidenceOf(Ranked(es, q)).overall <= 10000
  {
    var ranked := Ranked(es, q);
    ScoresInRange(es, q);
    forall s | s in ranked ensures s.overall <= ConfidenceOf(ranked).overall {
      ItemBelowConfidence(ranked, s);
    }
    BestInRange(ranked, Tier);
    BestInRange(ranked, Directness);
    BestInRange(ranked, Temporal);
    BestInRange(ranked, Entity);
    BestInRange(ranked, Cross);
  }

  /** More evidence never lowers the confidence. */
  lemma ConfidenceNeverFalls(es: seq<Evidence>, fs: seq<Evidence>, q: Query)
    requires multiset(es) <= multiset(fs)
    ensures ConfidenceOf(Ranked(es, q)).overall <= ConfidenceOf(Ranked(fs, q)).overall
  {
    forall axis: Axis ensures Best(Ranked(es, q), axis) <= Best(Ranked(fs, q), axis) {
      forall s | s in Ranked(es, q) ensures exists t :: t in Ranked(fs, q) && On(axis, t) >= On(axis, s) {
        var t := RankingDominated(es, fs, q, s);
      }
      BestMonotone(Ranked(es, q), Ranked(fs, q), axis);
    }
    assert Best(Ranked(es, q), Tier) <= Best(Ranked(fs, q), Tier);
    assert Best(Ranked(es, q), Directness) <= Best(Ranked(fs, q), Directness);
    assert Best(Ranked(es, q), Temporal) <= Best(Ranked(fs, q), Temporal);
    assert Best(Ranked(es, q), Entity) <= Best(Ranked(fs, q), Entity);
    assert Best(Ranked(es, q), Cross) <= Best(Ranked(fs, q), Cross);
  }

  // ---- Retrieval order ----

  lemma SameScoresSameConfidence(a: seq<Score>, b: seq<Score>)
    requires forall s :: s in a <==> s in b
    ensures ConfidenceOf(a) == ConfidenceOf(b)
  {
    forall axis: Axis ensures Best(a, axis) == Best(b, axis) {
      BestMonotone(a, b, axis);
      BestMonotone(b, a, axis);
    }
  }

  lemma SameScoresSameComparison(a: Inputs, b: Inputs)
    requires b == a.(ranked := b.ranked)
    requires forall s :: s in a.ranked <==> s in b.ranked
    requires LexicalCount(a.ranked) == LexicalCount(b.ranked)
    ensures ComparedStatus(a) == ComparedStatus(b)
    ensures HasTier1Hit(a) <==> HasTier1Hit(b)
  {
    assert HasHit(a) <==> HasHit(b);
    assert HasAgreeing(a) <==> HasAgreeing(b);
    assert HasDisagreeing(a) <==> HasDisagreeing(b);
  }

  lemma SameScoresSameJudgement(a: Inputs, b: Inputs)
    requires b == a.(ranked := b.ranked)
    requires |a.ranked| == |b.ranked| && forall s :: s in a.ranked <==> s in b.ranked
    requires LexicalCount(a.ranked) == LexicalCount(b.ranked)
    ensures StatusOf(a) == StatusOf(b)
    ensures ReportedConfidence(a) == ReportedConfidence(b)
    ensures ReviewNeeded(a) == ReviewNeeded(b)
  {
    SameScoresSameConfidence(a.ranked, b.ranked);
    SameScoresSameComparison(a, b);
  }

  /** Status, confidence vector and review flag are the same for every order in which evidence arrives. */
  lemma VerdictIgnoresRetrievalOrder(claim: Inputs, es: seq<Evidence>, fs: seq<Evidence>, q: Query)
    requires multiset(es) == multiset(fs)
    ensures var a, b := Judged(claim, es, q), Judged(claim, fs, q);
            && StatusOf(a) == StatusOf(b)
            && ReportedConfidence(a) == ReportedConfidence(b)
            && ReviewNeeded(a) == ReviewNeeded(b)
  {
    var a, b := Judged(claim, es, q), Judged(claim, fs, q);
    RankingIgnoresInputOrder(es, fs, q);
    SameMultisetSameElements(a.ranked, b.ranked);
    SameMultisetSameElements(b.ranked, a.ranked);
    FilterCountMonotone(a.ranked, b.ranked, (s: Score) => s.evidence.Lexical?);
    FilterCountMonotone(b.ranked, a.ranked, (s: Score) => s.evidence.Lexical?);
    assert |a.ranked| == |multiset(a.ranked)| == |multiset(b.ranked)| == |b.ranked|;
    SameScoresSameJudgement(a, b);
  }

  // ---- More evidence ----

  ghost predicate Grows(a: Inputs, b: Inputs) {
    && b == a.(ranked := b.ranked)
    && (HasHit(a) ==> HasHit(b))
    && (HasAgreeing(a) ==> HasAgreeing(b))
    && (HasDisagreeing(a) ==> HasDisagreeing(b))
    && (a.ranked != [] ==> b.ranked != [])
    && LexicalCount(a.ranked) <= LexicalCount(b.ranked)
  }

  lemma HitsAreKept(claim: Inputs, es: seq<Evidence>, fs: seq<Evidence>, q: Query)
    requires multiset(es) <= multiset(fs)
    ensures var a, b := Judged(claim, es, q), Judged(claim, fs, q);
            && (HasHit(a) ==> HasHit(b))
            && (HasAgreeing(a) ==> HasAgreeing(b))
            && (HasDisagreeing(a) ==> HasDisagreeing(b))
  {
    var a, b := Judged(claim, es, q), Judged(claim, fs, q);
    if HasHit(a) {
      var s :| s in a.ranked && IsHit(s, a.claimType);
      var t := HitIsKept(claim, es, fs, q, s);
    }
    if HasAgreeing(a) {
      var s :| s in a.ranked && IsHit(s, a.claimType) && Agrees(a, s);
      var t := HitIsKept(claim, es, fs, q, s);
    }
    if HasDisagreeing(a) {
      var s :| s in a.ranked && IsHit(s, a.claimType) && !Agrees(a, s);
      var t := HitIsKept(claim, es, fs, q, s);
    }
  }

  lemma HitIsKept(claim: Inputs, es: seq<Evidence>, fs: seq<Evidence>, q: Query, s: Score) returns (t: Score)
    requires multiset(es) <= multiset(fs) && s in Ranked(es, q) && IsHit(s, claim.claimType)
    ensures t in Ranked(fs, q) && IsHit(t, claim.claimType)
    ensures Agrees(Judged(claim, fs, q), t) <==> Agrees(Judged(claim, es, q), s)
  {
    t := RankingDominated(es, fs, q, s);
  }

  /** What a larger evidence set keeps of the comparison: hits, agreement, disagreement and lexical support. */
  lemma ComparisonGrows(claim: Inputs, es: seq<Evidence>, fs: seq<Evidence>, q: Query)
    requires multiset(es) <= multiset(fs)
    ensures Grows(Judged(claim, es, q), Judged(claim, fs, q))
  {
    var a, b := Judged(claim, es, q), Judged(claim, fs, q);
    HitsAreKept(claim, es, fs, q);
    if a.ranked != [] {
      var t := RankingDominated(es, fs, q, a.ranked[0]);
    }
    LexicalCountOfRanking(es, q);
    LexicalCountOfRanking(fs, q);
    FilterCountMonotone(es, fs, (e: Evidence) => e.Lexical?);
  }

  /**
   * A supported claim stays supported when evidence is added, whatever it says, except that a vote
   * with conflicting records becomes mixed.
   */
  lemma SupportIsStable(claim: Inputs, es: seq<Evidence>, fs: seq<Evidence>, q: Query)
    requires multiset(es) <= multiset(fs)
    requires StatusOf(Judged(claim, es, q)) == Supported
    ensures StatusOf(Judged(claim, fs, q)) ==
              if claim.claimType == VoteCast && HasDisagreeing(Judged(claim, fs, q)) then Mixed else Supported
  {
    ComparisonGrows(claim, es, fs, q);
    ConfidenceNeverFalls(es, fs, q);
    SupportGrows(Judged(claim, es, q), Judged(claim, fs, q));
  }

  lemma SupportGrows(a: Inputs, b: Inputs)
    requires Grows(a, b) && ConfidenceOf(a.ranked).overall <= ConfidenceOf(b.ranked).overall
    requires StatusOf(a) == Supported
    ensures StatusOf(b) == if a.claimType == VoteCast && HasDisagreeing(b) then Mixed else Supported
  {
    assert HasHit(a) && !HasDisagreeing(a) ==> HasAgreeing(a);
  }

  /**
   * Under more evidence a contradicted claim stays contradicted unless an agreeing record turns up; then it
   * is supported, or mixed if it is a vote.
   */
  lemma ContradictionIsStable(claim: Inputs, es: seq<Evidence>, fs: seq<Evidence>, q: Query)
    requires multiset(es) <= multiset(fs)
    requires StatusOf(Judged(claim, es, q)) == Contradicted
    ensures StatusOf(Judged(claim, fs, q)) ==
              if !HasAgreeing(Judged(claim, fs, q)) then Contradicted
              else if claim.claimType == VoteCast then Mixed
              else Supported
  {
    ComparisonGrows(claim, es, fs, q);
    ConfidenceNeverFalls(es, fs, q);
    ContradictionGrows(Judged(claim, es, q), Judged(claim, fs, q));
  }

  /** A contradicted vote can become mixed, but no amount of further evidence makes it supported. */
  lemma ContradictedVoteNeverSupported(claim: Inputs, es: seq<Evidence>, fs: seq<Evidence>, q: Query)
    requires multiset(es) <= multiset(fs) && claim.claimType == VoteCast
    requires StatusOf(Judged(claim, es, q)) == Contradicted
    ensures StatusOf(Judged(claim, fs, q)) ==
              if HasAgreeing(Judged(claim, fs, q)) then Mixed else Contradicted
  {
    ContradictionIsStable(claim, es, fs, q);
  }

  lemma ContradictionGrows(a: Inputs, b: Inputs)
    requires Grows(a, b) && ConfidenceOf(a.ranked).overall <= ConfidenceOf(b.ranked).overall
    requires StatusOf(a) == Contradicted
    ensures StatusOf(b) ==
              if !HasAgreeing(b) then Contradicted else if a.claimType == VoteCast then Mixed else Supported
  {
    assert HasHit(a) && !HasAgreeing(a) ==> HasDisagreeing(a);
  }

  // ---- What one hit is worth ----

  /** A hit of the claim's own type guarantees an overall confidence that depends only on its tier. */
  lemma HitGuarantee(es: seq<Evidence>, q: Query, e: Evidence)
    requires e in es && e.Graph? && e.claimType == q.claimType
    ensures ConfidenceOf(Ranked(es, q)).overall >= 30 * TierScore(e.tier) + 3500
  {
    RankedMembers(es, q);
    ConfidenceCoversEvidence(es, q);
    var s := ScoreOf(e, q, |Documents(es)|);
    assert s in Ranked(es, q);
    assert s.directness == 100 && s.temporal >= 20 && s.entity >= 20 && s.cross >= 30;
  }

  lemma RankedHits(claim: Inputs, es: seq<Evidence>, q: Query, s: Score)
    requires q.claimType == claim.claimType
    requires s in Ranked(es, q) && IsHit(s, claim.claimType)
    ensures s.evidence in es
    ensures ConfidenceOf(Ranked(es, q)).overall >= 30 * TierScore(s.evidence.tier) + 3500
  {
    RankedMembers(es, q);
    HitGuarantee(es, q, s.evidence);
  }

  /** A tier-1 hit means at least 0.65: the claim is compared, and reviewed exactly when the records are mixed. */
  lemma Tier1HitDecides(claim: Inputs, es: seq<Evidence>, q: Query)
    requires q.claimType == claim.claimType && claim.checkability == Checkable
    requires HasTier1Hit(Judged(claim, es, q))
    ensures var inp := Judged(claim, es, q);
            && ReportedConfidence(inp).overall >= 6500
            && StatusOf(inp) == ComparedStatus(inp)
            && (ReviewNeeded(inp) <==> StatusOf(inp) == Mixed)
  {
    var inp := Judged(claim, es, q);
    var s :| s in inp.ranked && IsHit(s, claim.claimType) && s.evidence.tier == 1;
    RankedHits(claim, es, q, s);
  }

  /** A tier-2 hit means at least 0.53: the claim is compared. */
  lemma Tier2HitCompares(claim: Inputs, es: seq<Evidence>, q: Query, s: Score)
    requires q.claimType == claim.claimType && claim.checkability == Checkable
    requires s in Ranked(es, q) && IsHit(s, claim.claimType) && s.evidence.tier == 2
    ensures ReportedConfidence(Judged(claim, es, q)).overall >= 5300
    ensures StatusOf(Judged(claim, es, q)) == ComparedStatus(Judged(claim, es, q))
  {
    RankedHits(claim, es, q, s);
  }

  /** A contradicted verdict goes to a human exactly when no tier-1 record of the claim's type backs it. */
  lemma ContradictionReview(claim: Inputs, es: seq<Evidence>, q: Query)
    requires q.claimType == claim.claimType
    requires StatusOf(Judged(claim, es, q)) == Contradicted
    ensures ReviewNeeded(Judged(claim, es, q)) <==> !HasTier1Hit(Judged(claim, es, q))
  {
    if HasTier1Hit(Judged(claim, es, q)) {
      Tier1HitDecides(claim, es, q);
    }
  }

  /** The tier-3 guarantee, 0.44, is attained and lies below the abstention line. */
  lemma Tier3HitMayAbstain() returns (claim: Inputs, es: seq<Evidence>, q: Query)
    ensures q.claimType == claim.claimType && claim.checkability == Checkable
    ensures exists s :: s in Ranked(es, q) && IsHit(s, claim.claimType) && s.evidence.tier == 3
    ensures ReportedConfidence(Judged(claim, es, q)).overall == 4400
    ensures StatusOf(Judged(claim, es, q)) == InsufficientEvidence
  {
    var occurred := Print(JUNE_2020) + Temporal.UTC;
    var e := Graph(OfficeHeld, [], Facts(occurred, None, None, None, None, None), [], 3);
    es := [e];
    q := Query(OfficeHeld, Some(Temporal.Bounds(Temporal.YearBounds(2021))), [("office_id", "x")]);
    claim := Inputs(OfficeHeld, Checkable, [], None, None, None, None);
    OutOfScopeHit(e, q);
    LoneEvidence(e, q);
    var s := ScoreOf(e, q, 0);
    assert s in Ranked(es, q);
    SingleItemConfidence(s);
  }

  lemma LoneEvidence(e: Evidence, q: Query)
    requires DocumentsOf(e) == {}
    ensures Ranked([e], q) == [ScoreOf(e, q, 0)]
  {
    assert Documents([e]) == {};
    assert ScoreAll([e], q, 0) == [ScoreOf(e, q, 0)];
  }

  const JUNE_2020 := Stamp(Date(2020, 6, 1), 0, 0, 0)

  /** An event of 2020, judged for the year 2021. */
  lemma OutOfScopeHit(e: Evidence, q: Query)
    requires e == Graph(OfficeHeld, [], Facts(Print(JUNE_2020) + Temporal.UTC, None, None, None, None, None), [], 3)
    requires q == Query(OfficeHeld, Some(Temporal.Bounds(Temporal.YearBounds(2021))), [("office_id", "x")])
    ensures ScoreOf(e, q, 0) == Score(30, 100, 20, 20, 30, 4400, e)
  {
    BeforeTheYear(e);
    NoNodeResolved(e);
  }

  lemma BeforeTheYear(e: Evidence)
    requires e.Graph? && e.facts.occurredAt == Print(JUNE_2020) + Temporal.UTC
    ensures TemporalScore(e, Some(Temporal.Bounds(Temporal.YearBounds(2021)))) == 20
  {
    NotInTheYear(JUNE_2020);
    Temporal.PrintNotEmpty(JUNE_2020);
    OutsideScores20(e, Temporal.YearBounds(2021));
  }

  lemma NotInTheYear(t: Stamp)
    requires ValidStamp(t) && t.date.year != 2021
    ensures !Temporal.Inside(Print(t) + Temporal.UTC, Temporal.YearBounds(2021))
  {
    Temporal.InsideMeansBelongs(t, Date(2021, 1, 1));
  }

  lemma OutsideScores20(e: Evidence, scope: Temporal.TimeScope)
    requires e.Graph? && e.facts.occurredAt != "" && !Temporal.Inside(e.facts.occurredAt, scope)
    ensures TemporalScore(e, Some(Temporal.Bounds(scope))) == 20
  {
  }

  lemma NoNodeResolved(e: Evidence)
    requires e.Graph? && e.nodeIds == []
    ensures EntityScore(e, [("office_id", "x")]) == 20
  {
    assert Hits([("office_id", "x")][1..], []) == 0;
  }

  lemma SingleItemConfidence(s: Score)
    requires InRange(s)
    ensures ConfidenceOf([s]).overall == s.overall
  {
    forall axis: Axis ensures Best([s], axis) == Max(On(axis, s), 0) {
      assert [s][1..] == [];
    }
  }

  /** The reported vector is the per-axis maxima, and its overall value their weighted sum. */
  lemma ConfidenceWeights(ranked: seq<Score>)
    ensures var c := ConfidenceOf(ranked);
            && c.authority == Best(ranked, Tier) && c.directness == Best(ranked, Directness)
            && c.temporal == Best(ranked, Temporal) && c.entity == Best(ranked, Entity) && c.cross == Best(ranked, Cross)
            && c.overall == 30 * c.authority + 25 * c.directness + 20 * c.temporal + 15 * c.entity + 10 * c.cross
  {
  }

  // ---- A single hit ----

  /** What a hit of the claim's own type scores beyond its tier and its type. */
  function Circumstances(e: Evidence, q: Query): int
    requires e.Graph?
  {
    TimePoints(e, q.scope) + EntityPoints(e, q.resolvedIds) + DocumentPoints(|DocumentsOf(e)|)
  }

  lemma LoneRanking(e: Evidence, q: Query)
    ensures Ranked([e], q) == [ScoreOf(e, q, |DocumentsOf(e)|)]
  {
    assert Documents([e]) == DocumentsOf(e);
    assert ScoreAll([e], q, |DocumentsOf(e)|) == [ScoreOf(e, q, |DocumentsOf(e)|)];
  }

  lemma LoneConfidence(e: Evidence, q: Query)
    ensures ConfidenceOf(Ranked([e], q)).overall ==
              TierPoints(e.tier) + TextPoints(e, q.claimType) + TimePoints(e, q.scope)
              + EntityPoints(e, q.resolvedIds) + DocumentPoints(|DocumentsOf(e)|)
  {
    LoneRanking(e, q);
    ScoresInRange([e], q);
    var s := ScoreOf(e, q, |DocumentsOf(e)|);
    assert s in Ranked([e], q);
    SingleItemConfidence(s);
    ExactScore(e, q, |DocumentsOf(e)|);
  }

  lemma LoneHitNeverMixed(inp: Inputs, s: Score)
    requires inp.ranked == [s] && IsHit(s, inp.claimType)
    ensures ComparedStatus(inp) != Mixed && (HasTier1Hit(inp) <==> s.evidence.tier == 1)
  {
    assert s in inp.ranked;
    assert LexicalCount([s]) == 0;
  }

  /**
   * The exact lines at which the engine abstains on a claim with one hit of its type, and at which it asks
   * for a review, for each tier and in ten-thousandths.
   */
  lemma LoneHitReview(claim: Inputs, e: Evidence, q: Query)
    requires e.Graph? && e.claimType == q.claimType == claim.claimType && claim.checkability == Checkable
    ensures var inp, rest := Judged(claim, [e], q), Circumstances(e, q);
            && ReportedConfidence(inp).overall == TierPoints(e.tier) + 2500 + rest
            && 1000 <= rest <= 4500
            && StatusOf(inp) == (if e.tier == 3 && rest < 1100 then InsufficientEvidence
                                 else if e.tier !in {1, 2, 3} && rest < 1700 then InsufficientEvidence
                                 else ComparedStatus(inp))
            && (ReviewNeeded(inp) <==>
                  || (e.tier == 2 && rest < 1900)
                  || (e.tier == 3 && rest < 2800)
                  || (e.tier !in {1, 2, 3} && rest < 3400)
                  || (e.tier != 1 && StatusOf(inp) == Contradicted))
  {
    LoneConfidence(e, q);
    LoneRanking(e, q);
    LoneHitNeverMixed(Judged(claim, [e], q), ScoreOf(e, q, |DocumentsOf(e)|));
  }
}
