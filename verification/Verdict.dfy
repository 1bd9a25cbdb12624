/** Confidence vector and deterministic verdict over ranked evidence. */
module Verdict {
  import opened Wrappers
  import opened Sorting
  import opened ClaimSlots
  import opened Checkability
  import opened Rerank

  // ---- Confidence ----

  datatype Confidence = Confidence(authority: int, directness: int, temporal: int, entity: int, cross: int, overall: int)

  const ZERO_CONFIDENCE := Confidence(0, 0, 0, 0, 0, 0)

  function Max(a: int, b: int): int {
    if a >= b then a else b
  }

  datatype Axis = Tier | Directness | Temporal | Entity | Cross

  function On(axis: Axis, s: Score): int {
    match axis
    case Tier => s.tier
    case Directness => s.directness
    case Temporal => s.temporal
    case Entity => s.entity
    case Cross => s.cross
  }

  /** The largest value on one axis, and 0 when there is no evidence. */
  function Best(ranked: seq<Score>, axis: Axis): int {
    if ranked == [] then 0 else Max(On(axis, ranked[0]), Best(ranked[1..], axis))
  }

  function AsConfidence(tier: int, directness: int, temporal: int, entity: int, cross: int): Confidence {
    Confidence(tier, directness, temporal, entity, cross, Overall(tier, directness, temporal, entity, cross))
  }

  function ConfidenceOf(ranked: seq<Score>): Confidence {
    AsConfidence(Best(ranked, Tier), Best(ranked, Directness), Best(ranked, Temporal),
                 Best(ranked, Entity), Best(ranked, Cross))
  }

  lemma {:induction false} BestAppend(ranked: seq<Score>, s: Score, axis: Axis)
    ensures Best(ranked + [s], axis) == Max(Best(ranked, axis), Max(On(axis, s), 0))
  {
    if ranked == [] {
      assert ranked + [s] == [s];
    } else {
      assert (ranked + [s])[1..] == ranked[1..] + [s];
      BestAppend(ranked[1..], s, axis);
    }
  }

  method ComputeConfidence(ranked: seq<Score>) returns (c: Confidence)
    ensures c == ConfidenceOf(ranked)
  {
    var tier, directness, temporal, entity, cross := 0, 0, 0, 0, 0;
    for i := 0 to |ranked|
      invariant tier == Best(ranked[..i], Tier) && directness == Best(ranked[..i], Directness)
      invariant temporal == Best(ranked[..i], Temporal) && entity == Best(ranked[..i], Entity)
      invariant cross == Best(ranked[..i], Cross)
      invariant tier >= 0 && directness >= 0 && temporal >= 0 && entity >= 0 && cross >= 0
    {
      var s := ranked[i];
      assert ranked[..i + 1] == ranked[..i] + [s];
      BestAppend(ranked[..i], s, Tier);
      BestAppend(ranked[..i], s, Directness);
      BestAppend(ranked[..i], s, Temporal);
      BestAppend(ranked[..i], s, Entity);
      BestAppend(ranked[..i], s, Cross);
      tier := Max(tier, s.tier);
      directness := Max(directness, s.directness);
      temporal := Max(temporal, s.temporal);
      entity := Max(entity, s.entity);
      cross := Max(cross, s.cross);
    }
    assert ranked[..|ranked|] == ranked;
    c := AsConfidence(tier, directness, temporal, entity, cross);
  }

  lemma {:induction false} BestIsUpperBound(ranked: seq<Score>, axis: Axis)
    ensures 0 <= Best(ranked, axis)
    ensures forall s | s in ranked :: On(axis, s) <= Best(ranked, axis)
    ensures Best(ranked, axis) == 0 || exists s :: s in ranked && On(axis, s) == Best(ranked, axis)
  {
    if ranked != [] {
      BestIsUpperBound(ranked[1..], axis);
      assert ranked == [ranked[0]] + ranked[1..];
      assert ranked[0] in ranked;
    }
  }

  lemma BestMonotone(a: seq<Score>, b: seq<Score>, axis: Axis)
    requires forall s | s in a :: exists t :: t in b && On(axis, t) >= On(axis, s)
    ensures Best(a, axis) <= Best(b, axis)
  {
    BestIsUpperBound(a, axis);
    BestIsUpperBound(b, axis);
  }

  // ---- Verdict ----

  datatype Status = Supported | Contradicted | Mixed | InsufficientEvidence | NonCheckableClaim

  datatype Inputs = Inputs(claimType: ClaimType, checkability: Check, ranked: seq<Score>,
                           expectedVote: Option<string>, expectedSeats: Option<int>, expectPassed: Option<bool>,
                           governmentDecisionId: Option<string>)

  /** One entry of the decision trace; only `kind` and the `reason` key are kept. */
  datatype Reason = Reason(kind: Kind, reason: Option<ReasonKey>)

  /** The strings the engine writes under `reason`; `ReasonText` spells them out. */
  datatype ReasonKey =
    | NotACheckableClaim | NoEvidence | LowConfidence | NoGraphVoteRecord | AnyVoteRecorded
    | NoElectionGraphHit | NoGovDecisionGraphHit | DecisionIdMismatch | NoAttendanceGraphHit
    | OnlyAbsentSessions | NoGraphOrLexSupport | NoCorroboration

  function ReasonText(key: ReasonKey): string {
    match key
    case NotACheckableClaim => "checkability"
    case NoEvidence => "no_evidence"
    case LowConfidence => "low_confidence"
    case NoGraphVoteRecord => "no_graph_vote_record"
    case AnyVoteRecorded => "any_vote_recorded"
    case NoElectionGraphHit => "no_election_graph_hit"
    case NoGovDecisionGraphHit => "no_gov_decision_graph_hit"
    case DecisionIdMismatch => "decision_id_mismatch"
    case NoAttendanceGraphHit => "no_attendance_graph_hit"
    case OnlyAbsentSessions => "only_absent_sessions"
    case NoGraphOrLexSupport => "no_graph_or_lex_support"
    case NoCorroboration => "no_corroboration"
  }

  datatype Kind = Support | Contradict | MixedRecords | Abstain

  datatype Outcome = Outcome(status: Status, confidence: Confidence, needsReview: bool, reasons: seq<Reason>)

  const ABSTAIN_OVERALL := 4500
  const HUMAN_REVIEW_OVERALL := 6200

  predicate IsHit(s: Score, t: ClaimType) {
    s.evidence.Graph? && s.evidence.claimType == t
  }

  function GraphHits(ranked: seq<Score>, t: ClaimType): seq<Score> {
    Filter(ranked, (s: Score) => IsHit(s, t))
  }

  /** `str(value)` for a value that may be None. */
  function Str(value: Option<string>): string {
    match value case None => "None" case Some(s) => s
  }

  /** `a or b` for optional strings. */
  function Or(a: Option<string>, b: Option<string>): Option<string> {
    if a.Some? && a.value != "" then a else b
  }

  predicate DecisionMatches(e: Evidence, expected: Option<string>)
    requires e.Graph?
  {
    expected.None?
    || Str(Or(Lookup(e.nodeIds, "government_decision_id"), e.facts.governmentDecisionId)) == expected.value
  }

  predicate ElectionMatches(e: Evidence, seats: Option<int>, passed: Option<bool>)
    requires e.Graph?
  {
    && (seats.Some? ==> e.facts.seatsWon == seats)
    && (passed.Some? ==> e.facts.passedThreshold == passed)
  }

  predicate VoteMatches(e: Evidence, vote: Option<string>)
    requires e.Graph?
  {
    vote.None? || e.facts.voteValue == vote
  }

  /** Whether a hit of the claim's own type bears the claim out; any hit does for the types without a comparison. */
  predicate Agrees(inp: Inputs, s: Score)
    requires IsHit(s, inp.claimType)
  {
    match inp.claimType
    case VoteCast => VoteMatches(s.evidence, inp.expectedVote)
    case ElectionResult => ElectionMatches(s.evidence, inp.expectedSeats, inp.expectPassed)
    case GovernmentDecision => DecisionMatches(s.evidence, inp.governmentDecisionId)
    case CommitteeAttendance => s.evidence.facts.presence == Some("present")
    case _ => true
  }

  ghost predicate HasHit(inp: Inputs) {
    exists s :: s in inp.ranked && IsHit(s, inp.claimType)
  }

  ghost predicate HasAgreeing(inp: Inputs) {
    exists s :: s in inp.ranked && IsHit(s, inp.claimType) && Agrees(inp, s)
  }

  ghost predicate HasDisagreeing(inp: Inputs) {
    exists s :: s in inp.ranked && IsHit(s, inp.claimType) && !Agrees(inp, s)
  }

  ghost predicate HasTier1Hit(inp: Inputs) {
    exists s :: s in inp.ranked && IsHit(s, inp.claimType) && s.evidence.tier == 1
  }

  /** What the comparison with the records says, in terms of which hits agree with the claim. */
  ghost function ComparedStatus(inp: Inputs): Status {
    match inp.claimType
    case VoteCast =>
      if !HasHit(inp) then InsufficientEvidence
      else if !HasDisagreeing(inp) then Supported
      else if HasAgreeing(inp) then Mixed
      else Contradicted
    case ElectionResult | GovernmentDecision | CommitteeAttendance =>
      if !HasHit(inp) then InsufficientEvidence
      else if HasAgreeing(inp) then Supported
      else Contradicted
    case BillSponsorship | OfficeHeld | CommitteeMembership =>
      if HasHit(inp) || LexicalCount(inp.ranked) > 0 then Supported else InsufficientEvidence
    case _ =>
      if LexicalCount(inp.ranked) >= 2 then Supported
      else if LexicalCount(inp.ranked) == 1 then Mixed
      else InsufficientEvidence
  }

  /** The status of a checkable claim that has evidence, and whose evidence has this overall confidence. */
  ghost function StatusAt(inp: Inputs, overall: int): Status {
    if overall < ABSTAIN_OVERALL then InsufficientEvidence else ComparedStatus(inp)
  }

  ghost predicate ReviewAt(inp: Inputs, overall: int) {
    || overall < HUMAN_REVIEW_OVERALL
    || StatusAt(inp, overall) == Mixed
    || (StatusAt(inp, overall) == Contradicted && !HasTier1Hit(inp))
  }

  ghost function StatusOf(inp: Inputs): Status {
    if inp.checkability != Checkable then NonCheckableClaim
    else if inp.ranked == [] then InsufficientEvidence
    else StatusAt(inp, ConfidenceOf(inp.ranked).overall)
  }

  ghost function ReportedConfidence(inp: Inputs): Confidence {
    if inp.checkability != Checkable || inp.ranked == [] then ZERO_CONFIDENCE else ConfidenceOf(inp.ranked)
  }

  ghost predicate ReviewNeeded(inp: Inputs) {
    if inp.checkability != Checkable then inp.checkability == InsufficientEntityResolution
    else if inp.ranked == [] then true
    else ReviewAt(inp, ConfidenceOf(inp.ranked).overall)
  }

  function KindOf(status: Status): Kind {
    match status
    case Supported => Support
    case Contradicted => Contradict
    case Mixed => MixedRecords
    case _ => Abstain
  }

  /** The trace is one entry, of the kind the status calls for; a contradiction names one of two reasons or none. */
  ghost predicate TraceFits(status: Status, reasons: seq<Reason>) {
    && |reasons| == 1
    && reasons[0].kind == KindOf(status)
    && (reasons[0].kind == Support <==> status == Supported)
    && (reasons[0].kind == Contradict <==> status == Contradicted)
    && (reasons[0].kind == MixedRecords <==> status == Mixed)
    && (status == Contradicted ==>
          reasons[0].reason in {None, Some(OnlyAbsentSessions), Some(DecisionIdMismatch)})
  }

  lemma HitsAreMembers(inp: Inputs)
    ensures var hits := GraphHits(inp.ranked, inp.claimType);
            && (forall s :: s in hits <==> s in inp.ranked && IsHit(s, inp.claimType))
            && (hits == [] <==> !HasHit(inp))
  {
    var hits := GraphHits(inp.ranked, inp.claimType);
    if hits != [] {
      assert hits[0] in hits;
    }
  }

  method CompareVote(inp: Inputs, hits: seq<Score>) returns (status: Status, reasons: seq<Reason>)
    requires inp.claimType == VoteCast && hits == GraphHits(inp.ranked, VoteCast)
    ensures status == ComparedStatus(inp) && TraceFits(status, reasons)
  {
    HitsAreMembers(inp);
    if hits == [] {
      return InsufficientEvidence, [Reason(Abstain, Some(NoGraphVoteRecord))];
    }
    if inp.expectedVote.None? {
      return Supported, [Reason(Support, Some(AnyVoteRecorded))];
    }
    var recorded := RecordedVotes(hits);
    RecordedVotesMeaning(inp, hits);
    if recorded == {inp.expectedVote} {
      return Supported, [Reason(Support, None)];
    }
    if inp.expectedVote in recorded && |recorded| > 1 {
      return Mixed, [Reason(MixedRecords, None)];
    }
    if inp.expectedVote in recorded {
      SingletonByCount(recorded, inp.expectedVote);
    }
    return Contradicted, [Reason(Contradict, None)];
  }

  function RecordedVotes(hits: seq<Score>): set<Option<string>>
    requires forall s | s in hits :: s.evidence.Graph?
  {
    set s | s in hits :: s.evidence.facts.voteValue
  }

  lemma RecordedVotesMeaning(inp: Inputs, hits: seq<Score>)
    requires inp.claimType == VoteCast && inp.expectedVote.Some?
    requires hits == GraphHits(inp.ranked, VoteCast) && hits != []
    ensures forall s | s in hits :: s.evidence.Graph?
    ensures HasAgreeing(inp) <==> inp.expectedVote in RecordedVotes(hits)
    ensures HasDisagreeing(inp) <==> RecordedVotes(hits) != {inp.expectedVote}
  {
    HitsAreMembers(inp);
    var recorded := RecordedVotes(hits);
    assert hits[0].evidence.facts.voteValue in recorded;
    forall s | s in hits ensures s.evidence.facts.voteValue in recorded {}
    if recorded != {inp.expectedVote} {
      var v :| v in recorded && v != inp.expectedVote;
      var s :| s in hits && s.evidence.facts.voteValue == v;
      assert !Agrees(inp, s);
    }
  }

  lemma SingletonByCount<T>(s: set<T>, x: T)
    requires x in s && |s| <= 1
    ensures s == {x}
  {
    assert s == {x} + (s - {x});
  }

  method CompareElection(inp: Inputs, hits: seq<Score>) returns (status: Status, reasons: seq<Reason>)
    requires inp.claimType == ElectionResult && hits == GraphHits(inp.ranked, ElectionResult)
    ensures status == ComparedStatus(inp) && TraceFits(status, reasons)
  {
    HitsAreMembers(inp);
    if hits == [] {
      return InsufficientEvidence, [Reason(Abstain, Some(NoElectionGraphHit))];
    }
    for i := 0 to |hits|
      invariant forall k | 0 <= k < i :: !Agrees(inp, hits[k])
    {
      assert hits[i] in hits;
      var seatsOk := inp.expectedSeats.None? || hits[i].evidence.facts.seatsWon == inp.expectedSeats;
      var passed := hits[i].evidence.facts.passedThreshold;
      var passedOk := inp.expectPassed.None? || (passed.Some? && passed == inp.expectPassed);
      if seatsOk && passedOk {
        return Supported, [Reason(Support, None)];
      }
    }
    return Contradicted, [Reason(Contradict, None)];
  }

  method CompareGovernmentDecision(inp: Inputs, hits: seq<Score>) returns (status: Status, reasons: seq<Reason>)
    requires inp.claimType == GovernmentDecision && hits == GraphHits(inp.ranked, GovernmentDecision)
    ensures status == ComparedStatus(inp) && TraceFits(status, reasons)
  {
    HitsAreMembers(inp);
    if hits == [] {
      return InsufficientEvidence, [Reason(Abstain, Some(NoGovDecisionGraphHit))];
    }
    for i := 0 to |hits|
      invariant forall k | 0 <= k < i :: !Agrees(inp, hits[k])
    {
      assert hits[i] in hits;
      if inp.governmentDecisionId.Some? {
        var nodeId := Or(Lookup(hits[i].evidence.nodeIds, "government_decision_id"),
                         hits[i].evidence.facts.governmentDecisionId);
        if Str(nodeId) != inp.governmentDecisionId.value {
          continue;
        }
      }
      return Supported, [Reason(Support, None)];
    }
    return Contradicted, [Reason(Contradict, Some(DecisionIdMismatch))];
  }

  method CompareAttendance(inp: Inputs, hits: seq<Score>) returns (status: Status, reasons: seq<Reason>)
    requires inp.claimType == CommitteeAttendance && hits == GraphHits(inp.ranked, CommitteeAttendance)
    ensures status == ComparedStatus(inp) && TraceFits(status, reasons)
  {
    HitsAreMembers(inp);
    if hits == [] {
      return InsufficientEvidence, [Reason(Abstain, Some(NoAttendanceGraphHit))];
    }
    var present := Filter(hits, (s: Score) => s.evidence.Graph? && s.evidence.facts.presence == Some("present"));
    if present != [] {
      assert present[0] in present;
      return Supported, [Reason(Support, None)];
    }
    return Contradicted, [Reason(Contradict, Some(OnlyAbsentSessions))];
  }

  method Compare(inp: Inputs, hits: seq<Score>) returns (status: Status, reasons: seq<Reason>)
    requires hits == GraphHits(inp.ranked, inp.claimType)
    ensures status == ComparedStatus(inp) && TraceFits(status, reasons)
  {
    HitsAreMembers(inp);
    var lexical := LexicalCount(inp.ranked);
    match inp.claimType {
      case VoteCast => status, reasons := CompareVote(inp, hits);
      case ElectionResult => status, reasons := CompareElection(inp, hits);
      case GovernmentDecision => status, reasons := CompareGovernmentDecision(inp, hits);
      case BillSponsorship | OfficeHeld | CommitteeMembership =>
        if hits != [] || lexical > 0 {
          status, reasons := Supported, [Reason(Support, None)];
        } else {
          status, reasons := InsufficientEvidence, [Reason(Abstain, Some(NoGraphOrLexSupport))];
        }
      case CommitteeAttendance => status, reasons := CompareAttendance(inp, hits);
      case _ =>
        if lexical >= 2 {
          status, reasons := Supported, [Reason(Support, None)];
        } else if lexical == 1 {
          status, reasons := Mixed, [Reason(MixedRecords, None)];
        } else {
          status, reasons := InsufficientEvidence, [Reason(Abstain, Some(NoCorroboration))];
        }
    }
  }

  method DecideAt(inp: Inputs, overall: int) returns (status: Status, review: bool, reasons: seq<Reason>)
    requires inp.ranked != []
    ensures status == StatusAt(inp, overall) && TraceFits(status, reasons)
    ensures review <==> ReviewAt(inp, overall)
  {
    if overall < ABSTAIN_OVERALL {
      return InsufficientEvidence, true, [Reason(Abstain, Some(LowConfidence))];
    }
    var hits := GraphHits(inp.ranked, inp.claimType);
    HitsAreMembers(inp);
    status, reasons := Compare(inp, hits);
    var tier1 := exists s :: s in hits && s.evidence.tier == 1;
    assert tier1 <==> HasTier1Hit(inp);
    review := overall < HUMAN_REVIEW_OVERALL || status == Mixed;
    if status == Contradicted && hits != [] && !tier1 {
      review := true;
    }
    assert status == Contradicted ==> HasHit(inp);
  }

  method DecideVerdict(inp: Inputs) returns (o: Outcome)
    ensures o.status == StatusOf(inp)
    ensures o.confidence == ReportedConfidence(inp)
    ensures o.needsReview == ReviewNeeded(inp)
    ensures TraceFits(o.status, o.reasons)
  {
    if inp.checkability != Checkable {
      o := Outcome(NonCheckableClaim, ZERO_CONFIDENCE, inp.checkability == InsufficientEntityResolution,
                   [Reason(Abstain, Some(NotACheckableClaim))]);
    } else if inp.ranked == [] {
      o := Outcome(InsufficientEvidence, ZERO_CONFIDENCE, true, [Reason(Abstain, Some(NoEvidence))]);
    } else {
      var confidence := ComputeConfidence(inp.ranked);
      var status, review, reasons := DecideAt(inp, confidence.overall);
      o := Outcome(status, confidence, review, reasons);
    }
  }
}
