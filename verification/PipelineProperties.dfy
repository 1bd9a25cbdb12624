/** What the bundle of a claim says about the claim, in terms of its slots and of the evidence that came back. */
module PipelineProperties {
  import opened Wrappers
  import opened ClaimSlots
  import opened Checkability
  import opened Rerank
  import opened Verdict
  import opened VerdictProperties
  import opened Decomposition
  import opened Pipeline
  import Sorting
  import Text
  import Temporal
  import Review

  // ---- What the collaborators are asked ----

  /** The slot as an identifier: present, text and not empty. */
  function SlotId(slots: Slots, name: SlotName): Option<string> {
    if name in slots && slots[name].Text? && slots[name].s != "" then Some(slots[name].s) else None
  }

  ghost predicate IdsAreSlots(ids: Dict, slots: Slots) {
    && Lookup(ids, "speaker_person_id") == SlotId(slots, SpeakerPersonId)
    && Lookup(ids, "target_person_id") == SlotId(slots, TargetPersonId)
    && Lookup(ids, "bill_id") == SlotId(slots, BillId)
    && Lookup(ids, "committee_id") == SlotId(slots, CommitteeId)
    && Lookup(ids, "office_id") == SlotId(slots, OfficeId)
    && Lookup(ids, "vote_value") == SlotId(slots, VoteValue)
    && Lookup(ids, "party_id") == SlotId(slots, PartyId)
    && Lookup(ids, "expected_seats") == SlotId(slots, ExpectedSeats)
    && Lookup(ids, "expect_passed_threshold") == SlotId(slots, ExpectPassedThreshold)
    && Lookup(ids, "government_decision_id") == SlotId(slots, GovernmentDecisionId)
    && Lookup(ids, "government_number") == SlotId(slots, GovernmentNumber)
  }

  lemma {:induction false} NoSuchId(slots: Slots, names: seq<(SlotName, string)>, key: string)
    requires forall p | p in names :: p.1 != key
    ensures Lookup(SlotIds(slots, names), key) == None
  {
    if names != [] {
      assert names[0] in names;
      NoSuchId(slots, names[1..], key);
      FirstSlotId(slots, names, key);
    }
  }

  lemma FirstSlotId(slots: Slots, names: seq<(SlotName, string)>, key: string)
    requires names != []
    ensures Lookup(SlotIds(slots, names), key) ==
              if names[0].1 == key && SlotId(slots, names[0].0).Some? then SlotId(slots, names[0].0)
              else Lookup(SlotIds(slots, names[1..]), key)
  {
    var rest := SlotIds(slots, names[1..]);
    assert SlotIds(slots, names) == rest || SlotIds(slots, names)[1..] == rest;
  }

  ghost predicate DistinctNames(names: seq<(SlotName, string)>) {
    forall i, j :: 0 <= i < j < |names| ==> names[i].1 != names[j].1
  }

  lemma {:induction false} NamedId(slots: Slots, names: seq<(SlotName, string)>, i: nat)
    requires DistinctNames(names) && i < |names|
    ensures Lookup(SlotIds(slots, names), names[i].1) == SlotId(slots, names[i].0)
  {
    FirstSlotId(slots, names, names[i].1);
    if i > 0 {
      NamedId(slots, names[1..], i - 1);
    } else {
      NoSuchId(slots, names[1..], names[0].1);
    }
  }

  /** The names differ in length, but for two that start with different letters. */
  lemma SlotNamesDistinct()
    ensures DistinctNames(SLOT_NAMES)
  {
    forall i, j | 0 <= i < j < |SLOT_NAMES| ensures SLOT_NAMES[i].1 != SLOT_NAMES[j].1 {
      if |SLOT_NAMES[i].1| == |SLOT_NAMES[j].1| {
        assert SLOT_NAMES[i].1[0] == 's' && SLOT_NAMES[j].1[0] == 'g';
      }
    }
  }

  lemma AllSlotIds(slots: Slots)
    ensures IdsAreSlots(SlotIds(slots, SLOT_NAMES), slots)
  {
    SlotNamesDistinct();
    forall i: nat | i < |SLOT_NAMES|
      ensures Lookup(SlotIds(slots, SLOT_NAMES), SLOT_NAMES[i].1) == SlotId(slots, SLOT_NAMES[i].0)
    {
      NamedId(slots, SLOT_NAMES, i);
    }
    assert SLOT_NAMES[0].1 == "speaker_person_id" && SLOT_NAMES[1].1 == "target_person_id" && SLOT_NAMES[2].1 == "bill_id";
    assert SLOT_NAMES[3].1 == "committee_id" && SLOT_NAMES[4].1 == "office_id" && SLOT_NAMES[5].1 == "vote_value";
    assert SLOT_NAMES[6].1 == "party_id" && SLOT_NAMES[7].1 == "expected_seats";
    assert SLOT_NAMES[8].1 == "expect_passed_threshold" && SLOT_NAMES[9].1 == "government_decision_id";
    assert SLOT_NAMES[10].1 == "government_number";
  }

  /**
   * What the pipeline goes by: the resolver's answer; offline, every present slot as resolved; and after an
   * exception no status at all. In the latter two cases the slots stand for their own identifiers.
   */
  lemma ResolveMeaning(env: Backends, claim: Claim)
    ensures var r := Resolve(env, claim);
            && (env.resolver.Some? && env.resolver.value(claim).Some? ==> r == env.resolver.value(claim).value)
            && (env.resolver.Some? && env.resolver.value(claim).None? ==>
                  r.statuses == map[] && IdsAreSlots(r.ids, claim.slots))
            && (env.resolver.None? ==>
                  && (forall name :: name in r.statuses <==> name in claim.slots && claim.slots[name] != Null)
                  && (forall name | name in r.statuses :: r.statuses[name] == Resolved)
                  && IdsAreSlots(r.ids, claim.slots))
  {
    AllSlotIds(claim.slots);
  }

  lemma ScopeMeaning(env: Backends, phrase: Option<string>)
    ensures phrase.Some? && phrase.value != "" ==> ScopeOf(env, phrase) == env.scope(phrase.value)
    ensures phrase.None? || phrase.value == "" ==>
              ScopeOf(env, phrase) == Temporal.TimeScope(None, None, Temporal.UnknownScope)
  {
  }

  // ---- The evidence that came back ----

  /** What the retrievers answer for this claim. */
  function Answer(env: Backends, claim: Claim): seq<Evidence> {
    env.retrieve(claim, Resolve(env, claim), ScopeOf(env, claim.timePhrase))
  }

  /** A record of the claim's own type. */
  predicate Own(e: Evidence, claim: Claim) {
    e.Graph? && e.claimType == claim.claimType
  }

  /** Some such record is official or nearly so, which is enough for the claim to be compared. */
  ghost predicate Backed(env: Backends, claim: Claim) {
    exists e :: e in Answer(env, claim) && Own(e, claim) && e.tier in {1, 2}
  }

  /** The confidence reported is that of the answer, ranked for the claim's type, scope and identifiers. */
  lemma BundleConfidence(env: Backends, b: Bundle)
    requires Genuine(env, b)
    ensures var scope := ScopeOf(env, b.claim.timePhrase);
            var q := Query(b.claim.claimType, Some(TimeBounds(scope.start, scope.end)), Resolve(env, b.claim).ids);
            b.outcome.confidence ==
              if b.checkability == Checkable && Answer(env, b.claim) != [] then ConfidenceOf(Ranked(Answer(env, b.claim), q))
              else Confidence(0, 0, 0, 0, 0, 0)
  {
    RankedMembers(Answer(env, b.claim), QueryOf(env, b.claim));
  }

  lemma HitsOfAnswer(env: Backends, claim: Claim)
    ensures var inp, es := JudgedClaim(env, claim), Answer(env, claim);
            && (HasHit(inp) <==> exists e :: e in es && Own(e, claim))
            && (inp.ranked == [] <==> es == [])
            && (forall s | s in inp.ranked :: s.evidence in es)
            && (forall e | e in es :: exists s :: s in inp.ranked && s.evidence == e)
            && LexicalCount(inp.ranked) == |Sorting.Filter(es, (e: Evidence) => e.Lexical?)|
  {
    var es, q := Answer(env, claim), QueryOf(env, claim);
    RankedMembers(es, q);
    LexicalCountOfRanking(es, q);
    forall e | e in es ensures exists s :: s in Ranked(es, q) && s.evidence == e {
      assert ScoreOf(e, q, |Documents(es)|) in Ranked(es, q);
    }
  }

  /** Backed by a record of tier 1 or 2, a checkable claim is compared with the records. */
  lemma BackedIsCompared(env: Backends, b: Bundle)
    requires Genuine(env, b) && b.checkability == Checkable && Backed(env, b.claim)
    ensures b.outcome.status == ComparedStatus(JudgedClaim(env, b.claim))
    ensures HasHit(JudgedClaim(env, b.claim))
  {
    var e :| e in Answer(env, b.claim) && Own(e, b.claim) && e.tier in {1, 2};
    HitGuarantee(Answer(env, b.claim), QueryOf(env, b.claim), e);
    HitsOfAnswer(env, b.claim);
  }

  /** If agreement of a hit is a property of its record, some hit agrees exactly if some own record has the property. */
  lemma AgreeingRecords(env: Backends, claim: Claim, p: Evidence -> bool)
    requires forall s | IsHit(s, claim.claimType) :: Agrees(JudgedClaim(env, claim), s) <==> p(s.evidence)
    ensures HasAgreeing(JudgedClaim(env, claim)) <==> exists e :: e in Answer(env, claim) && Own(e, claim) && p(e)
    ensures HasDisagreeing(JudgedClaim(env, claim)) <==> exists e :: e in Answer(env, claim) && Own(e, claim) && !p(e)
  {
    HitsOfAnswer(env, claim);
  }

  // ---- Votes ----

  ghost predicate SomeVoted(env: Backends, claim: Claim, vote: string) {
    exists e :: e in Answer(env, claim) && Own(e, claim) && e.facts.voteValue == Some(vote)
  }

  ghost predicate SomeVotedOtherwise(env: Backends, claim: Claim, vote: string) {
    exists e :: e in Answer(env, claim) && Own(e, claim) && e.facts.voteValue != Some(vote)
  }

  lemma VoteHits(env: Backends, claim: Claim, vote: string)
    requires claim.claimType == VoteCast && VoteValue in claim.slots && claim.slots[VoteValue] == SlotValue.Text(vote)
    ensures HasAgreeing(JudgedClaim(env, claim)) <==> SomeVoted(env, claim, vote)
    ensures HasDisagreeing(JudgedClaim(env, claim)) <==> SomeVotedOtherwise(env, claim, vote)
  {
    AgreeingRecords(env, claim, (e: Evidence) => e.Graph? && e.facts.voteValue == Some(vote));
  }

  /** The verdict on a vote: supported if every record has the vote of the slot, contradicted if none has, else mixed. */
  lemma VoteVerdict(env: Backends, b: Bundle, vote: string)
    requires Genuine(env, b) && b.checkability == Checkable && Backed(env, b.claim)
    requires b.claim.claimType == VoteCast && VoteValue in b.claim.slots && b.claim.slots[VoteValue] == SlotValue.Text(vote)
    ensures b.outcome.status == Supported <==> !SomeVotedOtherwise(env, b.claim, vote)
    ensures b.outcome.status == Contradicted <==> !SomeVoted(env, b.claim, vote)
    ensures b.outcome.status == Mixed <==> SomeVoted(env, b.claim, vote) && SomeVotedOtherwise(env, b.claim, vote)
  {
    BackedIsCompared(env, b);
    VoteHits(env, b.claim, vote);
    assert SomeVoted(env, b.claim, vote) || SomeVotedOtherwise(env, b.claim, vote);
  }

  // ---- Elections ----

  ghost predicate AsksSeats(env: Backends, slots: Slots, seats: Option<int>) {
    if ExpectedSeats in slots && slots[ExpectedSeats].Text? && slots[ExpectedSeats].s != "" then
      seats == env.parseInt(Text.Strip(slots[ExpectedSeats].s))
    else seats == None
  }

  ghost predicate AsksPassed(slots: Slots, passed: Option<bool>) {
    if ExpectPassedThreshold in slots && slots[ExpectPassedThreshold].Text? then
      var word := ToLower(Text.Strip(slots[ExpectPassedThreshold].s));
      && (passed == Some(true) <==> word == "true" || word == "1" || word == "yes")
      && (passed == Some(false) <==> word == "false" || word == "0" || word == "no")
    else passed == None
  }

  ghost predicate SomeResult(env: Backends, claim: Claim, seats: Option<int>, passed: Option<bool>) {
    exists e :: e in Answer(env, claim) && Own(e, claim)
                && (seats == None || e.facts.seatsWon == seats) && (passed == None || e.facts.passedThreshold == passed)
  }

  lemma ElectionInputs(env: Backends, claim: Claim, seats: Option<int>, passed: Option<bool>)
    requires AsksSeats(env, claim.slots, seats) && AsksPassed(claim.slots, passed)
    ensures JudgedClaim(env, claim).expectedSeats == seats && JudgedClaim(env, claim).expectPassed == passed
  {
    PassedParsed(claim.slots, passed);
  }

  lemma PassedParsed(slots: Slots, passed: Option<bool>)
    requires AsksPassed(slots, passed)
    ensures ParsePassed(TextSlot(slots, ExpectPassedThreshold)) == passed
  {
    match passed {
      case None =>
      case Some(b) =>
        if b {
          assert passed == Some(true);
        } else {
          assert passed == Some(false);
        }
    }
  }

  lemma ElectionHits(env: Backends, claim: Claim, seats: Option<int>, passed: Option<bool>)
    requires claim.claimType == ElectionResult && AsksSeats(env, claim.slots, seats) && AsksPassed(claim.slots, passed)
    ensures HasAgreeing(JudgedClaim(env, claim)) <==> SomeResult(env, claim, seats, passed)
  {
    ElectionInputs(env, claim, seats, passed);
    AgreeingRecords(env, claim, (e: Evidence) =>
      e.Graph? && (seats == None || e.facts.seatsWon == seats) && (passed == None || e.facts.passedThreshold == passed));
  }

  /** The verdict on an election result: supported if one record has both the seats and the threshold asked for, else contradicted. */
  lemma ElectionVerdict(env: Backends, b: Bundle, seats: Option<int>, passed: Option<bool>)
    requires Genuine(env, b) && b.checkability == Checkable && Backed(env, b.claim)
    requires b.claim.claimType == ElectionResult
    requires AsksSeats(env, b.claim.slots, seats) && AsksPassed(b.claim.slots, passed)
    ensures b.outcome.status == if SomeResult(env, b.claim, seats, passed) then Supported else Contradicted
  {
    BackedIsCompared(env, b);
    ElectionHits(env, b.claim, seats, passed);
  }

  // ---- Government decisions ----

  /** The resolved identifier, or else the slot. */
  ghost predicate AsksDecision(ids: Dict, slots: Slots, expected: Option<string>) {
    if Lookup(ids, "government_decision_id").Some? && Lookup(ids, "government_decision_id").value != "" then
      expected == Lookup(ids, "government_decision_id")
    else if GovernmentDecisionId in slots && slots[GovernmentDecisionId].Text? then
      expected == Some(slots[GovernmentDecisionId].s)
    else expected == None
  }

  /** The decision a record is about: its node, or else its property; the string of None if it has neither. */
  function DecisionOf(e: Evidence): string
    requires e.Graph?
  {
    var node := Lookup(e.nodeIds, "government_decision_id");
    if node.Some? && node.value != "" then node.value
    else if e.facts.governmentDecisionId.Some? then e.facts.governmentDecisionId.value
    else "None"
  }

  ghost predicate SomeDecision(env: Backends, claim: Claim, expected: Option<string>) {
    expected == None || exists e :: e in Answer(env, claim) && Own(e, claim) && DecisionOf(e) == expected.value
  }

  lemma DecisionHits(env: Backends, claim: Claim, expected: Option<string>)
    requires claim.claimType == GovernmentDecision && AsksDecision(Resolve(env, claim).ids, claim.slots, expected)
    requires exists e :: e in Answer(env, claim) && Own(e, claim)
    ensures HasAgreeing(JudgedClaim(env, claim)) <==> SomeDecision(env, claim, expected)
  {
    DecisionInput(env, claim, expected);
    forall s | IsHit(s, GovernmentDecision)
      ensures Agrees(JudgedClaim(env, claim), s) <==> expected == None || DecisionOf(s.evidence) == expected.value
    {
      RecordedDecision(s.evidence, expected);
    }
    AgreeingRecords(env, claim, (e: Evidence) => e.Graph? && (expected == None || DecisionOf(e) == expected.value));
  }

  lemma DecisionInput(env: Backends, claim: Claim, expected: Option<string>)
    requires AsksDecision(Resolve(env, claim).ids, claim.slots, expected)
    ensures JudgedClaim(env, claim).governmentDecisionId == expected
  {
  }

  lemma RecordedDecision(e: Evidence, expected: Option<string>)
    requires e.Graph?
    ensures DecisionMatches(e, expected) <==> expected == None || DecisionOf(e) == expected.value
  {
  }

  /** The verdict on a government decision: supported if one record is about it, or none was asked for, else contradicted. */
  lemma DecisionVerdict(env: Backends, b: Bundle, expected: Option<string>)
    requires Genuine(env, b) && b.checkability == Checkable && Backed(env, b.claim)
    requires b.claim.claimType == GovernmentDecision
    requires AsksDecision(Resolve(env, b.claim).ids, b.claim.slots, expected)
    ensures b.outcome.status == if SomeDecision(env, b.claim, expected) then Supported else Contradicted
  {
    BackedIsCompared(env, b);
    DecisionHits(env, b.claim, expected);
  }

  // ---- The other types ----

  /** The verdict on attendance: supported if one session records presence, else contradicted. */
  lemma AttendanceVerdict(env: Backends, b: Bundle)
    requires Genuine(env, b) && b.checkability == Checkable && Backed(env, b.claim)
    requires b.claim.claimType == CommitteeAttendance
    ensures b.outcome.status ==
              if exists e :: e in Answer(env, b.claim) && Own(e, b.claim) && e.facts.presence == Some("present")
              then Supported else Contradicted
  {
    BackedIsCompared(env, b);
    AgreeingRecords(env, b.claim, (e: Evidence) => e.Graph? && e.facts.presence == Some("present"));
  }

  function Texts(es: seq<Evidence>): nat {
    |Sorting.Filter(es, (e: Evidence) => e.Lexical?)|
  }

  /** From 0.45 on, a sponsorship, an office or a membership is supported by one record or one text. */
  lemma CorroborationVerdict(env: Backends, b: Bundle)
    requires Genuine(env, b) && b.checkability == Checkable && Answer(env, b.claim) != []
    requires b.outcome.confidence.overall >= 4500
    requires b.claim.claimType in {BillSponsorship, OfficeHeld, CommitteeMembership}
    ensures b.outcome.status ==
              if (exists e :: e in Answer(env, b.claim) && Own(e, b.claim)) || Texts(Answer(env, b.claim)) >= 1
              then Supported else InsufficientEvidence
  {
    ConfidentIsCompared(env, b);
    HitsOfAnswer(env, b.claim);
  }

  /** From 0.45 on, a statement about an action is mixed with one text and supported with two. */
  lemma StatementVerdict(env: Backends, b: Bundle)
    requires Genuine(env, b) && b.checkability == Checkable && Answer(env, b.claim) != []
    requires b.outcome.confidence.overall >= 4500
    requires b.claim.claimType == StatementAboutFormalAction
    ensures b.outcome.status == (if Texts(Answer(env, b.claim)) >= 2 then Supported
                                 else if Texts(Answer(env, b.claim)) == 1 then Mixed
                                 else InsufficientEvidence)
  {
    ConfidentIsCompared(env, b);
    HitsOfAnswer(env, b.claim);
  }

  lemma ConfidentIsCompared(env: Backends, b: Bundle)
    requires Genuine(env, b) && b.checkability == Checkable && Answer(env, b.claim) != []
    requires b.outcome.confidence.overall >= 4500
    ensures b.outcome.status == ComparedStatus(JudgedClaim(env, b.claim))
  {
    HitsOfAnswer(env, b.claim);
  }

  /** Without a record of its own type a claim about a vote, a result, a decision or attendance is never decided. */
  lemma NoRecordNoVerdict(env: Backends, b: Bundle)
    requires Genuine(env, b) && b.checkability == Checkable
    requires b.claim.claimType in {VoteCast, ElectionResult, GovernmentDecision, CommitteeAttendance}
    requires forall e | e in Answer(env, b.claim) :: !Own(e, b.claim)
    ensures b.outcome.status == InsufficientEvidence
  {
    HitsOfAnswer(env, b.claim);
  }

  /** Below 0.45, and without any evidence, the engine abstains and asks for a review; an uncheckable claim it sends to one only for its entities. */
  lemma AbstentionMeaning(env: Backends, b: Bundle)
    requires Genuine(env, b)
    ensures b.checkability != Checkable ==>
              && b.outcome.status == NonCheckableClaim
              && (b.outcome.needsReview <==> b.checkability == InsufficientEntityResolution)
    ensures b.checkability == Checkable && Answer(env, b.claim) == [] ==>
              b.outcome.status == InsufficientEvidence && b.outcome.needsReview
    ensures b.checkability == Checkable && b.outcome.confidence.overall < 4500 ==>
              b.outcome.status == InsufficientEvidence && b.outcome.needsReview
  {
    HitsOfAnswer(env, b.claim);
  }

  /** From 0.45 on, a review is asked for below 0.62, for mixed records, and for a contradiction without a tier-1 record. */
  lemma ReviewMeaning(env: Backends, b: Bundle)
    requires Genuine(env, b) && b.checkability == Checkable && b.outcome.confidence.overall >= 4500
    ensures b.outcome.needsReview <==>
              || b.outcome.confidence.overall < 6200
              || b.outcome.status == Mixed
              || (b.outcome.status == Contradicted
                  && !exists e :: e in Answer(env, b.claim) && Own(e, b.claim) && e.tier == 1)
  {
    HitsOfAnswer(env, b.claim);
  }

  // ---- Tasks and counts ----

  /** The conflict task: opened for a mixed verdict when some evidence of any kind is of tier 1, open and of priority 10. */
  lemma ConflictOpensTask(env: Backends, b: Bundle, t: Review.Tables, taskId: Review.Uuid, payload: Review.Payload)
    requires Genuine(env, b) && forall task | task in t.tasks :: task.taskId != taskId
    ensures Review.RunFrom(t, ConflictEvents(env, b.claim, taskId, payload)) ==
              if b.outcome.status == Mixed && exists e :: e in Answer(env, b.claim) && e.tier == 1
              then Review.Tables(t.tasks + [Review.Task(taskId, Review.ConflictTask, Review.Open, 10, payload, None)], t.actions)
              else t
  {
    HitsOfAnswer(env, b.claim);
    var event := Review.OpenTask(taskId, Review.ConflictTask, payload, 10);
    Review.RunOneMore(t, [], event);
    Review.OpenedTask(t, taskId, Review.ConflictTask, payload, 10);
    assert [] + [event] == [event];
  }

  /** The lexical hits reported are those among the first five of the ranking. */
  lemma LexicalHitsMeaning(env: Backends, b: Bundle)
    requires Genuine(env, b)
    ensures var ranked := JudgedClaim(env, b.claim).ranked;
            b.lexicalHits == |Sorting.Filter(ranked[..if |ranked| < 5 then |ranked| else 5], (s: Score) => s.evidence.Lexical?)|
  {
    TopFive(JudgedClaim(env, b.claim).ranked);
  }

  lemma TopFive(ranked: seq<Score>)
    ensures Top(ranked) == ranked[..if |ranked| < 5 then |ranked| else 5]
  {
  }
}
