/** The verification pipeline: decompose, resolve, scope, classify, retrieve, rerank and decide, claim by claim. */
module Pipeline {
  import opened Wrappers
  import opened ClaimSlots
  import opened Checkability
  import opened Rerank
  import opened Verdict
  import opened VerdictProperties
  import opened SpanSelection
  import opened Decomposition
  import Sorting
  import Text
  import Temporal
  import Review

  // ---- The collaborators ----

  /** What entity resolution gives: a status for some slots, and the non-empty identifiers. */
  datatype Resolution = Resolution(statuses: map<SlotName, ResolverStatus>, ids: Dict)

  /**
   * `resolver` is None in offline mode and answers None when it raises; `scope` normalizes a non-empty
   * phrase; `retrieve` gives the graph hits followed by the lexical ones; `parseInt` is Python's `int`.
   */
  datatype Backends = Backends(resolver: Option<Claim -> Option<Resolution>>, scope: string -> Temporal.TimeScope,
                               retrieve: (Claim, Resolution, Temporal.TimeScope) -> seq<Evidence>,
                               parseInt: string -> Option<int>)

  const SLOT_NAMES: seq<(SlotName, string)> := [
    (SpeakerPersonId, "speaker_person_id"), (TargetPersonId, "target_person_id"), (BillId, "bill_id"),
    (CommitteeId, "committee_id"), (OfficeId, "office_id"), (VoteValue, "vote_value"), (PartyId, "party_id"),
    (ExpectedSeats, "expected_seats"), (ExpectPassedThreshold, "expect_passed_threshold"),
    (GovernmentDecisionId, "government_decision_id"), (GovernmentNumber, "government_number")
  ]

  /** The slot as a string, if it has one; the claims of the pipeline hold no other values. */
  function TextSlot(slots: Slots, name: SlotName): Option<string> {
    if name in slots && slots[name].Text? then Some(slots[name].s) else None
  }

  function SlotIds(slots: Slots, names: seq<(SlotName, string)>): Dict {
    if names == [] then []
    else
      var value := TextSlot(slots, names[0].0);
      (if value.Some? && value.value != "" then [(names[0].1, value.value)] else []) + SlotIds(slots, names[1..])
  }

  /** Offline every present slot counts as resolved; a resolver that raises leaves no status at all. */
  function Resolve(env: Backends, claim: Claim): Resolution {
    match env.resolver
    case None =>
      Resolution(map name | name in claim.slots && claim.slots[name] != Null :: Resolved, SlotIds(claim.slots, SLOT_NAMES))
    case Some(resolve) =>
      match resolve(claim)
      case Some(resolution) => resolution
      case None => Resolution(map[], SlotIds(claim.slots, SLOT_NAMES))
  }

  function ScopeOf(env: Backends, phrase: Option<string>): Temporal.TimeScope {
    if phrase.None? || phrase.value == "" then Temporal.Unknown() else env.scope(phrase.value)
  }

  function Unplaceable(env: Backends): string -> bool {
    (phrase: string) => ScopeOf(env, Some(phrase)).granularity == Temporal.UnknownScope
  }

  function ParseSeats(env: Backends, value: Option<string>): Option<int> {
    if value.None? || value.value == "" then None else env.parseInt(Text.Strip(value.value))
  }

  function ParsePassed(value: Option<string>): Option<bool> {
    if value.None? then None
    else
      var s := ToLower(Text.Strip(value.value));
      if s in ["true", "1", "yes"] then Some(true) else if s in ["false", "0", "no"] then Some(false) else None
  }

  /** What the verdict engine is told about a claim; its evidence is ranked separately. */
  function ClaimInputs(env: Backends, claim: Claim): Inputs {
    var resolution := Resolve(env, claim);
    var timeUnknown := ScopeOf(env, claim.timePhrase).granularity == Temporal.UnknownScope;
    Inputs(claim.claimType, Classify(claim.claimType, claim.slots, resolution.statuses, timeUnknown), [],
           TextSlot(claim.slots, VoteValue), ParseSeats(env, TextSlot(claim.slots, ExpectedSeats)),
           ParsePassed(TextSlot(claim.slots, ExpectPassedThreshold)),
           Or(Lookup(resolution.ids, "government_decision_id"), TextSlot(claim.slots, GovernmentDecisionId)))
  }

  function QueryOf(env: Backends, claim: Claim): Query {
    Query(claim.claimType, Some(Temporal.Bounds(ScopeOf(env, claim.timePhrase))), Resolve(env, claim).ids)
  }

  function Retrieved(env: Backends, claim: Claim): seq<Evidence> {
    env.retrieve(claim, Resolve(env, claim), ScopeOf(env, claim.timePhrase))
  }

  function JudgedClaim(env: Backends, claim: Claim): Inputs {
    Judged(ClaimInputs(env, claim), Retrieved(env, claim), QueryOf(env, claim))
  }

  // ---- One claim ----

  /** What the pipeline reports for one claim; `lexicalHits` counts among the top five. */
  datatype Bundle = Bundle(claim: Claim, outcome: Outcome, checkability: Check, lexicalHits: nat)

  function Top(ranked: seq<Score>): seq<Score> {
    if |ranked| <= 5 then ranked else ranked[..5]
  }

  ghost predicate IsBundleOf(env: Backends, claim: Claim, b: Bundle) {
    var inp := JudgedClaim(env, claim);
    && b.claim == claim && b.checkability == inp.checkability
    && b.outcome.status == StatusOf(inp)
    && b.outcome.confidence == ReportedConfidence(inp)
    && b.outcome.needsReview == ReviewNeeded(inp)
    && TraceFits(b.outcome.status, b.outcome.reasons)
    && b.lexicalHits == LexicalCount(Top(inp.ranked))
  }

  /** A bundle that the pipeline produces for the claim it carries. */
  ghost predicate Genuine(env: Backends, b: Bundle) {
    IsBundleOf(env, b.claim, b)
  }

  method VerifyClaim(env: Backends, claim: Claim) returns (b: Bundle, ranked: seq<Score>)
    ensures IsBundleOf(env, claim, b) && ranked == JudgedClaim(env, claim).ranked
  {
    ranked := RerankAll(Retrieved(env, claim), QueryOf(env, claim));
    var inputs := ClaimInputs(env, claim);
    var outcome := DecideVerdict(inputs.(ranked := ranked));
    b := Bundle(claim, outcome, inputs.checkability, LexicalCount(Top(ranked)));
  }

  // ---- Conflicts ----

  /** The task that a mixed verdict with some tier-1 evidence, of any kind, opens. */
  ghost function ConflictEvents(env: Backends, claim: Claim, taskId: Review.Uuid, payload: Review.Payload): seq<Review.Event> {
    var inp := JudgedClaim(env, claim);
    if StatusOf(inp) == Mixed && exists s :: s in inp.ranked && s.evidence.tier == 1 then
      [Review.OpenTask(taskId, Review.ConflictTask, payload, 10)]
    else []
  }

  /** Fresh ids and payloads for the tasks that the claims of a statement may open. */
  datatype Tickets = Tickets(id: nat -> Review.Uuid, payload: nat -> Review.Payload)

  ghost function AllConflicts(env: Backends, claims: seq<Claim>, tickets: Tickets): seq<Review.Event> {
    if claims == [] then []
    else
      var k := |claims| - 1;
      AllConflicts(env, claims[..k], tickets) + ConflictEvents(env, claims[k], tickets.id(k), tickets.payload(k))
  }

  method MaybeOpenConflictTask(env: Backends, b: Bundle, ranked: seq<Score>, repo: Review.ReviewRepository,
                               taskId: Review.Uuid, payload: Review.Payload)
    requires Genuine(env, b) && ranked == JudgedClaim(env, b.claim).ranked
    modifies repo
    ensures Review.Tables(repo.tasks, repo.actions) ==
              Review.RunFrom(old(Review.Tables(repo.tasks, repo.actions)), ConflictEvents(env, b.claim, taskId, payload))
  {
    var tier1 := Sorting.Filter(ranked, (s: Score) => s.evidence.tier == 1);
    assert tier1 != [] <==> exists s :: s in ranked && s.evidence.tier == 1 by {
      if tier1 != [] {
        assert tier1[0] in tier1;
      }
    }
    if b.outcome.status == Mixed && |tier1| >= 1 {
      Review.RunOneMore(Review.Tables(repo.tasks, repo.actions), [], Review.OpenTask(taskId, Review.ConflictTask, payload, 10));
      var r := repo.OpenReviewTask(taskId, Review.ConflictTask, payload, 10);
    }
  }

  // ---- A statement ----

  function ClaimsOf(bundles: seq<Bundle>): seq<Claim> {
    seq(|bundles|, i requires 0 <= i < |bundles| => bundles[i].claim)
  }

  /** The bundles belong to the rule claims of the statement, one each and in order. */
  ghost predicate AreBundlesFor(env: Backends, find: Finder, statement: string, language: Language, bundles: seq<Bundle>) {
    && (forall b | b in bundles :: Genuine(env, b))
    && exists d :: Decomposes(find, statement, language, None, d) && d.claims == ClaimsOf(bundles)
  }

  lemma ConflictsOneMore(env: Backends, t: Review.Tables, claims: seq<Claim>, claim: Claim, tickets: Tickets)
    ensures Review.RunFrom(t, AllConflicts(env, claims + [claim], tickets)) ==
              Review.RunFrom(Review.RunFrom(t, AllConflicts(env, claims, tickets)),
                             ConflictEvents(env, claim, tickets.id(|claims|), tickets.payload(|claims|)))
  {
    assert (claims + [claim])[..|claims|] == claims;
    var before := AllConflicts(env, claims, tickets);
    var events := ConflictEvents(env, claim, tickets.id(|claims|), tickets.payload(|claims|));
    if events == [] {
      assert before + events == before;
    } else {
      Review.RunOneMore(t, before, events[0]);
      Review.RunOneMore(Review.RunFrom(t, before), [], events[0]);
      assert events == [] + [events[0]];
    }
  }

  /** The tasks opened for these claims; none when there is no review connection. */
  ghost function Opened(env: Backends, t: Review.Tables, claims: seq<Claim>, connected: bool, tickets: Tickets): Review.Tables {
    if connected then Review.RunFrom(t, AllConflicts(env, claims, tickets)) else t
  }

  method VerifyNext(env: Backends, ghost done: seq<Claim>, claim: Claim, repo: Review.ReviewRepository,
                    connected: bool, i: nat, tickets: Tickets, ghost start: Review.Tables)
    returns (b: Bundle)
    requires i == |done| && Review.Tables(repo.tasks, repo.actions) == Opened(env, start, done, connected, tickets)
    modifies repo
    ensures Genuine(env, b) && b.claim == claim
    ensures Review.Tables(repo.tasks, repo.actions) == Opened(env, start, done + [claim], connected, tickets)
  {
    var ranked;
    b, ranked := VerifyClaim(env, claim);
    if connected {
      MaybeOpenConflictTask(env, b, ranked, repo, tickets.id(i), tickets.payload(i));
      ConflictsOneMore(env, start, done, claim, tickets);
    }
  }

  /** The bundles are genuine and belong to these claims, one each and in order. */
  ghost predicate BundlesOf(env: Backends, claims: seq<Claim>, bundles: seq<Bundle>) {
    && ClaimsOf(bundles) == claims
    && forall b | b in bundles :: Genuine(env, b)
  }

  lemma OneMoreBundle(env: Backends, claims: seq<Claim>, bundles: seq<Bundle>, b: Bundle)
    requires BundlesOf(env, claims, bundles) && Genuine(env, b)
    ensures BundlesOf(env, claims + [b.claim], bundles + [b])
  {
  }

  method VerifyClaims(env: Backends, claims: seq<Claim>, repo: Review.ReviewRepository, connected: bool, tickets: Tickets)
    returns (bundles: seq<Bundle>)
    modifies repo
    ensures BundlesOf(env, claims, bundles)
    ensures Review.Tables(repo.tasks, repo.actions) ==
              Opened(env, old(Review.Tables(repo.tasks, repo.actions)), claims, connected, tickets)
  {
    bundles := [];
    ghost var start := Review.Tables(repo.tasks, repo.actions);
    ghost var done: seq<Claim> := [];
    for i := 0 to |claims|
      invariant done == claims[..i] && BundlesOf(env, done, bundles)
      invariant Review.Tables(repo.tasks, repo.actions) == Opened(env, start, done, connected, tickets)
    {
      var b := VerifyNext(env, done, claims[i], repo, connected, i, tickets, start);
      OneMoreBundle(env, done, bundles, b);
      bundles := bundles + [b];
      done := done + [claims[i]];
    }
    assert done == claims;
  }

  /** `connected` tells whether the pipeline has a review connection. */
  method VerifyStatement(env: Backends, find: Finder, text: string, language: Language, repo: Review.ReviewRepository,
                         connected: bool, tickets: Tickets)
    returns (bundles: seq<Bundle>)
    modifies repo
    ensures AreBundlesFor(env, find, Text.Strip(text), language, bundles)
    ensures Review.Tables(repo.tasks, repo.actions) ==
              Opened(env, old(Review.Tables(repo.tasks, repo.actions)), ClaimsOf(bundles), connected, tickets)
  {
    var d := Decompose(find, text, language, None);
    bundles := VerifyClaims(env, d.claims, repo, connected, tickets);
  }

  // ---- Slots as text ----

  ghost predicate Textual(claim: Claim) {
    forall name | name in claim.slots :: !claim.slots[name].Data?
  }

  lemma RuleClaimIsTextual(m: RuleMatch, statement: string)
    requires m.template < |RULE_TEMPLATES|
    ensures Textual(RuleClaim(m, statement))
  {
  }

  lemma BoxedIsTextual(m: RuleMatch, statement: string)
    requires m.template < |RULE_TEMPLATES|
    ensures forall c | c in Boxed(m, statement) :: Textual(c)
  {
    RuleClaimIsTextual(m, statement);
  }

  lemma {:induction false} RuleClaimsAreTextual(selected: seq<RuleMatch>, statement: string)
    requires TemplatesDeclared(selected)
    ensures forall c | c in RuleClaims(selected, statement) :: Textual(c)
  {
    if selected != [] {
      assert selected[0] in selected;
      BoxedIsTextual(selected[0], statement);
      RuleClaimsAreTextual(selected[1..], statement);
    }
  }

  lemma OfflineDecompositionIsTextual(statement: string, matches: seq<RuleMatch>, d: Decomposed)
    requires TemplatesDeclared(matches) && IsDecomposition(statement, matches, None, d)
    ensures forall c | c in d.claims :: Textual(c)
  {
    if statement != "" {
      var selected :| IsSelection(matches, selected) && TemplatesDeclared(selected)
                      && d.claims == RuleClaims(selected, statement);
      RuleClaimsAreTextual(selected, statement);
    }
  }

  /** The pipeline uses no provider, so the slots it reads are null or text, and reading them as text loses nothing. */
  lemma PipelineSlotsAreText(env: Backends, find: Finder, statement: string, language: Language, bundles: seq<Bundle>)
    requires AreBundlesFor(env, find, statement, language, bundles)
    ensures forall c | c in ClaimsOf(bundles) :: Textual(c)
  {
    var d :| Decomposes(find, statement, language, None, d) && d.claims == ClaimsOf(bundles);
    YieldsMeaning(find, statement, language);
    OfflineDecompositionIsTextual(statement, Yields(find, statement, language), d);
  }
}
