/** From claims to bundles, from bundles to attribution edges, and the overall relation of a declaration. */
module Declarations {
  import opened Wrappers
  import opened ClaimSlots
  import opened Checkability
  import opened Verdict
  import opened Pipeline
  import opened SpanSelection
  import opened Decomposition
  import Temporal
  import Text
  import Review

  // ---- Relations ----

  datatype Relation =
    | ContradictedBy | EntityAmbiguous | TimeScopeMismatch | NotCheckableAgainstRecord
    | Overstates | Underspecifies | SupportedBy

  /** Position in the priority list: 0 is worst. */
  function Priority(r: Relation): nat {
    match r
    case ContradictedBy => 0
    case EntityAmbiguous => 1
    case TimeScopeMismatch => 2
    case NotCheckableAgainstRecord => 3
    case Overstates => 4
    case Underspecifies => 5
    case SupportedBy => 6
  }

  predicate Contains(s: string, part: string) {
    part <= s || (|s| > 0 && Contains(s[1..], part))
  }

  predicate NamesTimeScope(r: Reason) {
    r.reason.Some? && Contains(ReasonText(r.reason.value), "time_scope")
  }

  function DetermineRelation(status: Status, check: Check, reasons: seq<Reason>, lexicalHits: nat): Relation {
    match status
    case Supported => SupportedBy
    case Contradicted => if exists r | r in reasons :: NamesTimeScope(r) then TimeScopeMismatch else ContradictedBy
    case Mixed => if lexicalHits == 1 then Underspecifies else Overstates
    case InsufficientEvidence => NotCheckableAgainstRecord
    case NonCheckableClaim =>
      if check == InsufficientEntityResolution then EntityAmbiguous
      else if check == InsufficientTimeScope then TimeScopeMismatch
      else NotCheckableAgainstRecord
  }

  function RelationOf(b: Bundle): Relation {
    DetermineRelation(b.outcome.status, b.checkability, b.outcome.reasons, b.lexicalHits)
  }

  lemma {:induction false} PartLetters(s: string, part: string, c: char)
    requires Contains(s, part) && c in part
    ensures c in s
  {
    if part <= s {
      var k :| 0 <= k < |part| && part[k] == c;
      assert s[k] == c;
    } else {
      PartLetters(s[1..], part, c);
    }
  }

  lemma LettersOfReasons()
    ensures 'p' in "time_scope" && 'p' !in "only_absent_sessions" && 'p' !in "decision_id_mismatch"
  {
    assert "time_scope"[8] == 'p';
  }

  lemma ContradictionReasonsAreNotAboutTime(key: ReasonKey)
    requires key == OnlyAbsentSessions || key == DecisionIdMismatch
    ensures !Contains(ReasonText(key), "time_scope")
  {
    LettersOfReasons();
    if Contains(ReasonText(key), "time_scope") {
      PartLetters(ReasonText(key), "time_scope", 'p');
    }
  }

  lemma ContradictionTrace(reasons: seq<Reason>)
    requires TraceFits(Contradicted, reasons)
    ensures forall r | r in reasons :: !NamesTimeScope(r)
  {
    forall r | r in reasons ensures !NamesTimeScope(r) {
      assert r == reasons[0];
      if r.reason.Some? {
        ContradictionReasonsAreNotAboutTime(r.reason.value);
      }
    }
  }

  lemma GenuineOutcome(env: Backends, b: Bundle)
    requires Genuine(env, b)
    ensures TraceFits(b.outcome.status, b.outcome.reasons)
    ensures b.outcome.status == NonCheckableClaim <==> b.checkability != Checkable
  {
    UncheckableStatus(JudgedClaim(env, b.claim));
  }

  lemma UncheckableStatus(inp: Inputs)
    ensures StatusOf(inp) == NonCheckableClaim <==> inp.checkability != Checkable
  {
  }

  /** No reason that the engine gives for a contradiction can trigger the time-scope refinement. */
  lemma ContradictionIsNotAboutTime(env: Backends, b: Bundle)
    requires Genuine(env, b) && b.outcome.status == Contradicted
    ensures RelationOf(b) == ContradictedBy
  {
    GenuineOutcome(env, b);
    ContradictionTrace(b.outcome.reasons);
  }

  /** Which claims lead to which relation, for every bundle the pipeline can produce. */
  lemma RelationMeaning(env: Backends, b: Bundle)
    requires Genuine(env, b)
    ensures RelationOf(b) == ContradictedBy <==> b.outcome.status == Contradicted
    ensures RelationOf(b) == SupportedBy <==> b.outcome.status == Supported
    ensures RelationOf(b) in {Overstates, Underspecifies} <==> b.outcome.status == Mixed
    ensures RelationOf(b) == Underspecifies <==> b.outcome.status == Mixed && b.lexicalHits == 1
    ensures RelationOf(b) == EntityAmbiguous <==> b.checkability == InsufficientEntityResolution
    ensures RelationOf(b) == TimeScopeMismatch <==> b.checkability == InsufficientTimeScope
    ensures RelationOf(b) == NotCheckableAgainstRecord <==>
              b.outcome.status == InsufficientEvidence || b.checkability == NonCheckable
  {
    if b.outcome.status == Contradicted {
      ContradictionIsNotAboutTime(env, b);
    }
    GenuineOutcome(env, b);
  }

  // ---- The worst relation ----

  ghost predicate IsWorst(r: Relation, relations: seq<Relation>) {
    if relations == [] then r == NotCheckableAgainstRecord
    else r in relations && forall other | other in relations :: Priority(r) <= Priority(other)
  }

  method WorstRelation(relations: seq<Relation>) returns (worst: Relation)
    ensures IsWorst(worst, relations)
  {
    if relations == [] {
      return NotCheckableAgainstRecord;
    }
    worst := relations[0];
    for i := 1 to |relations|
      invariant worst in relations[..i]
      invariant forall other | other in relations[..i] :: Priority(worst) <= Priority(other)
    {
      if Priority(relations[i]) < Priority(worst) {
        worst := relations[i];
      }
    }
    assert relations[..|relations|] == relations;
  }

  // ---- One declaration ----

  const REVIEW_TRIGGERS: set<Relation> :=
    {Overstates, Underspecifies, TimeScopeMismatch, EntityAmbiguous, ContradictedBy}

  datatype Edge = Edge(relation: Relation, needsReview: bool)

  function EdgeOf(b: Bundle): Edge {
    Edge(RelationOf(b), b.outcome.needsReview)
  }

  /** Claims and bundles are paired in order; the longer list is cut. */
  function Paired(claimCount: nat, bundles: seq<Bundle>): (pairs: seq<Bundle>)
    ensures pairs <= bundles && |pairs| <= claimCount
    ensures |pairs| == claimCount || |pairs| == |bundles|
  {
    if claimCount < |bundles| then bundles[..claimCount] else bundles
  }

  function Relations(bundles: seq<Bundle>): seq<Relation> {
    seq(|bundles|, i requires 0 <= i < |bundles| => RelationOf(bundles[i]))
  }

  method BuildEdges(pairs: seq<Bundle>) returns (edges: seq<Edge>, relations: seq<Relation>)
    ensures |edges| == |pairs| && forall i | 0 <= i < |edges| :: edges[i] == EdgeOf(pairs[i])
    ensures relations == Relations(pairs)
  {
    edges, relations := [], [];
    for i := 0 to |pairs|
      invariant |edges| == |relations| == i
      invariant forall k | 0 <= k < i :: edges[k] == EdgeOf(pairs[k]) && relations[k] == RelationOf(pairs[k])
    {
      edges := edges + [EdgeOf(pairs[i])];
      relations := relations + [RelationOf(pairs[i])];
    }
  }

  /** The tables after the declaration task, if it is due and there is a review connection. */
  function AfterTrigger(t: Review.Tables, overall: Relation, connected: bool, taskId: Review.Uuid, payload: Review.Payload)
    : Review.Tables
  {
    if connected && overall in REVIEW_TRIGGERS then
      Review.Apply(t, Review.OpenTask(taskId, Review.DeclarationTask, payload, 1))
    else t
  }

  /**
   * Runs the pipeline on the utterance, pairs its bundles with the claims of the declaration, builds one
   * edge per pair and opens a review task when the overall relation calls for one. `claimCount` is the
   * number of claims, `taskId` the fresh id of that task; pipeline and verifier may lack a connection.
   */
  method VerifyDeclaration(env: Backends, find: Finder, utterance: string, language: Language, claimCount: nat,
                           repo: Review.ReviewRepository, pipelineConnected: bool, verifierConnected: bool,
                           tickets: Tickets, taskId: Review.Uuid, payload: (seq<Edge>, Relation) -> Review.Payload)
    returns (verdicts: seq<Bundle>, edges: seq<Edge>, overall: Relation, ghost bundles: seq<Bundle>)
    modifies repo
    ensures AreBundlesFor(env, find, Text.Strip(utterance), language, bundles)
    ensures verdicts == Paired(claimCount, bundles) && |edges| == |verdicts|
    ensures |verdicts| == (if claimCount < |bundles| then claimCount else |bundles|)
    ensures forall i | 0 <= i < |verdicts| :: verdicts[i] == bundles[i]
    ensures forall i | 0 <= i < |edges| :: edges[i] == EdgeOf(verdicts[i])
    ensures forall i | 0 <= i < |edges| ::
              edges[i].relation == RelationOf(verdicts[i]) && edges[i].needsReview == verdicts[i].outcome.needsReview
    ensures IsWorst(overall, Relations(verdicts))
    ensures var before := old(Review.Tables(repo.tasks, repo.actions));
            Review.Tables(repo.tasks, repo.actions) ==
              AfterTrigger(Opened(env, before, ClaimsOf(bundles), pipelineConnected, tickets), overall,
                           verifierConnected, taskId, payload(edges, overall))
  {
    var all := VerifyStatement(env, find, utterance, language, repo, pipelineConnected, tickets);
    bundles := all;
    verdicts := Paired(claimCount, all);
    var relations;
    edges, relations := BuildEdges(verdicts);
    overall := WorstRelation(relations);
    if verifierConnected && overall in REVIEW_TRIGGERS {
      var r := repo.OpenReviewTask(taskId, Review.DeclarationTask, payload(edges, overall), 1);
    }
  }

  /** A worst relation triggers review when something above `not_checkable` is present, or mixed relations alone. */
  lemma TriggerOfWorst(relations: seq<Relation>, worst: Relation)
    requires IsWorst(worst, relations)
    ensures worst in REVIEW_TRIGGERS <==>
              || ContradictedBy in relations || EntityAmbiguous in relations || TimeScopeMismatch in relations
              || ((Overstates in relations || Underspecifies in relations) && NotCheckableAgainstRecord !in relations)
  {
  }

  /** The fold relation by relation: each is the outcome when it is present and no worse one is. */
  lemma WorstSpelledOut(relations: seq<Relation>, worst: Relation)
    requires IsWorst(worst, relations)
    ensures worst == (if relations == [] then NotCheckableAgainstRecord
                      else if ContradictedBy in relations then ContradictedBy
                      else if EntityAmbiguous in relations then EntityAmbiguous
                      else if TimeScopeMismatch in relations then TimeScopeMismatch
                      else if NotCheckableAgainstRecord in relations then NotCheckableAgainstRecord
                      else if Overstates in relations then Overstates
                      else if Underspecifies in relations then Underspecifies
                      else SupportedBy)
  {
    if relations != [] {
      assert relations[0] in relations;
    }
  }

  /** The declaration task: opened for these five relations, open, of priority 1, and nobody's. */
  lemma TriggerOpensTask(t: Review.Tables, overall: Relation, connected: bool, taskId: Review.Uuid, payload: Review.Payload)
    requires forall task | task in t.tasks :: task.taskId != taskId
    ensures AfterTrigger(t, overall, connected, taskId, payload) ==
              if connected && (overall == ContradictedBy || overall == EntityAmbiguous || overall == TimeScopeMismatch
                               || overall == Overstates || overall == Underspecifies)
              then Review.Tables(t.tasks + [Review.Task(taskId, Review.DeclarationTask, Review.Open, 1, payload, None)], t.actions)
              else t
  {
    Review.OpenedTask(t, taskId, Review.DeclarationTask, payload, 1);
  }

  lemma RelationListed(bundles: seq<Bundle>, b: Bundle)
    requires b in bundles
    ensures RelationOf(b) in Relations(bundles)
  {
    var k :| 0 <= k < |bundles| && bundles[k] == b;
    assert Relations(bundles)[k] == RelationOf(b);
  }

  lemma ListedRelation(bundles: seq<Bundle>, r: Relation) returns (b: Bundle)
    requires r in Relations(bundles)
    ensures b in bundles && RelationOf(b) == r
  {
    var k :| 0 <= k < |bundles| && Relations(bundles)[k] == r;
    b := bundles[k];
  }

  /** The fold in terms of verdicts: one contradiction decides, and support must be unanimous. */
  lemma OverallRelation(env: Backends, bundles: seq<Bundle>, overall: Relation)
    requires forall b | b in bundles :: Genuine(env, b)
    requires IsWorst(overall, Relations(bundles))
    ensures overall == ContradictedBy <==> exists b :: b in bundles && b.outcome.status == Contradicted
    ensures overall == SupportedBy <==> bundles != [] && forall b | b in bundles :: b.outcome.status == Supported
  {
    WorstAtTheEnds(Relations(bundles), overall);
    forall b | b in bundles
      ensures RelationOf(b) in Relations(bundles)
      ensures RelationOf(b) == ContradictedBy <==> b.outcome.status == Contradicted
      ensures RelationOf(b) == SupportedBy <==> b.outcome.status == Supported
    {
      RelationListed(bundles, b);
      RelationMeaning(env, b);
    }
    if ContradictedBy in Relations(bundles) {
      var b := ListedRelation(bundles, ContradictedBy);
    }
    forall r | r in Relations(bundles) ensures exists b :: b in bundles && RelationOf(b) == r {
      var b := ListedRelation(bundles, r);
    }
  }

  /** The worst relation is the first of the list as soon as that occurs, and the last only when nothing else does. */
  lemma WorstAtTheEnds(relations: seq<Relation>, worst: Relation)
    requires IsWorst(worst, relations)
    ensures worst == ContradictedBy <==> ContradictedBy in relations
    ensures worst == SupportedBy <==> relations != [] && forall r | r in relations :: r == SupportedBy
  {
    if relations != [] {
      assert relations[0] in relations;
    }
  }

  lemma RelationsPresent(bundles: seq<Bundle>, r: Relation)
    ensures r in Relations(bundles) <==> exists b :: b in bundles && RelationOf(b) == r
  {
    if r in Relations(bundles) {
      var b := ListedRelation(bundles, r);
    }
    if b :| b in bundles && RelationOf(b) == r {
      RelationListed(bundles, b);
    }
  }

  ghost predicate Alarming(b: Bundle) {
    b.outcome.status == Contradicted || b.checkability in {InsufficientEntityResolution, InsufficientTimeScope}
  }

  ghost predicate Unanswered(b: Bundle) {
    b.outcome.status == InsufficientEvidence || b.checkability == NonCheckable
  }

  lemma AlarmingMeaning(env: Backends, b: Bundle)
    requires Genuine(env, b)
    ensures Alarming(b) <==> RelationOf(b) in {ContradictedBy, EntityAmbiguous, TimeScopeMismatch}
    ensures b.outcome.status == Mixed <==> RelationOf(b) in {Overstates, Underspecifies}
    ensures Unanswered(b) <==> RelationOf(b) == NotCheckableAgainstRecord
  {
    RelationMeaning(env, b);
  }

  /**
   * When a review task is due: some claim is contradicted or fails for its entities or its time, or
   * some claim is mixed and none is unanswered. An unanswered claim outranks, and so hides, a mixed one.
   */
  lemma ReviewTrigger(env: Backends, bundles: seq<Bundle>, overall: Relation)
    requires forall b | b in bundles :: Genuine(env, b)
    requires IsWorst(overall, Relations(bundles))
    ensures overall in REVIEW_TRIGGERS <==>
              || (exists b :: b in bundles && Alarming(b))
              || ((exists b :: b in bundles && b.outcome.status == Mixed)
                  && forall b | b in bundles :: !Unanswered(b))
  {
    TriggerOfWorst(Relations(bundles), overall);
    forall r: Relation ensures r in Relations(bundles) <==> exists b :: b in bundles && RelationOf(b) == r {
      RelationsPresent(bundles, r);
    }
    forall b | b in bundles
      ensures Alarming(b) <==> RelationOf(b) in {ContradictedBy, EntityAmbiguous, TimeScopeMismatch}
      ensures b.outcome.status == Mixed <==> RelationOf(b) in {Overstates, Underspecifies}
      ensures Unanswered(b) <==> RelationOf(b) == NotCheckableAgainstRecord
    {
      AlarmingMeaning(env, b);
    }
  }

  // ---- Which claims get a verdict at all ----

  /**
   * The declaration is decomposed with the LLM provider, the pipeline decomposes the same text again
   * without one. In one language either both find the same rule claims, so that every claim has its own
   * bundle, or the pipeline finds none, and no claim of the declaration is ever verified.
   */
  lemma PairingWithPipeline(find: Finder, statement: string, language: Language, llm: Option<seq<RawClaim>>,
                            declared: Decomposed, pipeline: Decomposed)
    requires GoodFinder(find)
    requires Decomposes(find, statement, language, llm, declared)
    requires Decomposes(find, statement, language, None, pipeline)
    ensures pipeline.claims == if declared.llmInvoked then [] else declared.claims
  {
    if statement != "" {
      YieldsMeaning(find, statement, language);
      var matches := Yields(find, statement, language);
      var selected :| IsSelection(matches, selected);
      ClaimsOfSelection(statement, matches, llm, declared, selected);
      ClaimsOfSelection(statement, matches, None, pipeline, selected);
    }
  }

  /** Every claim that is paired at all is paired with the bundle of the same claim. */
  ghost predicate Aligned(declared: seq<Claim>, pipeline: seq<Claim>) {
    forall i :: 0 <= i < |declared| && i < |pipeline| ==> pipeline[i] == declared[i]
  }

  /** The same statement, ingested with a provider and verified without one. */
  ghost predicate TwoDecompositions(find: Finder, statement: string, declaredIn: Language, verifiedIn: Language,
                                    llm: Option<seq<RawClaim>>, declared: Decomposed, pipeline: Decomposed) {
    && GoodFinder(find)
    && Decomposes(find, statement, declaredIn, llm, declared)
    && Decomposes(find, statement, verifiedIn, None, pipeline)
  }

  ghost predicate AlwaysAligned(declaredIn: Language, verifiedIn: Language) {
    forall find, statement, llm, declared, pipeline ::
      TwoDecompositions(find, statement, declaredIn, verifiedIn, llm, declared, pipeline)
      ==> Aligned(declared.claims, pipeline.claims)
  }

  const TWO_DECISIONS := "government decision 5 החלטת ממשלה 7"

  function DecisionFound(span: Span, number: string): Found {
    Found(span, map["decision_number" := number])
  }

  /** What the patterns find in that statement; other statements do not matter here. */
  function FindDecisions(k: nat, s: string): seq<Found> {
    if s != TWO_DECISIONS then []
    else if k == 14 then [DecisionFound(Span(22, 35), "7")]
    else if k == 16 then [DecisionFound(Span(0, 22), "5")]
    else []
  }

  function DecisionMatch(language: Language): RuleMatch {
    match language
    case He => RuleMatch(14, Span(22, 35), map["decision_number" := "7"])
    case En => RuleMatch(16, Span(0, 22), map["decision_number" := "5"])
  }

  lemma FindDecisionsGood()
    ensures GoodFinder(FindDecisions)
  {
    assert |TWO_DECISIONS| == 35;
  }

  lemma {:induction false} EmptyYields(find: Finder, statement: string, language: Language, n: nat)
    requires n <= |RULE_TEMPLATES| && forall k | 0 <= k < n :: find(k, statement) == []
    ensures YieldsOf(find, statement, language, n) == []
  {
    if n > 0 {
      EmptyYields(find, statement, language, n - 1);
      assert TemplateYields(find, statement, language, n - 1) == [];
    }
  }

  lemma OneFound(template: nat, f: Found)
    ensures TemplateMatches(template, [f]) == [RuleMatch(template, f.span, f.groups)]
  {
  }

  lemma DecisionTemplates()
    ensures TemplateMatches(14, FindDecisions(14, TWO_DECISIONS)) == [DecisionMatch(He)]
    ensures TemplateMatches(15, FindDecisions(15, TWO_DECISIONS)) == []
    ensures TemplateMatches(16, FindDecisions(16, TWO_DECISIONS)) == [DecisionMatch(En)]
  {
    OneFound(14, DecisionFound(Span(22, 35), "7"));
    OneFound(16, DecisionFound(Span(0, 22), "5"));
  }

  lemma DecisionTemplateYields(language: Language)
    ensures TemplateYields(FindDecisions, TWO_DECISIONS, language, 14) == if language == He then [DecisionMatch(He)] else []
    ensures TemplateYields(FindDecisions, TWO_DECISIONS, language, 15) == []
    ensures TemplateYields(FindDecisions, TWO_DECISIONS, language, 16) == if language == En then [DecisionMatch(En)] else []
  {
    DecisionTemplates();
  }

  lemma NextYields(find: Finder, statement: string, language: Language, n: nat)
    requires n < |RULE_TEMPLATES|
    ensures YieldsOf(find, statement, language, n + 1) ==
              YieldsOf(find, statement, language, n) + TemplateYields(find, statement, language, n)
  {
  }

  lemma LastThreeYields(find: Finder, statement: string, language: Language,
                        a: seq<RuleMatch>, b: seq<RuleMatch>, c: seq<RuleMatch>)
    requires YieldsOf(find, statement, language, 14) == []
    requires a == TemplateYields(find, statement, language, 14) && b == TemplateYields(find, statement, language, 15)
    requires c == TemplateYields(find, statement, language, 16)
    ensures Yields(find, statement, language) == a + b + c
  {
    NextYields(find, statement, language, 14);
    NextYields(find, statement, language, 15);
    NextYields(find, statement, language, 16);
  }

  lemma DecisionYielded(language: Language)
    ensures Yields(FindDecisions, TWO_DECISIONS, language) == [DecisionMatch(language)]
  {
    var he, en := if language == He then [DecisionMatch(He)] else [], if language == En then [DecisionMatch(En)] else [];
    EmptyYields(FindDecisions, TWO_DECISIONS, language, 14);
    DecisionTemplateYields(language);
    LastThreeYields(FindDecisions, TWO_DECISIONS, language, he, [], en);
  }

  lemma LoneMatchSelected(m: RuleMatch)
    ensures IsSelection([m], [m])
  {
    assert [m][0] == m;
    assert FirstWithSpan(m, [m]);
  }

  /** `government_decision` matches have one group only. */
  lemma OtherGroupsAbsent(m: RuleMatch, number: string, name: string)
    requires m.groups == map["decision_number" := number] && |name| != |"decision_number"|
    ensures Group(m, name) == None && GroupSlot(m, name) == Null
  {
  }

  lemma DecisionSlots(m: RuleMatch, number: string)
    requires m.template < |RULE_TEMPLATES| && !RULE_TEMPLATES[m.template].thresholdBelow
    requires m.groups == map["decision_number" := number] && Text.Strip(number) == number != ""
    ensures RuleSlot(m, GovernmentDecisionId) == SlotValue.Text(number)
    ensures forall name | name != GovernmentDecisionId :: RuleSlot(m, name) == Null
  {
    forall name | name != GovernmentDecisionId ensures RuleSlot(m, name) == Null {
      OtherGroupsAbsent(m, number, "subject");
      OtherGroupsAbsent(m, number, "bill");
      OtherGroupsAbsent(m, number, "committee");
      OtherGroupsAbsent(m, number, "office");
      OtherGroupsAbsent(m, number, "vote_value");
      OtherGroupsAbsent(m, number, "party");
      OtherGroupsAbsent(m, number, "seats");
      OtherGroupsAbsent(m, number, "government_number");
    }
  }

  lemma DecisionSlotsValid(slots: Slots)
    requires GovernmentDecisionId in slots && slots[GovernmentDecisionId] !in {Null, SlotValue.Text("")}
    requires forall name | name in slots && name != GovernmentDecisionId :: slots[name] == Null
    ensures SlotsValid(GovernmentDecision, slots)
  {
  }

  function DecisionNumber(language: Language): string {
    if language == He then "7" else "5"
  }

  lemma DecisionClaim(language: Language)
    ensures var claim := RuleClaim(DecisionMatch(language), TWO_DECISIONS);
            && claim.claimType == GovernmentDecision && SlotsValid(claim.claimType, claim.slots)
            && GovernmentDecisionId in claim.slots
            && claim.slots[GovernmentDecisionId] == SlotValue.Text(DecisionNumber(language))
  {
    Text.StripNothing(DecisionNumber(language));
    DecisionSlots(DecisionMatch(language), DecisionNumber(language));
    DecisionSlotsValid(RuleSlots(DecisionMatch(language)));
  }

  function DecisionDecomposed(language: Language): Decomposed {
    Decomposed([RuleClaim(DecisionMatch(language), TWO_DECISIONS)], 1, false)
  }

  lemma DecisionDecomposes(language: Language)
    ensures Decomposes(FindDecisions, TWO_DECISIONS, language, None, DecisionDecomposed(language))
  {
    var m := DecisionMatch(language);
    DecisionYielded(language);
    LoneMatchSelected(m);
    DecisionClaim(language);
    OneRuleClaim(m, TWO_DECISIONS);
    assert TWO_DECISIONS[0] == 'g';
    assert TemplatesDeclared([m]);
  }

  lemma DifferentDecisions(a: Language, b: Language)
    requires a != b
    ensures var x, y := DecisionDecomposed(a).claims[0], DecisionDecomposed(b).claims[0];
            && GovernmentDecisionId in x.slots && GovernmentDecisionId in y.slots
            && x.slots[GovernmentDecisionId] != y.slots[GovernmentDecisionId]
    ensures !Aligned(DecisionDecomposed(a).claims, DecisionDecomposed(b).claims)
  {
    DecisionClaim(a);
    DecisionClaim(b);
    assert "7"[0] != "5"[0];
  }

  /**
   * The declaration is ingested in one language and verified in another: the claim about one government
   * decision is paired with the verdict on the other decision.
   */
  lemma LanguagesMispair(declaredIn: Language, verifiedIn: Language) returns (declared: Decomposed, pipeline: Decomposed)
    requires declaredIn != verifiedIn
    ensures GoodFinder(FindDecisions)
    ensures Decomposes(FindDecisions, TWO_DECISIONS, declaredIn, None, declared)
    ensures Decomposes(FindDecisions, TWO_DECISIONS, verifiedIn, None, pipeline)
    ensures |declared.claims| == |pipeline.claims| == 1 && !Aligned(declared.claims, pipeline.claims)
    ensures GovernmentDecisionId in declared.claims[0].slots && GovernmentDecisionId in pipeline.claims[0].slots
    ensures declared.claims[0].slots[GovernmentDecisionId] != pipeline.claims[0].slots[GovernmentDecisionId]
  {
    FindDecisionsGood();
    DecisionDecomposes(declaredIn);
    DecisionDecomposes(verifiedIn);
    DifferentDecisions(declaredIn, verifiedIn);
    declared, pipeline := DecisionDecomposed(declaredIn), DecisionDecomposed(verifiedIn);
  }

  lemma AlignedInOneLanguage(language: Language)
    ensures AlwaysAligned(language, language)
  {
    forall find, statement, llm, declared, pipeline |
      TwoDecompositions(find, statement, language, language, llm, declared, pipeline)
      ensures Aligned(declared.claims, pipeline.claims)
    {
      PairingWithPipeline(find, statement, language, llm, declared, pipeline);
    }
  }

  lemma MispairRefutes(find: Finder, statement: string, declaredIn: Language, verifiedIn: Language,
                       llm: Option<seq<RawClaim>>, declared: Decomposed, pipeline: Decomposed)
    requires GoodFinder(find)
    requires Decomposes(find, statement, declaredIn, llm, declared)
    requires Decomposes(find, statement, verifiedIn, None, pipeline)
    requires !Aligned(declared.claims, pipeline.claims)
    ensures !AlwaysAligned(declaredIn, verifiedIn)
  {
    assert TwoDecompositions(find, statement, declaredIn, verifiedIn, llm, declared, pipeline);
  }

  lemma NotAlwaysAligned(declaredIn: Language, verifiedIn: Language)
    requires declaredIn != verifiedIn
    ensures !AlwaysAligned(declaredIn, verifiedIn)
  {
    var declared, pipeline := LanguagesMispair(declaredIn, verifiedIn);
    MispairRefutes(FindDecisions, TWO_DECISIONS, declaredIn, verifiedIn, None, declared, pipeline);
  }

  /** Claims and bundles belong together in all cases if and only if both decompositions use one language. */
  lemma AlignedIffSameLanguage(declaredIn: Language, verifiedIn: Language)
    ensures AlwaysAligned(declaredIn, verifiedIn) <==> declaredIn == verifiedIn
  {
    if declaredIn == verifiedIn {
      AlignedInOneLanguage(declaredIn);
    } else {
      NotAlwaysAligned(declaredIn, verifiedIn);
    }
  }

  // ---- From the claims of a declaration to its review ----

  ghost function ClaimStatus(env: Backends, claim: Claim): Status {
    StatusOf(JudgedClaim(env, claim))
  }

  /** Some slot that the claim type requires was not resolved to one entity. */
  predicate EntityFails(env: Backends, claim: Claim)
    requires Known(claim.claimType)
  {
    SomeUnresolved(claim.claimType, Resolve(env, claim).statuses)
  }

  predicate TimeFails(env: Backends, claim: Claim) {
    Untimed(claim, Unplaceable(env))
  }

  lemma CheckOfClaim(env: Backends, claim: Claim)
    requires SlotsValid(claim.claimType, claim.slots)
    ensures JudgedClaim(env, claim).checkability ==
              if EntityFails(env, claim) then InsufficientEntityResolution
              else if TimeFails(env, claim) then InsufficientTimeScope
              else Checkable
  {
    TimeIsUnknown(env, claim);
    assert JudgedClaim(env, claim).checkability == ClaimInputs(env, claim).checkability;
  }

  lemma TimeIsUnknown(env: Backends, claim: Claim)
    ensures ScopeOf(env, claim.timePhrase).granularity == Temporal.UnknownScope <==>
              TimeUnknown(claim, Unplaceable(env))
  {
  }

  /** The relation of a validated claim, in terms of its entities, its time and its verdict. */
  lemma RelationOfClaim(env: Backends, b: Bundle)
    requires Genuine(env, b) && SlotsValid(b.claim.claimType, b.claim.slots)
    ensures RelationOf(b) == EntityAmbiguous <==> EntityFails(env, b.claim)
    ensures RelationOf(b) == TimeScopeMismatch <==> !EntityFails(env, b.claim) && TimeFails(env, b.claim)
    ensures RelationOf(b) == NotCheckableAgainstRecord <==> ClaimStatus(env, b.claim) == InsufficientEvidence
    ensures RelationOf(b) == ContradictedBy <==> ClaimStatus(env, b.claim) == Contradicted
    ensures RelationOf(b) in {Overstates, Underspecifies} <==> ClaimStatus(env, b.claim) == Mixed
    ensures RelationOf(b) == SupportedBy <==> ClaimStatus(env, b.claim) == Supported
  {
    RelationMeaning(env, b);
    CheckOfClaim(env, b.claim);
  }

  lemma BundlesOfStatement(env: Backends, find: Finder, statement: string, language: Language, bundles: seq<Bundle>)
    requires AreBundlesFor(env, find, statement, language, bundles)
    ensures AllGenuine(env, bundles)
  {
    var d :| Decomposes(find, statement, language, None, d) && d.claims == ClaimsOf(bundles);
    ReturnedClaimsAreValid(find, statement, language, None, d);
    forall b | b in bundles ensures b.claim in d.claims {
      BundleOfClaim(bundles, b.claim);
    }
  }

  lemma BundleOfClaim(bundles: seq<Bundle>, claim: Claim)
    ensures claim in ClaimsOf(bundles) <==> exists b :: b in bundles && b.claim == claim
  {
    if claim in ClaimsOf(bundles) {
      var k :| 0 <= k < |bundles| && ClaimsOf(bundles)[k] == claim;
      assert bundles[k] in bundles;
    }
    if b :| b in bundles && b.claim == claim {
      var k :| 0 <= k < |bundles| && bundles[k] == b;
      assert ClaimsOf(bundles)[k] == claim;
    }
  }

  ghost predicate ClaimAlarms(env: Backends, claim: Claim)
    requires Known(claim.claimType)
  {
    EntityFails(env, claim) || TimeFails(env, claim) || ClaimStatus(env, claim) == Contradicted
  }

  /** The claims whose verdicts the declaration is judged by: those of the pipeline, as far as they are paired. */
  function Checked(declared: Decomposed, bundles: seq<Bundle>): seq<Claim> {
    ClaimsOf(Paired(|declared.claims|, bundles))
  }

  /** Verified in the language it was ingested in, a declaration is judged by all its own claims, or by none if they came from the provider. */
  lemma CheckedInOneLanguage(env: Backends, find: Finder, statement: string, language: Language,
                             llm: Option<seq<RawClaim>>, declared: Decomposed, bundles: seq<Bundle>)
    requires GoodFinder(find) && Decomposes(find, statement, language, llm, declared)
    requires AreBundlesFor(env, find, statement, language, bundles)
    ensures Checked(declared, bundles) == if declared.llmInvoked then [] else declared.claims
  {
    var d :| Decomposes(find, statement, language, None, d) && d.claims == ClaimsOf(bundles);
    PairingWithPipeline(find, statement, language, llm, declared, d);
    assert |bundles| == |ClaimsOf(bundles)|;
  }

  /**
   * From the utterance to the review queue, for any two languages. A review is due if and only if some
   * checked claim is contradicted, or lacks an entity or a time, or some checked claim is mixed and each has
   * enough evidence. The checked claims are the declaration's own only if it is verified in its language.
   */
  lemma DeclarationReview(env: Backends, find: Finder, statement: string, declaredIn: Language, verifiedIn: Language,
                          llm: Option<seq<RawClaim>>, declared: Decomposed, bundles: seq<Bundle>, overall: Relation)
    requires GoodFinder(find) && Decomposes(find, statement, declaredIn, llm, declared)
    requires AreBundlesFor(env, find, statement, verifiedIn, bundles)
    requires IsWorst(overall, Relations(Paired(|declared.claims|, bundles)))
    ensures var checked := Checked(declared, bundles);
            && (forall c | c in checked :: Known(c.claimType))
            && (checked == [] ==> overall == NotCheckableAgainstRecord)
            && (overall in REVIEW_TRIGGERS <==>
                  || (exists c :: c in checked && ClaimAlarms(env, c))
                  || ((exists c :: c in checked && ClaimStatus(env, c) == Mixed)
                      && forall c | c in checked :: ClaimStatus(env, c) != InsufficientEvidence))
            && (overall == SupportedBy <==>
                  checked != [] && forall c | c in checked :: ClaimStatus(env, c) == Supported)
            && (declaredIn == verifiedIn ==> checked == if declared.llmInvoked then [] else declared.claims)
  {
    var pairs := Paired(|declared.claims|, bundles);
    BundlesOfStatement(env, find, statement, verifiedIn, bundles);
    assert AllGenuine(env, pairs);
    TriggerByClaims(env, pairs, overall);
    SupportByClaims(env, pairs, overall);
    if declaredIn == verifiedIn {
      CheckedInOneLanguage(env, find, statement, declaredIn, llm, declared, bundles);
    }
    assert |pairs| == |ClaimsOf(pairs)| == |Relations(pairs)|;
  }

  lemma BundleMeaning(env: Backends, b: Bundle)
    requires Genuine(env, b) && SlotsValid(b.claim.claimType, b.claim.slots)
    ensures b.outcome.status == ClaimStatus(env, b.claim)
    ensures Alarming(b) <==> ClaimAlarms(env, b.claim)
    ensures Unanswered(b) <==> ClaimStatus(env, b.claim) == InsufficientEvidence
  {
    AlarmingMeaning(env, b);
    RelationOfClaim(env, b);
  }

  ghost predicate AllGenuine(env: Backends, bundles: seq<Bundle>) {
    forall b | b in bundles :: Genuine(env, b) && SlotsValid(b.claim.claimType, b.claim.slots)
  }

  lemma BundlesMeaning(env: Backends, bundles: seq<Bundle>)
    requires AllGenuine(env, bundles)
    ensures forall b | b in bundles :: b.claim in ClaimsOf(bundles) && b.outcome.status == ClaimStatus(env, b.claim)
    ensures forall b | b in bundles :: Alarming(b) <==> ClaimAlarms(env, b.claim)
    ensures forall b | b in bundles :: Unanswered(b) <==> ClaimStatus(env, b.claim) == InsufficientEvidence
    ensures forall c | c in ClaimsOf(bundles) :: exists b :: b in bundles && b.claim == c
  {
    forall b | b in bundles
      ensures b.claim in ClaimsOf(bundles)
      ensures b.outcome.status == ClaimStatus(env, b.claim)
      ensures Alarming(b) <==> ClaimAlarms(env, b.claim)
      ensures Unanswered(b) <==> ClaimStatus(env, b.claim) == InsufficientEvidence
    {
      BundleOfClaim(bundles, b.claim);
      BundleMeaning(env, b);
    }
    forall c | c in ClaimsOf(bundles) ensures exists b :: b in bundles && b.claim == c {
      BundleOfClaim(bundles, c);
    }
  }

  lemma TriggerByClaims(env: Backends, bundles: seq<Bundle>, overall: Relation)
    requires AllGenuine(env, bundles) && IsWorst(overall, Relations(bundles))
    ensures forall c | c in ClaimsOf(bundles) :: Known(c.claimType)
    ensures overall in REVIEW_TRIGGERS <==>
              || (exists c :: c in ClaimsOf(bundles) && ClaimAlarms(env, c))
              || ((exists c :: c in ClaimsOf(bundles) && ClaimStatus(env, c) == Mixed)
                  && forall c | c in ClaimsOf(bundles) :: ClaimStatus(env, c) != InsufficientEvidence)
  {
    ReviewTrigger(env, bundles, overall);
    BundlesMeaning(env, bundles);
  }

  lemma SupportByClaims(env: Backends, bundles: seq<Bundle>, overall: Relation)
    requires AllGenuine(env, bundles) && IsWorst(overall, Relations(bundles))
    ensures overall == SupportedBy <==>
              bundles != [] && forall c | c in ClaimsOf(bundles) :: ClaimStatus(env, c) == Supported
  {
    OverallRelation(env, bundles, overall);
    BundlesMeaning(env, bundles);
  }
}
