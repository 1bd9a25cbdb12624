/** Rule-first decomposition of a statement into validated claims, and the declaration built on it. */
module Decomposition {
  import opened Wrappers
  import opened Text
  import opened SpanSelection
  import opened ClaimSlots
  import opened Checkability

  datatype Language = He | En

  datatype RuleTemplate = RuleTemplate(claimType: ClaimType, language: Language, thresholdBelow: bool)

  /** The declared templates in declaration order; their patterns are not modelled. */
  const RULE_TEMPLATES: seq<RuleTemplate> := [
    RuleTemplate(VoteCast, He, false), RuleTemplate(BillSponsorship, He, false), RuleTemplate(OfficeHeld, He, false),
    RuleTemplate(CommitteeMembership, He, false), RuleTemplate(CommitteeAttendance, He, false),
    RuleTemplate(VoteCast, En, false), RuleTemplate(BillSponsorship, En, false), RuleTemplate(OfficeHeld, En, false),
    RuleTemplate(CommitteeMembership, En, false), RuleTemplate(CommitteeAttendance, En, false),
    RuleTemplate(ElectionResult, He, false), RuleTemplate(ElectionResult, He, true),
    RuleTemplate(ElectionResult, En, false), RuleTemplate(ElectionResult, En, true),
    RuleTemplate(GovernmentDecision, He, false), RuleTemplate(GovernmentDecision, He, false),
    RuleTemplate(GovernmentDecision, En, false)
  ]

  datatype ClaimMethod = ByRules | ByLlm

  datatype Claim = Claim(rawText: string, normalizedText: string, claimType: ClaimType, slots: Slots,
                         timePhrase: Option<string>, how: ClaimMethod)

  /** One raw dict of the LLM provider; `voteValue` is its `vote_value`, `slots` holds the others. */
  datatype RawClaim = RawClaim(claimType: ClaimType, slots: Slots, voteValue: Option<string>,
                               normalizedText: string, timePhrase: Option<string>)

  datatype Decomposed = Decomposed(claims: seq<Claim>, ruleMatches: nat, llmInvoked: bool)

  // ---- What the templates yield ----

  /** One match of one pattern: its span and its named groups. */
  datatype Found = Found(span: Span, groups: map<string, string>)

  /** What each template's pattern finds in a text, in order; a pattern of the regex engine is any such function. */
  type Finder = (nat, string) -> seq<Found>

  /** Matches lie within the text, and no pattern matches the empty string. */
  ghost predicate GoodFinder(find: Finder) {
    forall k: nat, s: string, f :: f in find(k, s) ==> f.span.start < f.span.end <= |s|
  }

  function TemplateMatches(template: nat, found: seq<Found>): seq<RuleMatch> {
    seq(|found|, i requires 0 <= i < |found| => RuleMatch(template, found[i].span, found[i].groups))
  }

  /** The matches of the first `n` templates that belong to the language. */
  function YieldsOf(find: Finder, statement: string, language: Language, n: nat): seq<RuleMatch>
    requires n <= |RULE_TEMPLATES|
  {
    if n == 0 then []
    else
      YieldsOf(find, statement, language, n - 1) + TemplateYields(find, statement, language, n - 1)
  }

  function Yields(find: Finder, statement: string, language: Language): seq<RuleMatch> {
    YieldsOf(find, statement, language, |RULE_TEMPLATES|)
  }

  method IterMatches(find: Finder, statement: string, language: Language) returns (matches: seq<RuleMatch>)
    ensures matches == Yields(find, statement, language)
  {
    matches := [];
    for n := 0 to |RULE_TEMPLATES|
      invariant matches == YieldsOf(find, statement, language, n)
    {
      if RULE_TEMPLATES[n].language != language {
        continue;
      }
      var found := find(n, statement);
      ghost var before := matches;
      for i := 0 to |found|
        invariant matches == before + TemplateMatches(n, found)[..i]
      {
        matches := matches + [RuleMatch(n, found[i].span, found[i].groups)];
      }
      assert TemplateMatches(n, found)[..|found|] == TemplateMatches(n, found);
    }
  }

  ghost predicate TemplatesDeclared(matches: seq<RuleMatch>) {
    forall m | m in matches :: m.template < |RULE_TEMPLATES|
  }

  /** Where a yielded match comes from. */
  ghost predicate FoundBy(find: Finder, statement: string, language: Language, m: RuleMatch) {
    && m.template < |RULE_TEMPLATES| && RULE_TEMPLATES[m.template].language == language
    && Found(m.span, m.groups) in find(m.template, statement)
  }

  /** The matches of one template, if it belongs to the language. */
  function TemplateYields(find: Finder, statement: string, language: Language, k: nat): seq<RuleMatch>
    requires k < |RULE_TEMPLATES|
  {
    if RULE_TEMPLATES[k].language == language then TemplateMatches(k, find(k, statement)) else []
  }

  ghost predicate All(ms: seq<RuleMatch>, p: RuleMatch -> bool) {
    forall m | m in ms :: p(m)
  }

  lemma {:induction false} YieldsAll(find: Finder, statement: string, language: Language, n: nat, p: RuleMatch -> bool)
    requires n <= |RULE_TEMPLATES| && forall k | 0 <= k < n :: All(TemplateYields(find, statement, language, k), p)
    ensures All(YieldsOf(find, statement, language, n), p)
  {
    if n > 0 {
      YieldsAll(find, statement, language, n - 1, p);
    }
  }

  lemma TemplateYieldsFound(find: Finder, statement: string, language: Language, k: nat)
    requires k < |RULE_TEMPLATES|
    ensures All(TemplateYields(find, statement, language, k), (m: RuleMatch) => FoundBy(find, statement, language, m))
    ensures forall m | m in TemplateYields(find, statement, language, k) :: m.template == k
  {
    TemplateMatchesFound(k, find(k, statement));
  }

  lemma YieldsAreFound(find: Finder, statement: string, language: Language)
    ensures All(Yields(find, statement, language), (m: RuleMatch) => FoundBy(find, statement, language, m))
  {
    forall k | 0 <= k < |RULE_TEMPLATES|
      ensures All(TemplateYields(find, statement, language, k), (m: RuleMatch) => FoundBy(find, statement, language, m))
    {
      TemplateYieldsFound(find, statement, language, k);
    }
    YieldsAll(find, statement, language, |RULE_TEMPLATES|, (m: RuleMatch) => FoundBy(find, statement, language, m));
  }

  lemma {:induction false} YieldsOrdered(find: Finder, statement: string, language: Language, n: nat)
    requires n <= |RULE_TEMPLATES|
    ensures DeclaredOrder(YieldsOf(find, statement, language, n))
    ensures forall m | m in YieldsOf(find, statement, language, n) :: m.template < n
  {
    if n > 0 {
      YieldsOrdered(find, statement, language, n - 1);
      TemplateYieldsFound(find, statement, language, n - 1);
      OrderAppend(YieldsOf(find, statement, language, n - 1), TemplateYields(find, statement, language, n - 1), n - 1);
    }
  }

  lemma TemplateMatchesFound(template: nat, found: seq<Found>)
    ensures forall m | m in TemplateMatches(template, found) :: m.template == template && Found(m.span, m.groups) in found
  {
    var last := TemplateMatches(template, found);
    forall m | m in last ensures m.template == template && Found(m.span, m.groups) in found {
      var i :| 0 <= i < |last| && last[i] == m;
      assert found[i] == Found(m.span, m.groups);
    }
  }

  lemma OrderAppend(front: seq<RuleMatch>, last: seq<RuleMatch>, template: nat)
    requires DeclaredOrder(front) && forall m | m in front :: m.template < template
    requires forall m | m in last :: m.template == template
    ensures DeclaredOrder(front + last)
  {
    assert forall i | 0 <= i < |front| :: front[i] in front;
    assert forall i | 0 <= i < |last| :: last[i] in last;
  }

  /** The yields come in declared order, from templates of the language only, and have non-empty spans in the statement. */
  lemma YieldsMeaning(find: Finder, statement: string, language: Language)
    ensures TemplatesDeclared(Yields(find, statement, language)) && DeclaredOrder(Yields(find, statement, language))
    ensures forall m | m in Yields(find, statement, language) :: RULE_TEMPLATES[m.template].language == language
    ensures GoodFinder(find) ==>
              forall m | m in Yields(find, statement, language) :: m.span.start < m.span.end <= |statement|
  {
    YieldsAreFound(find, statement, language);
    YieldsOrdered(find, statement, language, |RULE_TEMPLATES|);
  }

  // ---- Boxing a match or a raw dict ----

  function ToLower(s: string): string {
    seq(|s|, i requires 0 <= i < |s| => if 'A' <= s[i] <= 'Z' then (s[i] as int + 32) as char else s[i])
  }

  function NormalizeVoteValue(raw: Option<string>): (value: SlotValue)
    ensures !value.Data?
  {
    if raw.None? then Null
    else
      var val := ToLower(Strip(raw.value));
      if val in ["בעד", "for", "in favor of", "in favour of"] then SlotValue.Text("for")
      else if val in ["נגד", "against", "opposed"] then SlotValue.Text("against")
      else if val in ["נמנע", "נמנעה", "abstained", "to abstain"] then SlotValue.Text("abstain")
      else Null
  }

  function Group(m: RuleMatch, name: string): Option<string> {
    if name in m.groups then Some(m.groups[name]) else None
  }

  /** `(groups.get(name) or "").strip() or None` */
  function GroupSlot(m: RuleMatch, name: string): (value: SlotValue)
    ensures !value.Data?
  {
    match Group(m, name)
    case None => Null
    case Some(s) => if Strip(s) == "" then Null else SlotValue.Text(Strip(s))
  }

  /** `s[lo:hi]`, clamped as Python slices are. */
  function Slice(s: string, span: Span): string {
    var hi := if span.end < |s| then span.end else |s|;
    if span.start < hi then s[span.start..hi] else ""
  }

  function RuleSlot(m: RuleMatch, name: SlotName): (value: SlotValue)
    requires m.template < |RULE_TEMPLATES|
    ensures !value.Data?
  {
    match name
    case SpeakerPersonId => GroupSlot(m, "subject")
    case TargetPersonId => Null
    case BillId => GroupSlot(m, "bill")
    case CommitteeId => GroupSlot(m, "committee")
    case OfficeId => GroupSlot(m, "office")
    case VoteValue => NormalizeVoteValue(Group(m, "vote_value"))
    case PartyId => GroupSlot(m, "party")
    case ExpectedSeats => GroupSlot(m, "seats")
    case ExpectPassedThreshold => if RULE_TEMPLATES[m.template].thresholdBelow then SlotValue.Text("false") else Null
    case GovernmentDecisionId => GroupSlot(m, "decision_number")
    case GovernmentNumber => GroupSlot(m, "government_number")
  }

  function RuleSlots(m: RuleMatch): Slots
    requires m.template < |RULE_TEMPLATES|
  {
    map name | name in ALL_SLOTS + {GovernmentNumber} :: RuleSlot(m, name)
  }

  function RuleClaim(m: RuleMatch, statement: string): Claim
    requires m.template < |RULE_TEMPLATES|
  {
    Claim(statement, Strip(Slice(statement, m.span)), RULE_TEMPLATES[m.template].claimType, RuleSlots(m),
          Group(m, "time"), ByRules)
  }

  function LlmClaim(statement: string, raw: RawClaim): Option<Claim> {
    var slots := raw.slots[VoteValue := NormalizeVoteValue(raw.voteValue)];
    if !Known(raw.claimType) || !SlotsValid(raw.claimType, slots) then None
    else
      var text := if raw.normalizedText == "" then statement else raw.normalizedText;
      Some(Claim(statement, Strip(text), raw.claimType, slots, raw.timePhrase, ByLlm))
  }

  /** The claims of the selected matches whose slots validate, in selection order. */
  function RuleClaims(selected: seq<RuleMatch>, statement: string): (claims: seq<Claim>)
    requires TemplatesDeclared(selected)
    ensures |claims| <= |selected|
    ensures forall c | c in claims :: c.how == ByRules && SlotsValid(c.claimType, c.slots)
  {
    if selected == [] then [] else Boxed(selected[0], statement) + RuleClaims(selected[1..], statement)
  }

  function Boxed(m: RuleMatch, statement: string): (claims: seq<Claim>)
    requires m.template < |RULE_TEMPLATES|
    ensures |claims| <= 1 && forall c | c in claims :: c.how == ByRules && SlotsValid(c.claimType, c.slots)
  {
    var claim := RuleClaim(m, statement);
    if SlotsValid(claim.claimType, claim.slots) then [claim] else []
  }

  function LlmClaims(raws: seq<RawClaim>, statement: string): (claims: seq<Claim>)
    ensures |claims| <= |raws|
    ensures forall c | c in claims :: c.how == ByLlm && SlotsValid(c.claimType, c.slots)
  {
    if raws == [] then []
    else
      match LlmClaim(statement, raws[0])
      case Some(claim) => [claim] + LlmClaims(raws[1..], statement)
      case None => LlmClaims(raws[1..], statement)
  }

  lemma {:induction false} RuleClaimsAppend(selected: seq<RuleMatch>, m: RuleMatch, statement: string)
    requires TemplatesDeclared(selected + [m])
    ensures TemplatesDeclared(selected) && TemplatesDeclared([m])
    ensures RuleClaims(selected + [m], statement) == RuleClaims(selected, statement) + RuleClaims([m], statement)
  {
    var all := selected + [m];
    assert forall x | x in selected :: x in all;
    assert m in all;
    if selected == [] {
      assert all == [m];
    } else {
      assert all[1..] == selected[1..] + [m] && all[0] == selected[0];
      RuleClaimsAppend(selected[1..], m, statement);
      RuleClaimsFirst(all, statement);
      RuleClaimsFirst(selected, statement);
      AppendAssociates(Boxed(selected[0], statement), RuleClaims(selected[1..], statement), RuleClaims([m], statement));
    }
  }

  lemma RuleClaimsFirst(selected: seq<RuleMatch>, statement: string)
    requires TemplatesDeclared(selected) && selected != []
    ensures selected[0].template < |RULE_TEMPLATES| && TemplatesDeclared(selected[1..])
    ensures RuleClaims(selected, statement) == Boxed(selected[0], statement) + RuleClaims(selected[1..], statement)
  {
    assert forall m | m in selected[1..] :: m in selected;
  }

  lemma AppendAssociates(a: seq<Claim>, b: seq<Claim>, c: seq<Claim>)
    ensures a + b + c == a + (b + c)
  {
  }

  lemma {:induction false} LlmClaimsAppend(raws: seq<RawClaim>, raw: RawClaim, statement: string)
    ensures LlmClaims(raws + [raw], statement) == LlmClaims(raws, statement) + LlmClaims([raw], statement)
  {
    if raws == [] {
      assert raws + [raw] == [raw];
    } else {
      assert (raws + [raw])[1..] == raws[1..] + [raw];
      LlmClaimsAppend(raws[1..], raw, statement);
    }
  }

  /** What `decompose` returns for a stripped statement and the matches selected in it. */
  ghost predicate IsDecomposition(statement: string, matches: seq<RuleMatch>, llm: Option<seq<RawClaim>>, r: Decomposed)
    requires TemplatesDeclared(matches)
  {
    if statement == "" then r == Decomposed([], 0, false)
    else
      exists selected: seq<RuleMatch> ::
        && IsSelection(matches, selected) && TemplatesDeclared(selected)
        && r.ruleMatches == |selected|
        && r.llmInvoked == (RuleClaims(selected, statement) == [] && llm.Some?)
        && r.claims == if r.llmInvoked then LlmClaims(llm.value, statement) else RuleClaims(selected, statement)
  }

  method BoxRuleMatches(selected: seq<RuleMatch>, statement: string) returns (claims: seq<Claim>)
    requires TemplatesDeclared(selected)
    ensures claims == RuleClaims(selected, statement)
  {
    claims := [];
    for i := 0 to |selected|
      invariant TemplatesDeclared(selected[..i])
      invariant claims == RuleClaims(selected[..i], statement)
    {
      NextRuleClaims(selected, i, statement);
      var boxed := BoxRuleMatch(selected[i], statement);
      claims := claims + boxed;
    }
    assert selected[..|selected|] == selected;
  }

  /** A match whose slots do not validate is dropped. */
  method BoxRuleMatch(m: RuleMatch, statement: string) returns (claims: seq<Claim>)
    requires m.template < |RULE_TEMPLATES|
    ensures claims == Boxed(m, statement)
  {
    var claim := RuleClaim(m, statement);
    var violations := ValidateSlots(claim.claimType, claim.slots);
    claims := if violations == [] then [claim] else [];
  }

  lemma NextRuleClaims(selected: seq<RuleMatch>, i: nat, statement: string)
    requires TemplatesDeclared(selected) && i < |selected|
    ensures TemplatesDeclared(selected[..i]) && TemplatesDeclared(selected[..i + 1])
    ensures RuleClaims(selected[..i + 1], statement) == RuleClaims(selected[..i], statement) + Boxed(selected[i], statement)
  {
    assert forall m | m in selected[..i + 1] :: m in selected;
    assert selected[..i + 1] == selected[..i] + [selected[i]];
    RuleClaimsAppend(selected[..i], selected[i], statement);
    OneRuleClaim(selected[i], statement);
  }

  lemma OneRuleClaim(m: RuleMatch, statement: string)
    requires m.template < |RULE_TEMPLATES|
    ensures TemplatesDeclared([m])
    ensures RuleClaims([m], statement) == Boxed(m, statement)
  {
    assert RuleClaims([m][1..], statement) == [];
  }

  method BoxLlmOutput(raws: seq<RawClaim>, statement: string) returns (claims: seq<Claim>)
    ensures claims == LlmClaims(raws, statement)
  {
    claims := [];
    for i := 0 to |raws|
      invariant claims == LlmClaims(raws[..i], statement)
    {
      assert raws[..i + 1] == raws[..i] + [raws[i]];
      LlmClaimsAppend(raws[..i], raws[i], statement);
      match LlmClaim(statement, raws[i]) {
        case None =>
        case Some(claim) => claims := claims + [claim];
      }
    }
    assert raws[..|raws|] == raws;
  }

  /** A decomposition of a stripped statement in one language; `llm` is what the provider returns, if there is one. */
  ghost predicate Decomposes(find: Finder, statement: string, language: Language, llm: Option<seq<RawClaim>>, r: Decomposed) {
    YieldsMeaning(find, statement, language);
    IsDecomposition(statement, Yields(find, statement, language), llm, r)
  }

  method Decompose(find: Finder, text: string, language: Language, llm: Option<seq<RawClaim>>) returns (r: Decomposed)
    ensures Decomposes(find, Strip(text), language, llm, r)
  {
    var statement := Strip(text);
    if statement == "" {
      return Decomposed([], 0, false);
    }
    var matches := IterMatches(find, statement, language);
    YieldsMeaning(find, statement, language);
    r := DecomposeMatches(statement, matches, llm);
  }

  method DecomposeMatches(statement: string, matches: seq<RuleMatch>, llm: Option<seq<RawClaim>>) returns (r: Decomposed)
    requires TemplatesDeclared(matches) && statement != ""
    ensures IsDecomposition(statement, matches, llm, r)
  {
    var selected := Select(matches);
    var claims := BoxRuleMatches(selected, statement);
    var llmUsed := claims == [] && llm.Some?;
    if llmUsed {
      claims := BoxLlmOutput(llm.value, statement);
    }
    r := Decomposed(claims, |selected|, llmUsed);
  }

  lemma ClaimsAreValid(statement: string, matches: seq<RuleMatch>, llm: Option<seq<RawClaim>>, r: Decomposed)
    requires TemplatesDeclared(matches) && IsDecomposition(statement, matches, llm, r)
    ensures forall c | c in r.claims :: Known(c.claimType) && SlotsValid(c.claimType, c.slots)
  {
  }

  /** Whatever path produced it, every returned claim fits the slot template of its type. */
  lemma ReturnedClaimsAreValid(find: Finder, statement: string, language: Language, llm: Option<seq<RawClaim>>, r: Decomposed)
    requires Decomposes(find, statement, language, llm, r)
    ensures forall c | c in r.claims :: Known(c.claimType) && SlotsValid(c.claimType, c.slots)
  {
    YieldsMeaning(find, statement, language);
    ClaimsAreValid(statement, Yields(find, statement, language), llm, r);
  }

  /** The claims are those of the one selection of these matches, unless the provider was asked. */
  lemma ClaimsOfSelection(statement: string, matches: seq<RuleMatch>, llm: Option<seq<RawClaim>>, r: Decomposed,
                          selected: seq<RuleMatch>)
    requires TemplatesDeclared(matches) && statement != "" && IsSelection(matches, selected)
    requires forall m | m in matches :: m.span.start < m.span.end
    requires IsDecomposition(statement, matches, llm, r)
    ensures TemplatesDeclared(selected) && r.ruleMatches == |selected|
    ensures r.llmInvoked == (RuleClaims(selected, statement) == [] && llm.Some?)
    ensures r.claims == if r.llmInvoked then LlmClaims(llm.value, statement) else RuleClaims(selected, statement)
  {
    var s :| IsSelection(matches, s) && TemplatesDeclared(s) && r.ruleMatches == |s|
             && r.llmInvoked == (RuleClaims(s, statement) == [] && llm.Some?)
             && r.claims == if r.llmInvoked then LlmClaims(llm.value, statement) else RuleClaims(s, statement);
    SelectionIsDeterministic(matches, s, selected);
  }

  lemma SameMatchesSameClaims(statement: string, matches: seq<RuleMatch>, llm: Option<seq<RawClaim>>,
                              r1: Decomposed, r2: Decomposed)
    requires TemplatesDeclared(matches)
    requires forall m | m in matches :: m.span.start < m.span.end
    requires IsDecomposition(statement, matches, llm, r1) && IsDecomposition(statement, matches, llm, r2)
    ensures r1 == r2
  {
    if statement != "" {
      var selected :| IsSelection(matches, selected);
      ClaimsOfSelection(statement, matches, llm, r1, selected);
      ClaimsOfSelection(statement, matches, llm, r2, selected);
    }
  }

  /** Decomposition is a function of the statement and its language. */
  lemma DecompositionIsDeterministic(find: Finder, statement: string, language: Language, llm: Option<seq<RawClaim>>,
                                     r1: Decomposed, r2: Decomposed)
    requires GoodFinder(find)
    requires Decomposes(find, statement, language, llm, r1) && Decomposes(find, statement, language, llm, r2)
    ensures r1 == r2
  {
    YieldsMeaning(find, statement, language);
    SameMatchesSameClaims(statement, Yields(find, statement, language), llm, r1, r2);
  }

  // ---- Vote values ----

  lemma CanonicalVoteValues(v: string)
    requires v in {"for", "against", "abstain"}
    ensures NormalizeVoteValue(Some(v)) == if v == "abstain" then Null else SlotValue.Text(v)
  {
    StripNothing(v);
    LowerAlready(v);
    if v == "abstain" {
      AbstainIsNoVoteWord();
      VoteWordsRecognized(v);
    }
  }

  lemma LowerAlready(v: string)
    requires forall c | c in v :: !('A' <= c <= 'Z')
    ensures ToLower(v) == v
  {
    forall i | 0 <= i < |v| ensures ToLower(v)[i] == v[i] {
      assert v[i] in v;
    }
  }

  lemma AbstainIsNoVoteWord()
    ensures "abstain" !in VOTE_WORDS
  {
    var v := "abstain";
    assert |v| == 7 && |"against"| == 7 && |"opposed"| == 7;
    assert v[1] == 'b' && "against"[1] == 'g' && "opposed"[0] == 'o' && v[0] == 'a';
  }

  const VOTE_WORDS: seq<string> := [
    "בעד", "for", "in favor of", "in favour of", "נגד", "against", "opposed",
    "נמנע", "נמנעה", "abstained", "to abstain"
  ]

  lemma VoteWordsRecognized(raw: string)
    ensures NormalizeVoteValue(Some(raw)) in {Null, SlotValue.Text("for"), SlotValue.Text("against"), SlotValue.Text("abstain")}
    ensures NormalizeVoteValue(Some(raw)) != Null <==> ToLower(Strip(raw)) in VOTE_WORDS
  {
  }

  /** A provider's vote claim is accepted if and only if its vote value is a known word and its other slots fit. */
  lemma VoteClaimAccepted(statement: string, raw: RawClaim)
    requires raw.claimType == VoteCast
    ensures LlmClaim(statement, raw).Some? <==>
              && raw.voteValue.Some? && ToLower(Strip(raw.voteValue.value)) in VOTE_WORDS
              && SlotsValid(VoteCast, raw.slots[VoteValue := SlotValue.Text("for")])
  {
    var value := NormalizeVoteValue(raw.voteValue);
    if raw.voteValue.Some? {
      VoteWordsRecognized(raw.voteValue.value);
    }
    VoteSlotsValid(raw.slots, value, SlotValue.Text("for"));
  }

  /** Which non-empty vote value a vote claim has does not matter to its template. */
  lemma VoteSlotsValid(slots: Slots, value: SlotValue, other: SlotValue)
    requires other !in {Null, SlotValue.Text("")}
    ensures SlotsValid(VoteCast, slots[VoteValue := value]) <==>
              value !in {Null, SlotValue.Text("")} && SlotsValid(VoteCast, slots[VoteValue := other])
  {
    var a, b := slots[VoteValue := value], slots[VoteValue := other];
    assert forall name | name != VoteValue :: Empty(a, name) == Empty(b, name);
    assert VoteValue in Required(VoteCast) && VoteValue !in Forbidden(VoteCast);
    assert Empty(a, VoteValue) <==> value in {Null, SlotValue.Text("")};
  }

  /**
   * The claim schema names the vote values for, against and abstain. A provider that answers in these
   * terms, with all other slots in order, has its vote claim accepted exactly when it is no abstention.
   */
  lemma CanonicalVoteAccepted(statement: string, raw: RawClaim)
    requires raw.claimType == VoteCast && raw.voteValue in {Some("for"), Some("against"), Some("abstain")}
    requires SlotsValid(VoteCast, raw.slots[VoteValue := SlotValue.Text(raw.voteValue.value)])
    ensures LlmClaim(statement, raw).Some? <==> raw.voteValue != Some("abstain")
  {
    CanonicalVoteValues(raw.voteValue.value);
    VoteSlotsValid(raw.slots, SlotValue.Text(raw.voteValue.value), SlotValue.Text("for"));
    VoteClaimAccepted(statement, raw);
    VoteWordsRecognized(raw.voteValue.value);
  }

  // ---- The declaration ----

  /** No phrase, an empty phrase, or one the normalizer cannot place. */
  predicate TimeUnknown(claim: Claim, unplaceable: string -> bool) {
    claim.timePhrase.None? || claim.timePhrase.value == "" || unplaceable(claim.timePhrase.value)
  }

  function OfflineCheck(claim: Claim, unplaceable: string -> bool): Check {
    Classify(claim.claimType, claim.slots, map[], TimeUnknown(claim, unplaceable))
  }

  function OfflineChecks(claims: seq<Claim>, unplaceable: string -> bool): (checks: seq<Check>)
    ensures |checks| == |claims|
    ensures forall i :: 0 <= i < |claims| ==> checks[i] == OfflineCheck(claims[i], unplaceable)
  {
    seq(|claims|, i requires 0 <= i < |claims| => OfflineCheck(claims[i], unplaceable))
  }

  method CheckOffline(claims: seq<Claim>, unplaceable: string -> bool) returns (checks: seq<Check>)
    ensures checks == OfflineChecks(claims, unplaceable)
  {
    checks := [];
    for i := 0 to |claims|
      invariant |checks| == i && forall k | 0 <= k < i :: checks[k] == OfflineCheck(claims[k], unplaceable)
    {
      var check := OfflineCheck(claims[i], unplaceable);
      checks := checks + [check];
    }
  }

  method DecomposeDeclaration(find: Finder, utterance: string, language: Language, llm: Option<seq<RawClaim>>,
                              unplaceable: string -> bool)
    returns (r: Decomposed, checkability: DeclarationCheck)
    ensures Decomposes(find, Strip(utterance), language, llm, r)
    ensures checkability == ClassifyDeclaration(OfflineChecks(r.claims, unplaceable))
  {
    StripTwice(utterance);
    r := Decompose(find, Strip(utterance), language, llm);
    var checks := CheckOffline(r.claims, unplaceable);
    checkability := ClassifyDeclaration(checks);
  }

  /** The claim type needs a time anchor and the claim has none. */
  predicate Untimed(claim: Claim, unplaceable: string -> bool) {
    claim.claimType in TIME_REQUIRED && TimeUnknown(claim, unplaceable)
  }

  /** A decomposed claim cannot fail offline for its slots, only for want of a time. */
  lemma OfflineCheckOfValidClaim(claim: Claim, unplaceable: string -> bool)
    requires SlotsValid(claim.claimType, claim.slots)
    ensures OfflineCheck(claim, unplaceable) == if Untimed(claim, unplaceable) then InsufficientTimeScope else Checkable
  {
  }

  lemma ChecksOfValidClaims(claims: seq<Claim>, unplaceable: string -> bool)
    requires forall c | c in claims :: SlotsValid(c.claimType, c.slots)
    ensures forall check | check in OfflineChecks(claims, unplaceable) :: check in {InsufficientTimeScope, Checkable}
    ensures Checkable !in OfflineChecks(claims, unplaceable) <==> forall c | c in claims :: Untimed(c, unplaceable)
  {
    var checks := OfflineChecks(claims, unplaceable);
    forall i | 0 <= i < |claims|
      ensures checks[i] == if Untimed(claims[i], unplaceable) then InsufficientTimeScope else Checkable
    {
      OfflineCheckOfValidClaim(claims[i], unplaceable);
    }
    forall c | c in claims && !Untimed(c, unplaceable) ensures Checkable in checks {
      var i :| 0 <= i < |claims| && claims[i] == c;
      assert checks[i] in checks;
    }
  }

  /**
   * The class of a declaration, from the claims it returned: only three of the five classes can
   * occur, and `partially_checkable` and `insufficient_entity_resolution` never do.
   */
  lemma DeclarationClass(find: Finder, statement: string, language: Language, llm: Option<seq<RawClaim>>, r: Decomposed,
                         unplaceable: string -> bool)
    requires Decomposes(find, statement, language, llm, r)
    ensures ClassifyDeclaration(OfflineChecks(r.claims, unplaceable)) ==
              if r.claims == [] then NotCheckable
              else if forall c | c in r.claims :: Untimed(c, unplaceable) then DeclarationTimeScope
              else CheckableFormalAction
  {
    ReturnedClaimsAreValid(find, statement, language, llm, r);
    ChecksOfValidClaims(r.claims, unplaceable);
    DeclarationTable(OfflineChecks(r.claims, unplaceable));
  }

  // ---- Where a claim's parts come from ----

  /** The named group without surrounding space, if anything is left of it. */
  ghost predicate FromGroup(value: SlotValue, m: RuleMatch, name: string) {
    if name in m.groups && Strip(m.groups[name]) != "" then value == SlotValue.Text(Strip(m.groups[name])) else value == Null
  }

  /** Which group fills which slot of a rule claim, and where its other parts come from. */
  lemma RuleClaimParts(m: RuleMatch, statement: string)
    requires m.template < |RULE_TEMPLATES|
    ensures var c := RuleClaim(m, statement);
            && c.slots.Keys == ALL_SLOTS + {GovernmentNumber} && GroupsInSlots(c.slots, m)
            && c.claimType == RULE_TEMPLATES[m.template].claimType && c.rawText == statement && c.how == ByRules
            && c.timePhrase == (if "time" in m.groups then Some(m.groups["time"]) else None)
            && (m.span.start <= m.span.end <= |statement| ==>
                  c.normalizedText == Strip(statement[m.span.start..m.span.end]))
  {
    GroupsAreInSlots(m);
  }

  /** Each slot has its own group; the target has none. */
  ghost predicate GroupsInSlots(slots: Slots, m: RuleMatch)
    requires slots.Keys == ALL_SLOTS + {GovernmentNumber}
  {
    && PersonAndBill(slots[SpeakerPersonId], slots[TargetPersonId], slots[BillId], slots[VoteValue], m)
    && FromGroup(slots[CommitteeId], m, "committee") && FromGroup(slots[OfficeId], m, "office")
    && FromGroup(slots[PartyId], m, "party") && FromGroup(slots[ExpectedSeats], m, "seats")
    && FromGroup(slots[GovernmentDecisionId], m, "decision_number")
    && FromGroup(slots[GovernmentNumber], m, "government_number")
  }

  ghost predicate PersonAndBill(speaker: SlotValue, target: SlotValue, bill: SlotValue, vote: SlotValue, m: RuleMatch) {
    && FromGroup(speaker, m, "subject") && target == Null && FromGroup(bill, m, "bill")
    && vote == if "vote_value" in m.groups then NormalizeVoteValue(Some(m.groups["vote_value"])) else Null
  }

  lemma SlotHasGroup(m: RuleMatch, slot: SlotName, name: string)
    requires m.template < |RULE_TEMPLATES| && RuleSlot(m, slot) == GroupSlot(m, name)
    ensures FromGroup(RuleSlot(m, slot), m, name)
  {
  }

  lemma VoteGroup(m: RuleMatch)
    requires m.template < |RULE_TEMPLATES|
    ensures PersonAndBill(RuleSlot(m, SpeakerPersonId), RuleSlot(m, TargetPersonId), RuleSlot(m, BillId), RuleSlot(m, VoteValue), m)
  {
    SlotHasGroup(m, SpeakerPersonId, "subject");
    SlotHasGroup(m, BillId, "bill");
  }

  lemma OfficeGroups(m: RuleMatch)
    requires m.template < |RULE_TEMPLATES|
    ensures FromGroup(RuleSlot(m, CommitteeId), m, "committee") && FromGroup(RuleSlot(m, OfficeId), m, "office")
    ensures FromGroup(RuleSlot(m, PartyId), m, "party")
  {
    SlotHasGroup(m, CommitteeId, "committee");
    SlotHasGroup(m, OfficeId, "office");
    SlotHasGroup(m, PartyId, "party");
  }

  lemma NumberGroups(m: RuleMatch)
    requires m.template < |RULE_TEMPLATES|
    ensures FromGroup(RuleSlot(m, ExpectedSeats), m, "seats")
    ensures FromGroup(RuleSlot(m, GovernmentDecisionId), m, "decision_number")
    ensures FromGroup(RuleSlot(m, GovernmentNumber), m, "government_number")
  {
    SlotHasGroup(m, ExpectedSeats, "seats");
    SlotHasGroup(m, GovernmentDecisionId, "decision_number");
    SlotHasGroup(m, GovernmentNumber, "government_number");
  }

  lemma GroupsAreInSlots(m: RuleMatch)
    requires m.template < |RULE_TEMPLATES|
    ensures RuleSlots(m).Keys == ALL_SLOTS + {GovernmentNumber} && GroupsInSlots(RuleSlots(m), m)
  {
    SlotByName(m);
    VoteGroup(m);
    OfficeGroups(m);
    NumberGroups(m);
    GroupsByName(m, RuleSlots(m));
  }

  lemma GroupsByName(m: RuleMatch, slots: Slots)
    requires m.template < |RULE_TEMPLATES| && slots.Keys == ALL_SLOTS + {GovernmentNumber}
    requires forall name | name in slots :: slots[name] == RuleSlot(m, name)
    requires PersonAndBill(RuleSlot(m, SpeakerPersonId), RuleSlot(m, TargetPersonId), RuleSlot(m, BillId), RuleSlot(m, VoteValue), m)
    requires FromGroup(RuleSlot(m, CommitteeId), m, "committee") && FromGroup(RuleSlot(m, OfficeId), m, "office")
    requires FromGroup(RuleSlot(m, PartyId), m, "party") && FromGroup(RuleSlot(m, ExpectedSeats), m, "seats")
    requires FromGroup(RuleSlot(m, GovernmentDecisionId), m, "decision_number")
    requires FromGroup(RuleSlot(m, GovernmentNumber), m, "government_number")
    ensures GroupsInSlots(slots, m)
  {
  }

  lemma SlotByName(m: RuleMatch)
    requires m.template < |RULE_TEMPLATES|
    ensures RuleSlots(m).Keys == ALL_SLOTS + {GovernmentNumber}
    ensures forall name | name in RuleSlots(m) :: RuleSlots(m)[name] == RuleSlot(m, name)
  {
  }

  /** The templates for a list below the threshold expect it not to have passed; the others expect nothing. */
  lemma ThresholdTemplates(m: RuleMatch, statement: string)
    requires m.template < |RULE_TEMPLATES|
    ensures RuleClaim(m, statement).slots[ExpectPassedThreshold] ==
              if m.template in {11, 13} then SlotValue.Text("false") else Null
    ensures m.template in {11, 13} ==> RuleClaim(m, statement).claimType == ElectionResult
  {
  }

  /** Both languages have templates for the same seven types, and none for statements about an action. */
  lemma TemplatesOfLanguage(language: Language, t: ClaimType)
    ensures (exists k :: 0 <= k < |RULE_TEMPLATES| && RULE_TEMPLATES[k].language == language && RULE_TEMPLATES[k].claimType == t)
            <==> t in {VoteCast, BillSponsorship, OfficeHeld, CommitteeMembership, CommitteeAttendance,
                       ElectionResult, GovernmentDecision}
  {
    assert RULE_TEMPLATES[0].claimType == RULE_TEMPLATES[5].claimType == VoteCast;
    assert RULE_TEMPLATES[1].claimType == RULE_TEMPLATES[6].claimType == BillSponsorship;
    assert RULE_TEMPLATES[2].claimType == RULE_TEMPLATES[7].claimType == OfficeHeld;
    assert RULE_TEMPLATES[3].claimType == RULE_TEMPLATES[8].claimType == CommitteeMembership;
    assert RULE_TEMPLATES[4].claimType == RULE_TEMPLATES[9].claimType == CommitteeAttendance;
    assert RULE_TEMPLATES[10].claimType == RULE_TEMPLATES[12].claimType == ElectionResult;
    assert RULE_TEMPLATES[14].claimType == RULE_TEMPLATES[16].claimType == GovernmentDecision;
    assert RULE_TEMPLATES[0].language == He && RULE_TEMPLATES[5].language == En;
    assert RULE_TEMPLATES[1].language == He && RULE_TEMPLATES[6].language == En;
    assert RULE_TEMPLATES[2].language == He && RULE_TEMPLATES[7].language == En;
    assert RULE_TEMPLATES[3].language == He && RULE_TEMPLATES[8].language == En;
    assert RULE_TEMPLATES[4].language == He && RULE_TEMPLATES[9].language == En;
    assert RULE_TEMPLATES[10].language == He && RULE_TEMPLATES[12].language == En;
    assert RULE_TEMPLATES[14].language == He && RULE_TEMPLATES[16].language == En;
  }

  /** What each known word means, in either language; every other word means nothing. */
  lemma VoteWordMeaning(raw: string)
    ensures var word, value := ToLower(Strip(raw)), NormalizeVoteValue(Some(raw));
            && (value == SlotValue.Text("for") <==>
                  word == "בעד" || word == "for" || word == "in favor of" || word == "in favour of")
            && (value == SlotValue.Text("against") <==> word == "נגד" || word == "against" || word == "opposed")
            && (value == SlotValue.Text("abstain") <==>
                  word == "נמנע" || word == "נמנעה" || word == "abstained" || word == "to abstain")
            && (value in {Null, SlotValue.Text("for"), SlotValue.Text("against"), SlotValue.Text("abstain")})
  {
    VoteWordsDiffer();
  }

  lemma VoteWordsDiffer()
    ensures SlotValue.Text("for") != SlotValue.Text("against")
    ensures SlotValue.Text("for") != SlotValue.Text("abstain")
    ensures SlotValue.Text("against") != SlotValue.Text("abstain")
    ensures forall w | w in ["בעד", "for", "in favor of", "in favour of"] ::
              w !in ["נגד", "against", "opposed"] && w !in ["נמנע", "נמנעה", "abstained", "to abstain"]
    ensures forall w | w in ["נגד", "against", "opposed"] :: w !in ["נמנע", "נמנעה", "abstained", "to abstain"]
  {
    assert "for"[0] == 'f' && "against"[0] == 'a' && "against"[1] == 'g' && "abstain"[1] == 'b';
    assert "בעד"[0] != "נגד"[0] && "בעד"[0] != 'a' && "opposed"[0] == 'o' && "to abstain"[0] == 't';
    assert "נגד"[0] != 'a' && "נמנע"[0] != 'a' && "נמנעה"[0] != 'a' && "abstained"[1] == 'b';
  }

  /** What is boxed of a provider's answer. */
  lemma LlmClaimParts(statement: string, raw: RawClaim)
    ensures LlmClaim(statement, raw).Some? ==>
              var c := LlmClaim(statement, raw).value;
              && c.claimType == raw.claimType && c.rawText == statement && c.how == ByLlm && c.timePhrase == raw.timePhrase
              && c.normalizedText == Strip(if raw.normalizedText != "" then raw.normalizedText else statement)
              && c.slots == raw.slots[VoteValue := NormalizeVoteValue(raw.voteValue)]
    ensures LlmClaim(statement, raw).Some? <==>
              Known(raw.claimType) && SlotsValid(raw.claimType, raw.slots[VoteValue := NormalizeVoteValue(raw.voteValue)])
  {
  }

  /** Every match of a template of the language is yielded. */
  lemma {:induction false} YieldsComplete(find: Finder, statement: string, language: Language, n: nat, k: nat, f: Found)
    requires k < n <= |RULE_TEMPLATES| && RULE_TEMPLATES[k].language == language && f in find(k, statement)
    ensures RuleMatch(k, f.span, f.groups) in YieldsOf(find, statement, language, n)
  {
    if k == n - 1 {
      var found := find(k, statement);
      var i :| 0 <= i < |found| && found[i] == f;
      assert TemplateMatches(k, found)[i] == RuleMatch(k, f.span, f.groups);
      assert RuleMatch(k, f.span, f.groups) in TemplateMatches(k, found);
    } else {
      YieldsComplete(find, statement, language, n - 1, k, f);
    }
  }

  /** The match is the claim, and the claim's slots are in order. */
  ghost predicate Boxes(m: RuleMatch, statement: string, c: Claim) {
    m.template < |RULE_TEMPLATES| && c == RuleClaim(m, statement) && SlotsValid(c.claimType, c.slots)
  }

  ghost predicate Any(ms: seq<RuleMatch>, p: RuleMatch -> bool) {
    exists m :: m in ms && p(m)
  }

  lemma AnyHead(ms: seq<RuleMatch>, p: RuleMatch -> bool)
    requires ms != []
    ensures Any(ms, p) <==> p(ms[0]) || Any(ms[1..], p)
  {
    assert ms == [ms[0]] + ms[1..];
    assert ms[0] in ms;
  }

  lemma MemberOfEither(a: seq<Claim>, b: seq<Claim>, c: Claim)
    ensures c in a + b <==> c in a || c in b
  {
  }

  /** The claims of a selection, member by member. */
  lemma {:induction false} RuleClaimsMembers(selected: seq<RuleMatch>, statement: string, c: Claim)
    requires TemplatesDeclared(selected)
    ensures c in RuleClaims(selected, statement) <==> Any(selected, (m: RuleMatch) => Boxes(m, statement, c))
  {
    if selected != [] {
      RuleClaimsFirst(selected, statement);
      BoxedMembers(selected[0], statement, c);
      RuleClaimsMembers(selected[1..], statement, c);
      AnyHead(selected, (m: RuleMatch) => Boxes(m, statement, c));
      MemberOfEither(Boxed(selected[0], statement), RuleClaims(selected[1..], statement), c);
    }
  }

  lemma BoxedMembers(m: RuleMatch, statement: string, c: Claim)
    requires m.template < |RULE_TEMPLATES|
    ensures c in Boxed(m, statement) <==> Boxes(m, statement, c)
  {
  }
}
