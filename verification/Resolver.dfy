/** Deterministic entity resolution: a ladder of look-ups, then a margin rule on fuzzy scores. */
module Resolver {
  import opened Wrappers
  import opened Sorting

  type EntityId = nat

  datatype Rung = ExternalId | HebrewExact | AliasHebrew | AliasEnglish | Transliteration | Fuzzy

  datatype Candidate = Candidate(id: EntityId, rung: Rung, score: real)

  datatype Status = Resolved | Ambiguous | Unresolved

  datatype Resolution = Resolution(status: Status, entity: Option<EntityId>, candidates: seq<Candidate>)

  const RESOLVE_THRESHOLD: real := 88.0
  const MARGIN: real := 7.0
  const FLOOR: real := 60.0
  const TOP: nat := 5
  const SCAN_LIMIT: nat := 500

  /** What the caller supplied: which identifiers, and which connections. */
  datatype Request = Request(externalIds: bool, hebrew: bool, english: bool, graph: bool, postgres: bool)

  /**
   * A graph node with its similarity to the names asked for, 0 where a name is missing; it may lack an id.
   */
  datatype Node = Node(id: Option<EntityId>, hebrew: real, canonical: real, english: real, partialHebrew: real)

  function Max(a: real, b: real): real {
    if a >= b then a else b
  }

  /** A partial match counts with 92 %, cut to an integer. */
  function Best(n: Node): real {
    Max(Max(Max(n.hebrew, n.canonical), n.english), (n.partialHebrew * 0.92).Floor as real)
  }

  /**
   * What each look-up would return. `hebrewRows` holds at most two rows, as the query is limited to two;
   * `nodes` are all nodes of the label in the order of the scan.
   */
  datatype Answers = Answers(external: Option<EntityId>, hebrewRows: seq<EntityId>,
                             aliasHebrew: seq<(EntityId, int)>, aliasEnglish: seq<(EntityId, int)>,
                             transliterated: seq<(EntityId, int)>, nodes: seq<Node>)

  predicate HigherScore(a: Candidate, b: Candidate) {
    a.score >= b.score
  }

  /** An alias counts with its curated confidence, a transliteration with ten less, but not below zero. */
  function AliasScore(rung: Rung, confidence: int): int {
    if rung == Transliteration then (if confidence > 10 then confidence - 10 else 0) else confidence
  }

  function AliasCandidates(hits: seq<(EntityId, int)>, rung: Rung): (cs: seq<Candidate>)
    ensures |cs| == |hits| && forall c | c in cs :: c.rung == rung
  {
    seq(|hits|, i requires 0 <= i < |hits| => Candidate(hits[i].0, rung, AliasScore(rung, hits[i].1) as real))
  }

  /** The query reads so many nodes and no more. */
  function Scanned(nodes: seq<Node>): seq<Node> {
    if |nodes| > SCAN_LIMIT then nodes[..SCAN_LIMIT] else nodes
  }

  function Scored(nodes: seq<Node>): (cs: seq<Candidate>)
    ensures forall c | c in cs :: c.rung == Fuzzy && c.score >= FLOOR
  {
    if nodes == [] then []
    else
      var last := nodes[|nodes| - 1];
      var front := Scored(nodes[..|nodes| - 1]);
      if last.id.None? || Best(last) < FLOOR then front else front + [Candidate(last.id.value, Fuzzy, Best(last))]
  }

  /** The `k` best scored candidates. */
  function Cut(scored: seq<Candidate>, k: nat): seq<Candidate> {
    var sorted := Sort(scored, HigherScore);
    if k < |sorted| then sorted[..k] else sorted
  }

  /** The candidates of the first rung that yields any. */
  function LadderCandidates(q: Request, a: Answers): seq<Candidate> {
    if q.externalIds && q.graph && a.external.Some? then [Candidate(a.external.value, ExternalId, 100.0)]
    else if q.hebrew && q.graph && |a.hebrewRows| == 1 then [Candidate(a.hebrewRows[0], HebrewExact, 95.0)]
    else if q.hebrew && q.postgres && a.aliasHebrew != [] then AliasCandidates(a.aliasHebrew, AliasHebrew)
    else if q.english && q.postgres && a.aliasEnglish != [] then AliasCandidates(a.aliasEnglish, AliasEnglish)
    else if q.hebrew && q.postgres && a.transliterated != [] then AliasCandidates(a.transliterated, Transliteration)
    else if q.graph && (q.hebrew || q.english) then Cut(Scored(Scanned(a.nodes)), TOP)
    else []
  }

  predicate OneEntity(cs: seq<Candidate>) {
    cs != [] && forall c | c in cs :: c.id == cs[0].id
  }

  function MarginWinner(fuzzy: seq<Candidate>): Option<EntityId> {
    if fuzzy == [] then None
    else
      var sorted := Sort(fuzzy, HigherScore);
      SortMembers(fuzzy, HigherScore);
      var second := if |sorted| > 1 then sorted[1].score else 0.0;
      if sorted[0].score >= RESOLVE_THRESHOLD && sorted[0].score - second >= MARGIN then Some(sorted[0].id) else None
  }

  function FuzzyOnly(cs: seq<Candidate>): seq<Candidate> {
    Filter(cs, (c: Candidate) => c.rung == Fuzzy)
  }

  /** `pick` is what the tiebreaker answered; no tiebreaker and no answer have the same effect. */
  function Decide(cs: seq<Candidate>, pick: Option<EntityId>): Resolution {
    if cs == [] then Resolution(Unresolved, None, [])
    else if OneEntity(cs) then Resolution(Resolved, Some(cs[0].id), cs)
    else if MarginWinner(FuzzyOnly(cs)).Some? then Resolution(Resolved, MarginWinner(FuzzyOnly(cs)), cs)
    else if pick.Some? && exists c | c in cs :: c.id == pick.value then Resolution(Resolved, pick, cs)
    else Resolution(Ambiguous, None, cs)
  }

  /** The review table that ambiguous candidates are written to. */
  class CandidateTable {
    var rows: seq<Candidate>

    constructor ()
      ensures rows == []
    {
      rows := [];
    }

    method Write(candidates: seq<Candidate>)
      modifies this
      ensures rows == old(rows) + candidates
    {
      for i := 0 to |candidates|
        invariant rows == old(rows) + candidates[..i]
      {
        rows := rows + [candidates[i]];
      }
    }
  }

  method LookupFuzzy(all: seq<Node>) returns (best: seq<Candidate>)
    ensures best == Cut(Scored(Scanned(all)), TOP)
  {
    var nodes := Scanned(all);
    var scored: seq<Candidate> := [];
    for i := 0 to |nodes|
      invariant scored == Scored(nodes[..i])
    {
      assert nodes[..i + 1][..i] == nodes[..i];
      if nodes[i].id.None? {
        continue;
      }
      var best := Best(nodes[i]);
      if best < FLOOR {
        continue;
      }
      scored := scored + [Candidate(nodes[i].id.value, Fuzzy, best)];
    }
    assert nodes[..|nodes|] == nodes;
    scored := Sort(scored, HigherScore);
    best := if |scored| > TOP then scored[..TOP] else scored;
  }

  method Collect(q: Request, a: Answers) returns (candidates: seq<Candidate>)
    ensures candidates == LadderCandidates(q, a)
  {
    candidates := [];
    if q.externalIds && q.graph && a.external.Some? {
      candidates := [Candidate(a.external.value, ExternalId, 100.0)];
    }
    if candidates == [] && q.hebrew && q.graph && |a.hebrewRows| == 1 {
      candidates := [Candidate(a.hebrewRows[0], HebrewExact, 95.0)];
    }
    if candidates == [] && q.hebrew && q.postgres {
      candidates := AliasCandidates(a.aliasHebrew, AliasHebrew);
    }
    if candidates == [] && q.english && q.postgres {
      candidates := AliasCandidates(a.aliasEnglish, AliasEnglish);
    }
    if candidates == [] && q.hebrew && q.postgres {
      candidates := AliasCandidates(a.transliterated, Transliteration);
    }
    if candidates == [] && q.graph && (q.hebrew || q.english) {
      candidates := LookupFuzzy(a.nodes);
    }
  }

  method Resolve(q: Request, a: Answers, pick: Option<EntityId>, record: bool, table: CandidateTable)
    returns (r: Resolution)
    modifies table
    ensures r == Decide(LadderCandidates(q, a), pick)
    ensures table.rows == old(table.rows) + if r.status == Ambiguous && record && q.postgres then r.candidates else []
  {
    var candidates := Collect(q, a);
    r := Decide(candidates, pick);
    if r.status == Ambiguous && record && q.postgres {
      table.Write(r.candidates);
    }
  }

  // ---- The ladder ----

  lemma LadderIsOneRung(q: Request, a: Answers)
    ensures forall c, d | c in LadderCandidates(q, a) && d in LadderCandidates(q, a) :: c.rung == d.rung
  {
    SortMembers(Scored(Scanned(a.nodes)), HigherScore);
  }

  lemma MarginWinnerIsMember(fuzzy: seq<Candidate>)
    ensures MarginWinner(fuzzy).Some? ==> exists c :: c in fuzzy && c.id == MarginWinner(fuzzy).value
  {
    if fuzzy != [] {
      var sorted := Sort(fuzzy, HigherScore);
      SortMembers(fuzzy, HigherScore);
      assert sorted[0] in sorted;
    }
  }

  /** All candidates of a result come from one rung, and a resolved entity is one of them. */
  lemma OneRungAndNoInvention(q: Request, a: Answers, pick: Option<EntityId>)
    ensures var r := Decide(LadderCandidates(q, a), pick);
            && (forall c, d | c in r.candidates && d in r.candidates :: c.rung == d.rung)
            && (r.status == Resolved <==> r.entity.Some?)
            && (r.entity.Some? ==> exists c :: c in r.candidates && c.id == r.entity.value)
  {
    LadderIsOneRung(q, a);
    DecisionIsMember(LadderCandidates(q, a), pick);
  }

  lemma DecisionIsMember(cs: seq<Candidate>, pick: Option<EntityId>)
    ensures var r := Decide(cs, pick);
            && r.candidates == cs
            && (r.status == Resolved <==> r.entity.Some?)
            && (r.entity.Some? ==> exists c :: c in cs && c.id == r.entity.value)
  {
    MarginWinnerIsMember(FuzzyOnly(cs));
    if cs != [] {
      assert cs[0] in cs;
    }
  }

  // ---- The rungs one by one ----

  ghost predicate From(rung: Rung, cs: seq<Candidate>) {
    exists c :: c in cs && c.rung == rung
  }

  /** One of the first 500 nodes has an id and resembles a name by 60 or more, partially by 92 % of that. */
  ghost predicate SomeSimilar(nodes: seq<Node>) {
    exists i :: 0 <= i < |nodes| && i < 500 && nodes[i].id.Some?
                && (nodes[i].hebrew >= 60.0 || nodes[i].canonical >= 60.0 || nodes[i].english >= 60.0
                    || nodes[i].partialHebrew * 0.92 >= 60.0)
  }

  lemma SimilarEnough(n: Node)
    ensures Best(n) >= 60.0 <==>
              n.hebrew >= 60.0 || n.canonical >= 60.0 || n.english >= 60.0 || n.partialHebrew * 0.92 >= 60.0
    ensures Best(n) in {n.hebrew, n.canonical, n.english, (n.partialHebrew * 0.92).Floor as real}
    ensures Best(n) >= n.hebrew && Best(n) >= n.canonical && Best(n) >= n.english
    ensures Best(n) >= (n.partialHebrew * 0.92).Floor as real
  {
  }

  lemma {:induction false} ScoredMembers(nodes: seq<Node>, c: Candidate)
    ensures c in Scored(nodes) <==>
              exists i :: 0 <= i < |nodes| && nodes[i].id == Some(c.id) && c == Candidate(c.id, Fuzzy, Best(nodes[i])) && Best(nodes[i]) >= 60.0
  {
    if nodes != [] {
      var k := |nodes| - 1;
      ScoredMembers(nodes[..k], c);
      assert c in Scored(nodes) <==> c in Scored(nodes[..k]) || c in ScoredNode(nodes[k]);
      if i :| 0 <= i < |nodes| && nodes[i].id == Some(c.id) && c == Candidate(c.id, Fuzzy, Best(nodes[i])) && Best(nodes[i]) >= 60.0 {
        assert i < k ==> nodes[..k][i] == nodes[i];
      }
    }
  }

  /** A cut keeps so many of the candidates, in descending order, and leaves out only what scores no more. */
  lemma CutMeaning(scored: seq<Candidate>, k: nat)
    ensures |Cut(scored, k)| == if k < |scored| then k else |scored|
    ensures forall i, j :: 0 <= i < j < |Cut(scored, k)| ==> Cut(scored, k)[i].score >= Cut(scored, k)[j].score
    ensures forall c, d | c in Cut(scored, k) && d in scored && d !in Cut(scored, k) :: c.score >= d.score
  {
    var sorted, cut := Sort(scored, HigherScore), Cut(scored, k);
    HigherScoreIsTotalPreorder();
    SortSorted(scored, HigherScore);
    SortMembers(scored, HigherScore);
    assert cut == sorted[..|cut|];
    FrontOfSorted(sorted, |cut|, HigherScore);
    assert forall i, j :: 0 <= i < j < |sorted| ==> HigherScore(sorted[i], sorted[j]);
  }

  lemma CutEmpty(scored: seq<Candidate>, k: nat)
    requires k > 0
    ensures Cut(scored, k) == [] <==> scored == []
    ensures forall c | c in Cut(scored, k) :: c in scored
  {
    SortMembers(scored, HigherScore);
    assert forall c | c in Cut(scored, k) :: c in Sort(scored, HigherScore);
  }

  lemma FuzzyRung(nodes: seq<Node>)
    ensures From(Fuzzy, Cut(Scored(Scanned(nodes)), TOP)) <==> SomeSimilar(nodes)
    ensures forall c | c in Cut(Scored(Scanned(nodes)), TOP) ::
              exists i :: 0 <= i < |nodes| && i < 500 && nodes[i].id == Some(c.id) && c == Candidate(c.id, Fuzzy, Best(nodes[i]))
  {
    var scanned := Scanned(nodes);
    CutEmpty(Scored(scanned), TOP);
    forall c | c in Scored(scanned)
      ensures exists i :: 0 <= i < |nodes| && i < 500 && nodes[i].id == Some(c.id) && c == Candidate(c.id, Fuzzy, Best(nodes[i]))
      ensures SomeSimilar(nodes)
    {
      ScoredMembers(scanned, c);
      var i :| 0 <= i < |scanned| && scanned[i].id == Some(c.id) && c == Candidate(c.id, Fuzzy, Best(scanned[i])) && Best(scanned[i]) >= 60.0;
      assert nodes[i] == scanned[i];
      SimilarEnough(nodes[i]);
    }
    if SomeSimilar(nodes) {
      var i :| 0 <= i < |nodes| && i < 500 && nodes[i].id.Some?
               && (nodes[i].hebrew >= 60.0 || nodes[i].canonical >= 60.0 || nodes[i].english >= 60.0
                   || nodes[i].partialHebrew * 0.92 >= 60.0);
      SimilarEnough(nodes[i]);
      assert scanned[i] == nodes[i];
      ScoredMembers(scanned, Candidate(nodes[i].id.value, Fuzzy, Best(nodes[i])));
    }
    var cut := Cut(Scored(scanned), TOP);
    if cut != [] {
      assert cut[0] in cut;
    }
  }

  lemma RungsOfAliases(hits: seq<(EntityId, int)>, rung: Rung, other: Rung)
    ensures From(other, AliasCandidates(hits, rung)) <==> hits != [] && other == rung
  {
    var cs := AliasCandidates(hits, rung);
    if hits != [] {
      assert cs[0] in cs;
    }
  }

  lemma RungOfOne(c: Candidate, other: Rung)
    ensures From(other, [c]) <==> other == c.rung
  {
    assert c in [c];
  }

  /** From which rung candidates come: exactly from the first whose look-up can be made and answers. */
  lemma RungGuards(q: Request, a: Answers, pick: Option<EntityId>)
    ensures var cs := Decide(LadderCandidates(q, a), pick).candidates;
            var external := q.externalIds && q.graph && a.external.Some?;
            var hebrew := q.hebrew && q.graph && |a.hebrewRows| == 1;
            var aliasHe := q.hebrew && q.postgres && |a.aliasHebrew| > 0;
            var aliasEn := q.english && q.postgres && |a.aliasEnglish| > 0;
            var translit := q.hebrew && q.postgres && |a.transliterated| > 0;
            var fuzzy := q.graph && (q.hebrew || q.english) && SomeSimilar(a.nodes);
            && (From(ExternalId, cs) <==> external)
            && (From(HebrewExact, cs) <==> !external && hebrew)
            && (From(AliasHebrew, cs) <==> !external && !hebrew && aliasHe)
            && (From(AliasEnglish, cs) <==> !external && !hebrew && !aliasHe && aliasEn)
            && (From(Transliteration, cs) <==> !external && !hebrew && !aliasHe && !aliasEn && translit)
            && (From(Fuzzy, cs) <==> !external && !hebrew && !aliasHe && !aliasEn && !translit && fuzzy)
  {
    DecisionIsMember(LadderCandidates(q, a), pick);
    forall other: Rung
      ensures a.external.Some? ==>
                (From(other, [Candidate(a.external.value, ExternalId, 100.0)]) <==> other == ExternalId)
      ensures |a.hebrewRows| == 1 ==>
                (From(other, [Candidate(a.hebrewRows[0], HebrewExact, 95.0)]) <==> other == HebrewExact)
      ensures From(other, AliasCandidates(a.aliasHebrew, AliasHebrew)) <==> a.aliasHebrew != [] && other == AliasHebrew
      ensures From(other, AliasCandidates(a.aliasEnglish, AliasEnglish)) <==> a.aliasEnglish != [] && other == AliasEnglish
      ensures From(other, AliasCandidates(a.transliterated, Transliteration)) <==> a.transliterated != [] && other == Transliteration
      ensures From(other, Cut(Scored(Scanned(a.nodes)), TOP)) ==> other == Fuzzy
    {
      if a.external.Some? {
        RungOfOne(Candidate(a.external.value, ExternalId, 100.0), other);
      }
      if |a.hebrewRows| == 1 {
        RungOfOne(Candidate(a.hebrewRows[0], HebrewExact, 95.0), other);
      }
      RungsOfAliases(a.aliasHebrew, AliasHebrew, other);
      RungsOfAliases(a.aliasEnglish, AliasEnglish, other);
      RungsOfAliases(a.transliterated, Transliteration, other);
      CutEmpty(Scored(Scanned(a.nodes)), TOP);
    }
    FuzzyRung(a.nodes);
  }

  /** What the candidates of each rung are: the entities it answers, with the scores of the rung. */
  lemma RungContents(q: Request, a: Answers, pick: Option<EntityId>)
    ensures var cs := Decide(LadderCandidates(q, a), pick).candidates;
            && (From(ExternalId, cs) ==> a.external.Some? && cs == [Candidate(a.external.value, ExternalId, 100.0)])
            && (From(HebrewExact, cs) ==> |a.hebrewRows| == 1 && cs == [Candidate(a.hebrewRows[0], HebrewExact, 95.0)])
            && (From(AliasHebrew, cs) ==> |cs| == |a.aliasHebrew| && forall i | 0 <= i < |cs| ::
                  cs[i] == Candidate(a.aliasHebrew[i].0, AliasHebrew, a.aliasHebrew[i].1 as real))
            && (From(AliasEnglish, cs) ==> |cs| == |a.aliasEnglish| && forall i | 0 <= i < |cs| ::
                  cs[i] == Candidate(a.aliasEnglish[i].0, AliasEnglish, a.aliasEnglish[i].1 as real))
            && (From(Transliteration, cs) ==> |cs| == |a.transliterated| && forall i | 0 <= i < |cs| ::
                  cs[i].id == a.transliterated[i].0
                  && cs[i].score == if a.transliterated[i].1 > 10 then (a.transliterated[i].1 - 10) as real else 0.0)
            && (From(Fuzzy, cs) ==> forall c | c in cs ::
                  exists i :: 0 <= i < |a.nodes| && i < 500 && a.nodes[i].id == Some(c.id)
                              && c == Candidate(c.id, Fuzzy, Best(a.nodes[i])))
  {
    RungGuards(q, a, pick);
    DecisionIsMember(LadderCandidates(q, a), pick);
    FuzzyRung(a.nodes);
  }

  /** A Hebrew name that no node or several nodes carry gives no exact match. */
  lemma SharedNameIsNotExact(q: Request, a: Answers, pick: Option<EntityId>)
    requires |a.hebrewRows| != 1
    ensures forall c | c in Decide(LadderCandidates(q, a), pick).candidates :: c.rung != HebrewExact
  {
    RungGuards(q, a, pick);
    var cs := Decide(LadderCandidates(q, a), pick).candidates;
    forall c | c in cs ensures c.rung != HebrewExact {
      assert From(c.rung, cs);
    }
  }

  /**
   * Two nodes of one name are not told apart by it: with nothing but the graph to go by, two different
   * entities that both match as well as can be leave the result ambiguous.
   */
  lemma NamesakesStayAmbiguous(q: Request, a: Answers, i: nat, j: nat)
    requires q.hebrew && q.graph && !q.postgres && |a.hebrewRows| != 1 && (q.externalIds ==> a.external.None?)
    requires i < j < |a.nodes| && j < 500 && a.nodes[i].id.Some? && a.nodes[j].id.Some?
    requires DistinctIds(Scored(Scanned(a.nodes)))
    requires a.nodes[i].hebrew == 100.0 == a.nodes[j].hebrew && forall n | n in a.nodes :: Best(n) <= 100.0
    requires a.nodes[i].id != a.nodes[j].id
    ensures Decide(LadderCandidates(q, a), None).status == Ambiguous
  {
    var scored := Scored(Scanned(a.nodes));
    assert LadderCandidates(q, a) == Cut(scored, TOP);
    var c, d := Candidate(a.nodes[i].id.value, Fuzzy, 100.0), Candidate(a.nodes[j].id.value, Fuzzy, 100.0);
    FullMatchScored(a.nodes, i);
    FullMatchScored(a.nodes, j);
    FuzzyDecision(scored, TOP);
    TwoDifferentMembers(scored, c, d);
    forall x | x in scored ensures x.score <= 100.0 {
      ScoredMembers(Scanned(a.nodes), x);
    }
    NobodyDominatesBoth(scored, c, d);
  }

  lemma NobodyDominatesBoth(cs: seq<Candidate>, c: Candidate, d: Candidate)
    requires c in cs && d in cs && c.id != d.id && c.score == d.score
    requires forall x | x in cs :: x.score <= c.score
    ensures forall winner :: !Dominates(winner, cs)
  {
    forall winner | winner in cs
      ensures exists rival :: rival in cs && rival.id != winner.id && winner.score - rival.score < MARGIN
    {
      var rival := if winner.id == c.id then d else c;
      assert rival in cs;
    }
  }

  lemma FullMatchScored(nodes: seq<Node>, i: nat)
    requires i < |nodes| && i < 500 && nodes[i].id.Some? && nodes[i].hebrew == 100.0 && Best(nodes[i]) <= 100.0
    ensures Candidate(nodes[i].id.value, Fuzzy, 100.0) in Scored(Scanned(nodes))
  {
    SimilarEnough(nodes[i]);
    assert Scanned(nodes)[i] == nodes[i];
    ScoredMembers(Scanned(nodes), Candidate(nodes[i].id.value, Fuzzy, 100.0));
  }

  lemma TwoDifferentMembers(cs: seq<Candidate>, c: Candidate, d: Candidate)
    requires c in cs && d in cs && c != d
    ensures |cs| >= 2
  {
  }

  /** A tiebreaker is heard only about an ambiguous result, and only if it picks one of the candidates. */
  lemma TiebreakerMeaning(cs: seq<Candidate>, pick: Option<EntityId>)
    ensures var alone, r := Decide(cs, None), Decide(cs, pick);
            r == if alone.status == Ambiguous && pick.Some? && exists c :: c in cs && c.id == pick.value
                 then Resolution(Resolved, pick, cs)
                 else alone
    ensures Decide(cs, pick).status == Unresolved <==> cs == []
    ensures cs != [] && (forall c, d | c in cs && d in cs :: c.id == d.id) ==>
              Decide(cs, pick).status == Resolved && forall c | c in cs :: Decide(cs, pick).entity == Some(c.id)
  {
    if cs != [] {
      assert cs[0] in cs;
    }
  }

  /** Several entities behind one alias are never told apart by their confidence: without a pick the result is ambiguous. */
  lemma AliasesAreNotRanked(q: Request, a: Answers)
    requires var cs := LadderCandidates(q, a); exists c, d :: c in cs && d in cs && c.id != d.id && c.rung != Fuzzy
    ensures Decide(LadderCandidates(q, a), None).status == Ambiguous
  {
    LadderIsOneRung(q, a);
    var cs := LadderCandidates(q, a);
    var c, d :| c in cs && d in cs && c.id != d.id && c.rung != Fuzzy;
    assert !OneEntity(cs);
    NoFuzzy(cs);
  }

  lemma {:induction false} NoFuzzy(cs: seq<Candidate>)
    requires forall c | c in cs :: c.rung != Fuzzy
    ensures FuzzyOnly(cs) == []
  {
    if |cs| > 0 {
      assert cs[0] in cs;
      NoFuzzy(cs[1..]);
    }
  }

  // ---- The margin rule ----

  ghost predicate DistinctIds(cs: seq<Candidate>) {
    forall i, j :: 0 <= i < j < |cs| ==> cs[i].id != cs[j].id
  }

  /** `c` reaches the threshold and beats every other candidate by the margin. */
  ghost predicate Dominates(c: Candidate, cs: seq<Candidate>) {
    && c in cs && c.score >= RESOLVE_THRESHOLD
    && forall d | d in cs && d.id != c.id :: c.score - d.score >= MARGIN
  }

  /** The decision said without sorting, cutting or scan order. */
  ghost predicate IsFairDecision(r: Resolution, cs: seq<Candidate>) {
    if |cs| == 0 then r.status == Unresolved && r.entity == None
    else if |cs| == 1 then r.status == Resolved && r.entity == Some(cs[0].id)
    else
      && (r.status == Resolved || r.status == Ambiguous)
      && (r.status == Resolved <==> exists c :: Dominates(c, cs))
      && (forall c | Dominates(c, cs) :: r.entity == Some(c.id))
      && (r.status == Ambiguous ==> r.entity == None)
  }

  lemma {:induction false} SortOfSorted(cs: seq<Candidate>)
    requires Sorted(cs, HigherScore)
    ensures Sort(cs, HigherScore) == cs
  {
    if |cs| > 0 {
      SortOfSorted(cs[1..]);
      assert cs == [cs[0]] + cs[1..];
    }
  }

  lemma {:induction false} AllFuzzy(cs: seq<Candidate>)
    requires forall c | c in cs :: c.rung == Fuzzy
    ensures FuzzyOnly(cs) == cs
  {
    if |cs| > 0 {
      assert cs[0] in cs;
      assert forall c | c in cs[1..] :: c in cs;
      AllFuzzy(cs[1..]);
      assert cs == [cs[0]] + cs[1..];
    }
  }

  lemma CountOfDistinct(cs: seq<Candidate>, c: Candidate)
    requires DistinctIds(cs) && c in cs
    ensures multiset(cs)[c] == 1
  {
    var k :| 0 <= k < |cs| && cs[k] == c;
    var before, after := cs[..k], cs[k + 1..];
    assert cs == before + [c] + after;
    assert c !in before && c !in after;
    assert multiset(before)[c] == 0 && multiset(after)[c] == 0;
  }

  /** The two best of a sorted list with distinct ids are different entities. */
  lemma TopTwoDiffer(cs: seq<Candidate>, sorted: seq<Candidate>)
    requires DistinctIds(cs) && multiset(sorted) == multiset(cs) && |sorted| >= 2
    ensures sorted[0].id != sorted[1].id
  {
    assert sorted[0] in multiset(cs) && sorted[1] in multiset(cs);
    var i :| 0 <= i < |cs| && cs[i] == sorted[0];
    var j :| 0 <= j < |cs| && cs[j] == sorted[1];
    CountOfDistinct(cs, sorted[0]);
    if sorted[0] == sorted[1] {
      RepeatedElement(sorted, 0, 1);
    }
  }

  /** With a top-two margin the first of the sorted list dominates, and nothing else can. */
  lemma MarginMeansDominance(cs: seq<Candidate>, sorted: seq<Candidate>)
    requires DistinctIds(cs) && |cs| >= 2
    requires Sorted(sorted, HigherScore) && multiset(sorted) == multiset(cs) && |sorted| == |cs|
    ensures sorted[0].score >= RESOLVE_THRESHOLD && sorted[0].score - sorted[1].score >= MARGIN <==>
              Dominates(sorted[0], cs)
    ensures forall c | Dominates(c, cs) :: c == sorted[0]
  {
    TopTwoDiffer(cs, sorted);
    SameMultisetSameElements(sorted, cs);
    SameMultisetSameElements(cs, sorted);
    assert sorted[0] in sorted && sorted[1] in sorted;
    forall d | d in cs && d.id != sorted[0].id ensures d.score <= sorted[1].score {
      var k :| 0 <= k < |sorted| && sorted[k] == d;
      assert k >= 1;
    }
    forall c | Dominates(c, cs) ensures c == sorted[0] {
      assert sorted[0].score >= c.score by {
        var k :| 0 <= k < |sorted| && sorted[k] == c;
      }
    }
  }

  /** A sorted list of two or more fuzzy entities is decided by its first two scores. */
  lemma DecideSorted(cut: seq<Candidate>)
    requires |cut| >= 2 && Sorted(cut, HigherScore) && cut[0].id != cut[1].id
    requires forall c | c in cut :: c.rung == Fuzzy
    ensures Decide(cut, None) ==
              if cut[0].score >= RESOLVE_THRESHOLD && cut[0].score - cut[1].score >= MARGIN
              then Resolution(Resolved, Some(cut[0].id), cut)
              else Resolution(Ambiguous, None, cut)
  {
    AllFuzzy(cut);
    SortOfSorted(cut);
    assert cut[1] in cut && !OneEntity(cut);
  }

  lemma HigherScoreIsTotalPreorder()
    ensures TotalPreorder(HigherScore)
  {
  }

  lemma CutKeepsTopTwo(scored: seq<Candidate>, k: nat)
    requires k >= 2 && |scored| >= 2
    ensures var sorted, cut := Sort(scored, HigherScore), Cut(scored, k);
            && Sorted(sorted, HigherScore) && |sorted| == |scored|
            && |cut| >= 2 && Sorted(cut, HigherScore) && cut[0] == sorted[0] && cut[1] == sorted[1]
            && forall c | c in cut :: c in scored
  {
    HigherScoreIsTotalPreorder();
    SortSorted(scored, HigherScore);
    SortMembers(scored, HigherScore);
    assert forall c | c in Cut(scored, k) :: c in Sort(scored, HigherScore);
  }

  predicate Wins(top: Candidate, second: Candidate) {
    top.score >= RESOLVE_THRESHOLD && top.score - second.score >= MARGIN
  }

  /** `top` and `second` are the two best of `cs`, as far as the margin rule is concerned. */
  ghost predicate DecidedBy(top: Candidate, second: Candidate, cs: seq<Candidate>) {
    && (Wins(top, second) <==> Dominates(top, cs))
    && (forall c | Dominates(c, cs) :: c == top)
  }

  lemma TopTwoDecide(cs: seq<Candidate>)
    requires DistinctIds(cs) && |cs| >= 2
    ensures |Sort(cs, HigherScore)| == |cs|
    ensures DecidedBy(Sort(cs, HigherScore)[0], Sort(cs, HigherScore)[1], cs)
  {
    HigherScoreIsTotalPreorder();
    SortSorted(cs, HigherScore);
    SortMembers(cs, HigherScore);
    MarginMeansDominance(cs, Sort(cs, HigherScore));
  }

  lemma FuzzyDecisionAmongMany(scored: seq<Candidate>, k: nat)
    requires k >= 2 && |scored| >= 2 && DistinctIds(scored) && forall c | c in scored :: c.rung == Fuzzy
    ensures IsFairDecision(Decide(Cut(scored, k), None), scored)
  {
    CutKeepsTopTwo(scored, k);
    TopTwoDiffer(scored, Sort(scored, HigherScore));
    TopTwoDecide(scored);
    var cut := Cut(scored, k);
    DecideSorted(cut);
    FairByMargin(Decide(cut, None), scored, cut[0], cut[1]);
  }

  lemma FairByMargin(r: Resolution, cs: seq<Candidate>, top: Candidate, second: Candidate)
    requires |cs| >= 2 && DecidedBy(top, second, cs)
    requires r.status == (if Wins(top, second) then Resolved else Ambiguous)
    requires r.entity == (if Wins(top, second) then Some(top.id) else None)
    ensures IsFairDecision(r, cs)
  {
  }

  /**
   * For fuzzy candidates with distinct ids and no tiebreaker the decision depends neither on the scan
   * order nor on how many of the best (two or more) are kept: the cut to five loses nothing.
   */
  lemma FuzzyDecision(scored: seq<Candidate>, k: nat)
    requires k >= 2 && DistinctIds(scored) && forall c | c in scored :: c.rung == Fuzzy
    ensures IsFairDecision(Decide(Cut(scored, k), None), scored)
  {
    if |scored| >= 2 {
      FuzzyDecisionAmongMany(scored, k);
    } else if |scored| == 1 {
      assert scored == [scored[0]];
      SortOfSorted(scored);
    }
  }

  lemma FairDecisionsAgree(r1: Resolution, cs1: seq<Candidate>, r2: Resolution, cs2: seq<Candidate>)
    requires IsFairDecision(r1, cs1) && IsFairDecision(r2, cs2) && multiset(cs1) == multiset(cs2)
    ensures r1.status == r2.status && r1.entity == r2.entity
  {
    SameMultisetSameElements(cs1, cs2);
    SameMultisetSameElements(cs2, cs1);
    if |cs1| == 1 {
      assert cs1[0] in cs2;
    }
    forall c ensures Dominates(c, cs1) <==> Dominates(c, cs2) {}
  }

  /** Status and entity are the same for every scan order and every cut to at least two. */
  lemma ScanOrderAndCutDoNotMatter(scored1: seq<Candidate>, k1: nat, scored2: seq<Candidate>, k2: nat)
    requires multiset(scored1) == multiset(scored2) && k1 >= 2 && k2 >= 2
    requires DistinctIds(scored1) && DistinctIds(scored2) && forall c | c in scored1 :: c.rung == Fuzzy
    ensures Decide(Cut(scored1, k1), None).status == Decide(Cut(scored2, k2), None).status
    ensures Decide(Cut(scored1, k1), None).entity == Decide(Cut(scored2, k2), None).entity
  {
    SameMultisetSameElements(scored2, scored1);
    FuzzyDecision(scored1, k1);
    FuzzyDecision(scored2, k2);
    FairDecisionsAgree(Decide(Cut(scored1, k1), None), scored1, Decide(Cut(scored2, k2), None), scored2);
  }

  // ---- From the scan to the decision ----

  function ScoredNode(n: Node): seq<Candidate> {
    if n.id.None? || Best(n) < FLOOR then [] else [Candidate(n.id.value, Fuzzy, Best(n))]
  }

  lemma {:induction false} ScoredHead(n: Node, nodes: seq<Node>)
    ensures Scored([n] + nodes) == ScoredNode(n) + Scored(nodes)
  {
    if nodes == [] {
      assert [n] + nodes == [n] && [n][..0] == [];
    } else {
      assert ([n] + nodes)[..|nodes|] == [n] + nodes[..|nodes| - 1];
      ScoredHead(n, nodes[..|nodes| - 1]);
    }
  }

  lemma {:induction false} ScoredWithout(n: Node, nodes: seq<Node>)
    requires n in nodes
    ensures multiset(Scored(nodes)) == multiset(Scored(Without(n, nodes))) + multiset(ScoredNode(n))
  {
    assert nodes == [nodes[0]] + nodes[1..];
    ScoredHead(nodes[0], nodes[1..]);
    if nodes[0] != n {
      ScoredWithout(n, nodes[1..]);
      ScoredHead(nodes[0], Without(n, nodes[1..]));
    }
  }

  lemma SameLength(xs: seq<Node>, ys: seq<Node>)
    requires multiset(xs) == multiset(ys)
    ensures |xs| == |ys|
  {
    assert |multiset(xs)| == |multiset(ys)|;
  }

  lemma ScoredFirst(nodes: seq<Node>)
    requires nodes != []
    ensures multiset(Scored(nodes)) == multiset(ScoredNode(nodes[0])) + multiset(Scored(nodes[1..]))
  {
    assert nodes == [nodes[0]] + nodes[1..];
    ScoredHead(nodes[0], nodes[1..]);
  }

  lemma {:induction false} ScoredMultiset(nodes1: seq<Node>, nodes2: seq<Node>)
    requires multiset(nodes1) == multiset(nodes2)
    ensures multiset(Scored(nodes1)) == multiset(Scored(nodes2))
  {
    SameLength(nodes1, nodes2);
    if |nodes1| > 0 {
      SubMultisetTail(nodes1, nodes2);
      ScoredMultiset(nodes1[1..], Without(nodes1[0], nodes2));
      ScoredWithout(nodes1[0], nodes2);
      ScoredFirst(nodes1);
    }
  }

  ghost predicate SameOutcome(q: Request, a: Answers, b: Answers) {
    var r1, r2 := Decide(LadderCandidates(q, a), None), Decide(LadderCandidates(q, b), None);
    r1.status == r2.status && r1.entity == r2.entity
  }

  /** Two scans of the same nodes, whose ids are distinct as far as they score at all. */
  ghost predicate Rescanned(a: Answers, b: Answers) {
    && b == a.(nodes := b.nodes) && multiset(a.nodes) == multiset(b.nodes)
    && DistinctIds(Scored(a.nodes)) && DistinctIds(Scored(b.nodes))
  }

  lemma RescannedCandidates(q: Request, a: Answers, b: Answers)
    requires Rescanned(a, b) && |a.nodes| <= SCAN_LIMIT
    ensures || LadderCandidates(q, a) == LadderCandidates(q, b)
            || (LadderCandidates(q, a) == Cut(Scored(a.nodes), TOP) && LadderCandidates(q, b) == Cut(Scored(b.nodes), TOP))
  {
    SameLength(a.nodes, b.nodes);
  }

  /** With no tiebreaker the outcome of a resolution does not depend on the order of a scan that reads every node. */
  lemma ResolutionIgnoresScanOrder(q: Request, a: Answers, b: Answers)
    requires Rescanned(a, b) && |a.nodes| <= SCAN_LIMIT
    ensures SameOutcome(q, a, b)
  {
    RescannedCandidates(q, a, b);
    if LadderCandidates(q, a) != LadderCandidates(q, b) {
      ScoredMultiset(a.nodes, b.nodes);
      ScanOrderAndCutDoNotMatter(Scored(a.nodes), TOP, Scored(b.nodes), TOP);
    }
  }

  const PERFECT := Node(Some(0), 0.0, 100.0, 0.0, 0.0)

  /** `k` other nodes that resemble nothing. */
  function Strangers(k: nat): seq<Node> {
    seq(k, (i: nat) => Node(Some(i + 1), 0.0, 0.0, 0.0, 0.0))
  }

  lemma {:induction false} StrangersScoreNothing(k: nat)
    ensures Scored(Strangers(k)) == []
  {
    if k > 0 {
      StrangersScoreNothing(k - 1);
      assert Strangers(k)[..k - 1] == Strangers(k - 1);
    }
  }

  const WINNER := Candidate(0, Fuzzy, 100.0)

  lemma {:induction false} PerfectScored(k: nat)
    ensures Scored([PERFECT] + Strangers(k)) == [WINNER] == Scored(Strangers(k) + [PERFECT])
  {
    assert ScoredNode(PERFECT) == [WINNER];
    StrangersScoreNothing(k);
    ScoredHead(PERFECT, Strangers(k));
    assert (Strangers(k) + [PERFECT])[..k] == Strangers(k);
  }

  lemma PerfectScanned(k: nat)
    requires k >= SCAN_LIMIT
    ensures Scored(Scanned([PERFECT] + Strangers(k))) == [WINNER]
    ensures Scored(Scanned(Strangers(k) + [PERFECT])) == []
  {
    PerfectScored(SCAN_LIMIT - 1);
    StrangersScoreNothing(SCAN_LIMIT);
    assert Scanned([PERFECT] + Strangers(k)) == [PERFECT] + Strangers(SCAN_LIMIT - 1);
    assert Scanned(Strangers(k) + [PERFECT]) == Strangers(SCAN_LIMIT);
  }

  /** A label of `k + 1` nodes, whose perfect match the scan meets first, or last. */
  function MetFirst(k: nat): (a: Answers)
    ensures |a.nodes| == k + 1
  {
    Answers(None, [], [], [], [], [PERFECT] + Strangers(k))
  }

  function MetLast(k: nat): Answers {
    Answers(None, [], [], [], [], Strangers(k) + [PERFECT])
  }

  const ENGLISH_ONLY := Request(false, false, true, true, false)

  lemma PerfectFirst(k: nat)
    requires k >= SCAN_LIMIT
    ensures LadderCandidates(ENGLISH_ONLY, MetFirst(k)) == [WINNER]
  {
    PerfectScanned(k);
    SortOfSorted([WINNER]);
  }

  lemma PerfectLast(k: nat)
    requires k >= SCAN_LIMIT
    ensures LadderCandidates(ENGLISH_ONLY, MetLast(k)) == []
  {
    PerfectScanned(k);
  }

  lemma PerfectRescanned(k: nat)
    ensures Rescanned(MetFirst(k), MetLast(k))
  {
    PerfectScored(k);
  }

  lemma LoneWinnerOrNothing(q: Request, a: Answers, b: Answers)
    requires LadderCandidates(q, a) == [WINNER] && LadderCandidates(q, b) == []
    ensures !SameOutcome(q, a, b)
  {
    assert OneEntity([WINNER]);
  }

  lemma PerfectOutcomes(k: nat)
    requires k >= SCAN_LIMIT
    ensures !SameOutcome(ENGLISH_ONLY, MetFirst(k), MetLast(k))
  {
    PerfectFirst(k);
    PerfectLast(k);
    LoneWinnerOrNothing(ENGLISH_ONLY, MetFirst(k), MetLast(k));
  }

  /** With more nodes than the query reads, a perfect match resolves or not depending on where the scan meets it. */
  lemma LimitLosesMatch(k: nat)
    requires k >= SCAN_LIMIT
    ensures |MetFirst(k).nodes| == k + 1 && Rescanned(MetFirst(k), MetLast(k))
    ensures !SameOutcome(ENGLISH_ONLY, MetFirst(k), MetLast(k))
  {
    PerfectRescanned(k);
    PerfectOutcomes(k);
  }

  /** The outcome is independent of the scan order for labels of n nodes if and only if the query reads all n. */
  lemma ScanOrderMattersBeyondLimit(n: nat)
    ensures (forall q, a, b | Rescanned(a, b) && |a.nodes| == n :: SameOutcome(q, a, b)) <==> n <= SCAN_LIMIT
  {
    if n <= SCAN_LIMIT {
      forall q, a, b | Rescanned(a, b) && |a.nodes| == n ensures SameOutcome(q, a, b) {
        ResolutionIgnoresScanOrder(q, a, b);
      }
    } else {
      LimitLosesMatch(n - 1);
    }
  }
}
