/** The 3.25 % threshold on a national results page, in exact arithmetic. */
module Elections {
  import opened Sorting

  datatype PageRow = PageRow(ballotLetters: string, votes: nat)

  datatype ElectionPage = ElectionPage(totalValidVotes: nat, rows: seq<PageRow>)

  datatype ListResult = ListResult(ballotLetters: string, votes: nat, passedThreshold: bool)

  const THRESHOLD: nat := 325
  const WHOLE: nat := 10000

  /** `math.ceil(total * 0.0325)` */
  function ThresholdVotes(total: nat): nat {
    (total * THRESHOLD + WHOLE - 1) / WHOLE
  }

  /** A row without ballot letters yields nothing. */
  function NormalizeResult(row: PageRow, page: ElectionPage): seq<ListResult> {
    if row.ballotLetters == "" then []
    else [ListResult(row.ballotLetters, row.votes, row.votes >= ThresholdVotes(page.totalValidVotes))]
  }

  function NormalizeRows(rows: seq<PageRow>, page: ElectionPage): seq<ListResult> {
    if rows == [] then [] else NormalizeResult(rows[0], page) + NormalizeRows(rows[1..], page)
  }

  function NormalizePage(page: ElectionPage): seq<ListResult> {
    NormalizeRows(page.rows, page)
  }

  /** Passing means holding at least 3.25 % of the valid votes: nothing is lost to the rounding. */
  lemma PassedMeansShare(row: PageRow, page: ElectionPage)
    requires row.ballotLetters != ""
    ensures NormalizeResult(row, page)[0].passedThreshold <==> WHOLE * row.votes >= THRESHOLD * page.totalValidVotes
  {
  }

  /** The rows that count: those with ballot letters. */
  function Listed(rows: seq<PageRow>): seq<PageRow> {
    Filter(rows, (row: PageRow) => row.ballotLetters != "")
  }

  /** One result for each row with ballot letters, in the order of the page, and none for the others. */
  lemma {:induction false} ResultsAreRows(rows: seq<PageRow>, page: ElectionPage)
    ensures |NormalizeRows(rows, page)| == |Listed(rows)|
    ensures forall i | 0 <= i < |Listed(rows)| ::
              && NormalizeRows(rows, page)[i].ballotLetters == Listed(rows)[i].ballotLetters
              && NormalizeRows(rows, page)[i].votes == Listed(rows)[i].votes
              && (NormalizeRows(rows, page)[i].passedThreshold <==>
                    10_000 * Listed(rows)[i].votes >= 325 * page.totalValidVotes)
  {
    if rows != [] {
      ResultsAreRows(rows[1..], page);
      if rows[0].ballotLetters != "" {
        PassedMeansShare(rows[0], page);
        assert NormalizeRows(rows, page) == NormalizeResult(rows[0], page) + NormalizeRows(rows[1..], page);
        assert Listed(rows) == [rows[0]] + Listed(rows[1..]);
      }
    }
  }

  /** The whole page. */
  lemma PageResults(page: ElectionPage)
    ensures |NormalizePage(page)| == |Listed(page.rows)|
    ensures forall i | 0 <= i < |NormalizePage(page)| ::
              NormalizePage(page)[i].passedThreshold <==> 10_000 * Listed(page.rows)[i].votes >= 325 * page.totalValidVotes
  {
    ResultsAreRows(page.rows, page);
  }

  function VotesOf(rows: seq<PageRow>): nat {
    if rows == [] then 0 else rows[0].votes + VotesOf(rows[1..])
  }

  function PassedCount(results: seq<ListResult>): nat {
    if results == [] then 0 else (if results[0].passedThreshold then 1 else 0) + PassedCount(results[1..])
  }

  lemma OneMore(n: nat, q: nat)
    ensures (n + 1) * q == n * q + q
  {
  }

  lemma ProductMonotone(m: nat, n: nat, q: nat)
    ensures m <= n ==> m * q <= n * q
  {
    if m <= n {
      assert n * q == m * q + (n - m) * q;
    }
  }

  /** `share` is the threshold times the valid votes, in ten-thousandths of a vote. */
  lemma {:induction false} PassedNeedVotes(rows: seq<PageRow>, page: ElectionPage, share: nat)
    requires share == THRESHOLD * page.totalValidVotes
    ensures PassedCount(NormalizeRows(rows, page)) * share <= WHOLE * VotesOf(rows)
  {
    if rows != [] {
      PassedNeedVotes(rows[1..], page, share);
      var rest := NormalizeRows(rows[1..], page);
      if rows[0].ballotLetters == "" {
        assert NormalizeRows(rows, page) == rest;
      } else {
        PassedMeansShare(rows[0], page);
        var head := NormalizeResult(rows[0], page)[0];
        assert NormalizeRows(rows, page) == [head] + rest;
        assert ([head] + rest)[1..] == rest;
        OneMore(PassedCount(rest), share);
      }
    }
  }

  /** If the lists together hold no more than the valid votes, at most thirty of them pass. */
  lemma AtMostThirtyPass(page: ElectionPage)
    requires page.totalValidVotes > 0 && VotesOf(page.rows) <= page.totalValidVotes
    ensures PassedCount(NormalizePage(page)) <= 30
  {
    var share := THRESHOLD * page.totalValidVotes;
    PassedNeedVotes(page.rows, page, share);
    ProductMonotone(31, PassedCount(NormalizePage(page)), share);
  }
}
