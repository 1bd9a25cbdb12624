/** The shared adapter loop: fetch a page, archive it, then parse, normalize and upsert its rows. */
module Adapter {
  import opened Wrappers
  import opened Sorting

  type Row = nat
  type Record = nat

  /** A parsed page: its rows in order, and the raw link to the next page. */
  datatype Page = Page(rows: seq<Row>, nextLink: Option<string>)

  /**
   * The callbacks. `archive` is None when archival is disabled; otherwise it gives the URI of the record
   * it returned, if that record has one.
   */
  datatype Env = Env(fetch: string -> Page, archive: Option<string -> Option<string>>, normalize: Row -> seq<Record>,
                     hasScheme: string -> bool, urlJoin: (string, string) -> string)

  datatype Effect = Fetched(url: string) | Archived(url: string) | Upserted(url: string, record: Record)

  /** A link without a scheme is resolved against the page it came from. */
  function NextUrl(env: Env, url: string): Option<string> {
    match env.fetch(url).nextLink
    case None => None
    case Some(raw) => Some(if !env.hasScheme(raw) then env.urlJoin(url, raw) else raw)
  }

  /** The page limit as the loop applies it: it is tested after a page, so one page is always visited. */
  function Limit(maxPages: int): nat {
    if maxPages < 1 then 1 else maxPages
  }

  /**
   * The pages that following links from the first one visits: up to a page without a link, or at least
   * up to the limit. Links that never end are covered whenever there is a limit.
   */
  ghost predicate IsChain(env: Env, urls: seq<string>, maxPages: Option<int>) {
    && |urls| > 0
    && (forall i :: 0 <= i < |urls| - 1 ==> NextUrl(env, urls[i]) == Some(urls[i + 1]))
    && (NextUrl(env, urls[|urls| - 1]) == None || (maxPages.Some? && |urls| >= Limit(maxPages.value)))
  }

  // ---- What a run does ----

  function Tagged(url: string, records: seq<Record>): seq<Effect> {
    seq(|records|, i requires 0 <= i < |records| => Upserted(url, records[i]))
  }

  function RowEffects(env: Env, url: string, rows: seq<Row>): seq<Effect> {
    if rows == [] then []
    else RowEffects(env, url, rows[..|rows| - 1]) + Tagged(url, env.normalize(rows[|rows| - 1]))
  }

  function Opening(env: Env, url: string): seq<Effect> {
    [Fetched(url)] + if env.archive.Some? then [Archived(url)] else []
  }

  function PageEffects(env: Env, url: string): seq<Effect> {
    Opening(env, url) + RowEffects(env, url, env.fetch(url).rows)
  }

  function Effects(env: Env, urls: seq<string>): seq<Effect> {
    if urls == [] then []
    else Effects(env, urls[..|urls| - 1]) + PageEffects(env, urls[|urls| - 1])
  }

  function RowsIn(env: Env, urls: seq<string>): nat {
    if urls == [] then 0
    else RowsIn(env, urls[..|urls| - 1]) + |env.fetch(urls[|urls| - 1]).rows|
  }

  function ArchiveUriOf(env: Env, url: string): seq<string> {
    if env.archive.None? then []
    else
      var uri := env.archive.value(url);
      if uri.Some? && uri.value != "" then [uri.value] else []
  }

  function ArchiveUris(env: Env, urls: seq<string>): seq<string> {
    if urls == [] then []
    else ArchiveUris(env, urls[..|urls| - 1]) + ArchiveUriOf(env, urls[|urls| - 1])
  }

  lemma EffectsAppend(env: Env, urls: seq<string>, url: string)
    ensures Effects(env, urls + [url]) == Effects(env, urls) + PageEffects(env, url)
    ensures RowsIn(env, urls + [url]) == RowsIn(env, urls) + |env.fetch(url).rows|
    ensures ArchiveUris(env, urls + [url]) == ArchiveUris(env, urls) + ArchiveUriOf(env, url)
  {
    assert (urls + [url])[..|urls|] == urls;
  }

  /** How many pages of a chain are visited. */
  function Visited(chain: nat, maxPages: Option<int>): nat {
    if maxPages.Some? && Limit(maxPages.value) < chain then Limit(maxPages.value) else chain
  }

  /** Records handed to `upsert`, in order. */
  function Upserts(trace: seq<Effect>): seq<Record> {
    if trace == [] then []
    else
      var last := trace[|trace| - 1];
      Upserts(trace[..|trace| - 1]) + if last.Upserted? then [last.record] else []
  }

  lemma {:induction false} UpsertsAppend(a: seq<Effect>, b: seq<Effect>)
    ensures Upserts(a + b) == Upserts(a) + Upserts(b)
  {
    if b == [] {
      assert a + b == a;
    } else {
      assert (a + b)[..|a + b| - 1] == a + b[..|b| - 1];
      UpsertsAppend(a, b[..|b| - 1]);
    }
  }

  /** `url` is where the loop stands after `pages` pages of the chain. */
  ghost predicate UpNext(env: Env, chain: seq<string>, pages: nat, url: Option<string>)
    requires 0 < |chain| && pages <= |chain|
  {
    url == if pages < |chain| then Some(chain[pages]) else NextUrl(env, chain[pages - 1])
  }

  /** A loop that goes on is within the chain, and its next page is the chain's. */
  lemma InsideChain(env: Env, chain: seq<string>, maxPages: Option<int>, pages: nat, url: Option<string>)
    requires IsChain(env, chain, maxPages) && pages <= |chain|
    requires UpNext(env, chain, pages, url) && url.Some?
    requires pages > 0 && maxPages.Some? ==> pages < maxPages.value
    ensures pages < |chain| && url == Some(chain[pages])
    ensures chain[..pages + 1] == chain[..pages] + [url.value]
    ensures UpNext(env, chain, pages + 1, NextUrl(env, url.value))
  {
  }

  lemma LimitReached(length: nat, pages: nat, maxPages: Option<int>)
    requires maxPages.Some? && 0 < pages <= length && pages >= maxPages.value
    requires pages == 1 || pages - 1 < maxPages.value
    ensures Visited(length, maxPages) == pages
  {
  }

  lemma ChainEnded(env: Env, chain: seq<string>, maxPages: Option<int>, pages: nat, url: Option<string>)
    requires 0 < |chain| && pages <= |chain| && UpNext(env, chain, pages, url) && url.None?
    requires pages > 0 && maxPages.Some? ==> pages < maxPages.value
    ensures pages == |chain| == Visited(|chain|, maxPages)
  {
  }

  class AdapterRun {
    /** Every fetch, archive and upsert, in the order in which they were made. */
    var trace: seq<Effect>
    var pages: nat
    var rowsParsed: nat
    var rowsUpserted: nat
    var archiveUris: seq<string>

    constructor ()
      ensures trace == [] && pages == 0 && rowsParsed == 0 && rowsUpserted == 0 && archiveUris == []
    {
      trace, pages, rowsParsed, rowsUpserted, archiveUris := [], 0, 0, 0, [];
    }

    ghost predicate Recorded(env: Env, urls: seq<string>)
      reads this
    {
      && trace == Effects(env, urls) && pages == |urls|
      && rowsParsed == RowsIn(env, urls) && rowsUpserted == |Upserts(trace)|
      && archiveUris == ArchiveUris(env, urls)
    }

    method UpsertRecords(url: string, records: seq<Record>)
      requires rowsUpserted == |Upserts(trace)|
      modifies this`trace, this`rowsUpserted
      ensures trace == old(trace) + Tagged(url, records)
      ensures rowsUpserted == |Upserts(trace)|
    {
      for j := 0 to |records|
        invariant trace == old(trace) + Tagged(url, records)[..j]
        invariant rowsUpserted == |Upserts(trace)|
      {
        UpsertsAppend(trace, [Upserted(url, records[j])]);
        trace := trace + [Upserted(url, records[j])];
        rowsUpserted := rowsUpserted + 1;
      }
      assert Tagged(url, records)[..|records|] == Tagged(url, records);
    }

    method UpsertRows(env: Env, url: string, rows: seq<Row>)
      requires rowsUpserted == |Upserts(trace)|
      modifies this`trace, this`rowsParsed, this`rowsUpserted
      ensures trace == old(trace) + RowEffects(env, url, rows)
      ensures rowsParsed == old(rowsParsed) + |rows|
      ensures rowsUpserted == |Upserts(trace)|
    {
      for i := 0 to |rows|
        invariant trace == old(trace) + RowEffects(env, url, rows[..i])
        invariant rowsParsed == old(rowsParsed) + i
        invariant rowsUpserted == |Upserts(trace)|
      {
        rowsParsed := rowsParsed + 1;
        UpsertRecords(url, env.normalize(rows[i]));
        assert rows[..i + 1][..i] == rows[..i];
      }
      assert rows[..|rows|] == rows;
    }

    method FetchAndArchive(env: Env, url: string)
      requires rowsUpserted == |Upserts(trace)|
      modifies this`trace, this`archiveUris
      ensures trace == old(trace) + Opening(env, url)
      ensures archiveUris == old(archiveUris) + ArchiveUriOf(env, url)
      ensures rowsUpserted == |Upserts(trace)|
    {
      NoUpsertsInOpening(env, url);
      UpsertsAppend(trace, Opening(env, url));
      trace := trace + [Fetched(url)];
      if env.archive.Some? {
        trace := trace + [Archived(url)];
        var uri := env.archive.value(url);
        if uri.Some? && uri.value != "" {
          archiveUris := archiveUris + [uri.value];
        }
      }
      assert trace == old(trace) + Opening(env, url);
    }

    /** One turn of the loop. */
    method VisitPage(env: Env, url: string, ghost before: seq<string>)
      requires Recorded(env, before)
      modifies this
      ensures Recorded(env, before + [url])
    {
      var page := env.fetch(url);
      FetchAndArchive(env, url);
      UpsertRows(env, url, page.rows);
      pages := pages + 1;
      assert trace == Effects(env, before) + PageEffects(env, url) by {
        assert trace == old(trace) + Opening(env, url) + RowEffects(env, url, page.rows);
      }
      EffectsAppend(env, before, url);
    }

    /** `chain` is the chain of pages that starts at `sourceUrl`. */
    method Run(env: Env, sourceUrl: string, maxPages: Option<int>, ghost chain: seq<string>)
      requires Recorded(env, [])
      requires IsChain(env, chain, maxPages) && chain[0] == sourceUrl
      modifies this
      ensures Recorded(env, chain[..Visited(|chain|, maxPages)])
    {
      var url := Some(sourceUrl);
      while url.Some?
        invariant pages <= |chain| && Recorded(env, chain[..pages])
        invariant UpNext(env, chain, pages, url)
        invariant pages > 0 && maxPages.Some? ==> pages < maxPages.value
        decreases |chain| - pages
      {
        ghost var i := pages;
        InsideChain(env, chain, maxPages, i, url);
        VisitPage(env, url.value, chain[..i]);
        if maxPages.Some? && pages >= maxPages.value {
          LimitReached(|chain|, pages, maxPages);
          return;
        }
        url := NextUrl(env, url.value);
      }
      ChainEnded(env, chain, maxPages, pages, url);
    }
  }

  // ---- What the trace guarantees ----

  /** All records of a run, page by page, row by row. */
  function NormalizedRows(env: Env, rows: seq<Row>): seq<Record> {
    if rows == [] then [] else NormalizedRows(env, rows[..|rows| - 1]) + env.normalize(rows[|rows| - 1])
  }

  function NormalizedPages(env: Env, urls: seq<string>): seq<Record> {
    if urls == [] then []
    else NormalizedPages(env, urls[..|urls| - 1]) + NormalizedRows(env, env.fetch(urls[|urls| - 1]).rows)
  }

  lemma {:induction false} UpsertsOfTagged(url: string, records: seq<Record>)
    ensures Upserts(Tagged(url, records)) == records
  {
    if records != [] {
      var k := |records| - 1;
      UpsertsOfTagged(url, records[..k]);
      assert Tagged(url, records)[..k] == Tagged(url, records[..k]);
      assert records == records[..k] + [records[k]];
    }
  }

  lemma {:induction false} UpsertsOfRows(env: Env, url: string, rows: seq<Row>)
    ensures Upserts(RowEffects(env, url, rows)) == NormalizedRows(env, rows)
  {
    if rows != [] {
      var k := |rows| - 1;
      UpsertsOfRows(env, url, rows[..k]);
      UpsertsOfTagged(url, env.normalize(rows[k]));
      UpsertsAppend(RowEffects(env, url, rows[..k]), Tagged(url, env.normalize(rows[k])));
    }
  }

  /** The upserts of a run are the normalized rows of the visited pages, flattened in order. */
  lemma {:induction false} UpsertsAreFlattenedPages(env: Env, urls: seq<string>)
    ensures Upserts(Effects(env, urls)) == NormalizedPages(env, urls)
  {
    if urls != [] {
      var k := |urls| - 1;
      var url := urls[k];
      UpsertsAreFlattenedPages(env, urls[..k]);
      UpsertsOfRows(env, url, env.fetch(url).rows);
      UpsertsAppend(Opening(env, url), RowEffects(env, url, env.fetch(url).rows));
      UpsertsAppend(Effects(env, urls[..k]), PageEffects(env, url));
      NoUpsertsInOpening(env, url);
    }
  }

  lemma NoUpsertsInOpening(env: Env, url: string)
    ensures Upserts(Opening(env, url)) == []
  {
    UpsertsAppend([Fetched(url)], if env.archive.Some? then [Archived(url)] else []);
    assert [Fetched(url)][..0] == [] && [Archived(url)][..0] == [];
  }

  lemma {:induction false} RowEffectsAreUpserts(env: Env, url: string, rows: seq<Row>)
    ensures forall e | e in RowEffects(env, url, rows) :: e.Upserted? && e.url == url
  {
    if rows != [] {
      RowEffectsAreUpserts(env, url, rows[..|rows| - 1]);
    }
  }

  /** The visit to the i-th page makes the effects in this range. */
  function VisitStart(env: Env, urls: seq<string>, i: nat): nat
    requires i <= |urls|
  {
    |Effects(env, urls[..i])|
  }

  lemma {:induction false} VisitOf(env: Env, urls: seq<string>, k: nat) returns (i: nat)
    requires k < |Effects(env, urls)|
    ensures i < |urls| && VisitStart(env, urls, i) <= k < VisitStart(env, urls, i + 1)
  {
    var last := |urls| - 1;
    assert urls[..|urls|] == urls;
    if k < VisitStart(env, urls, last) {
      i := VisitOf(env, urls[..last], k);
      assert urls[..last][..i] == urls[..i] && urls[..last][..i + 1] == urls[..i + 1];
    } else {
      i := last;
    }
  }

  /** What the trace upserts between `from` and `to` comes from that page, which it has archived in between. */
  ghost predicate ArchivesFirst(trace: seq<Effect>, from: nat, to: nat, url: string) {
    && from <= to <= |trace|
    && forall k | from <= k < to && trace[k].Upserted? ::
         trace[k].url == url && exists j :: from <= j < k && trace[j] == Archived(url)
  }

  lemma PageArchivesFirst(env: Env, url: string)
    requires env.archive.Some?
    ensures ArchivesFirst(PageEffects(env, url), 0, |PageEffects(env, url)|, url)
  {
    var effects, rows := PageEffects(env, url), RowEffects(env, url, env.fetch(url).rows);
    RowEffectsAreUpserts(env, url, env.fetch(url).rows);
    assert effects[0] == Fetched(url) && effects[1] == Archived(url);
    forall k | 0 <= k < |effects| && effects[k].Upserted?
      ensures effects[k].url == url && exists j :: 0 <= j < k && effects[j] == Archived(url)
    {
      assert k >= 2 && effects[k] == rows[k - 2] && rows[k - 2] in rows;
    }
  }

  lemma SliceOfPrefix(whole: seq<Effect>, front: seq<Effect>, page: seq<Effect>)
    requires front + page <= whole
    ensures |front| + |page| <= |whole| && whole[|front|..|front| + |page|] == page
  {
    assert whole[..|front + page|] == front + page;
  }

  lemma NextVisit(env: Env, urls: seq<string>, i: nat)
    requires i < |urls|
    ensures Effects(env, urls[..i + 1]) == Effects(env, urls[..i]) + PageEffects(env, urls[i])
  {
    assert urls[..i + 1] == urls[..i] + [urls[i]];
    EffectsAppend(env, urls[..i], urls[i]);
  }

  lemma VisitsArePrefix(env: Env, urls: seq<string>, i: nat)
    requires i <= |urls|
    ensures Effects(env, urls[..i]) <= Effects(env, urls)
  {
    assert urls[..|urls|] == urls;
    PrefixEffects(env, urls, i, |urls|);
  }

  lemma VisitEffects(env: Env, urls: seq<string>, i: nat)
    requires i < |urls|
    ensures VisitStart(env, urls, i + 1) == VisitStart(env, urls, i) + |PageEffects(env, urls[i])| <= |Effects(env, urls)|
    ensures Effects(env, urls)[VisitStart(env, urls, i)..VisitStart(env, urls, i + 1)] == PageEffects(env, urls[i])
  {
    NextVisit(env, urls, i);
    VisitsArePrefix(env, urls, i + 1);
    SliceOfPrefix(Effects(env, urls), Effects(env, urls[..i]), PageEffects(env, urls[i]));
  }

  lemma SliceArchivesFirst(trace: seq<Effect>, start: nat, page: seq<Effect>, url: string)
    requires start + |page| <= |trace| && trace[start..start + |page|] == page
    requires ArchivesFirst(page, 0, |page|, url)
    ensures ArchivesFirst(trace, start, start + |page|, url)
  {
    assert forall k | 0 <= k < |page| :: trace[start + k] == page[k];
    forall k | start <= k < start + |page| && trace[k].Upserted?
      ensures trace[k].url == url && exists j :: start <= j < k && trace[j] == Archived(url)
    {
      assert trace[k] == page[k - start];
      var j :| 0 <= j < k - start && page[j] == Archived(url);
      assert trace[start + j] == Archived(url);
    }
  }

  /**
   * With archival enabled, whatever a visit upserts comes from its own page, which the visit has archived
   * before, also when an earlier visit had archived the same page.
   */
  lemma ArchivedBeforeUpserted(env: Env, urls: seq<string>, i: nat)
    requires env.archive.Some? && i < |urls|
    ensures ArchivesFirst(Effects(env, urls), VisitStart(env, urls, i), VisitStart(env, urls, i + 1), urls[i])
  {
    VisitEffects(env, urls, i);
    PageArchivesFirst(env, urls[i]);
    SliceArchivesFirst(Effects(env, urls), VisitStart(env, urls, i), PageEffects(env, urls[i]), urls[i]);
  }

  /**
   * A smaller page limit only cuts the run short: its effects are the first effects of the run with a
   * larger limit or with none.
   */
  lemma LimitCutsTheRun(env: Env, chain: seq<string>, m: int, n: Option<int>)
    requires n.Some? ==> m <= n.value
    ensures Visited(|chain|, Some(m)) <= Visited(|chain|, n) <= |chain|
    ensures Effects(env, chain[..Visited(|chain|, Some(m))]) <= Effects(env, chain[..Visited(|chain|, n)])
  {
    PrefixEffects(env, chain, Visited(|chain|, Some(m)), Visited(|chain|, n));
  }

  lemma {:induction false} PrefixEffects(env: Env, urls: seq<string>, m: nat, n: nat)
    requires m <= n <= |urls|
    ensures Effects(env, urls[..m]) <= Effects(env, urls[..n])
  {
    if m < n {
      PrefixEffects(env, urls, m, n - 1);
      assert urls[..n][..n - 1] == urls[..n - 1];
    }
  }

  // ---- The visits spelled out ----

  /** A page's link leads to `next`; it is joined to the page's own address if it has no scheme. */
  predicate Leads(env: Env, url: string, next: string) {
    && env.fetch(url).nextLink.Some?
    && var link := env.fetch(url).nextLink.value;
       next == if env.hasScheme(link) then link else env.urlJoin(url, link)
  }

  lemma LinkLeads(env: Env, url: string, next: string)
    ensures NextUrl(env, url) == Some(next) <==> Leads(env, url, next)
    ensures NextUrl(env, url) == None <==> env.fetch(url).nextLink == None
  {
  }

  /** A chain in terms of the pages alone: each follows from the one before, up to a page without a link, or to the limit. */
  lemma ChainMeaning(env: Env, urls: seq<string>, maxPages: Option<int>)
    ensures IsChain(env, urls, maxPages) <==>
              && |urls| > 0
              && (forall i | 0 <= i < |urls| - 1 :: Leads(env, urls[i], urls[i + 1]))
              && (env.fetch(urls[|urls| - 1]).nextLink == None || (maxPages.Some? && |urls| >= maxPages.value))
  {
    forall i | 0 <= i < |urls| - 1 ensures NextUrl(env, urls[i]) == Some(urls[i + 1]) <==> Leads(env, urls[i], urls[i + 1]) {
      LinkLeads(env, urls[i], urls[i + 1]);
    }
    if |urls| > 0 {
      LinkLeads(env, urls[|urls| - 1], "");
    }
  }

  /** Without a limit all pages are visited; with one, at least the first and no more than it says. */
  lemma VisitedMeaning(chain: nat, maxPages: Option<int>)
    requires chain > 0
    ensures maxPages.None? ==> Visited(chain, maxPages) == chain
    ensures maxPages.Some? && maxPages.value >= chain ==> Visited(chain, maxPages) == chain
    ensures maxPages.Some? && 1 <= maxPages.value <= chain ==> Visited(chain, maxPages) == maxPages.value
    ensures maxPages.Some? && maxPages.value <= 1 ==> Visited(chain, maxPages) == 1
  {
  }

  /** The addresses that a trace fetches, and those it archives. */
  function Fetches(trace: seq<Effect>): seq<string> {
    if trace == [] then []
    else
      var last := trace[|trace| - 1];
      Fetches(trace[..|trace| - 1]) + if last.Fetched? then [last.url] else []
  }

  function Archives(trace: seq<Effect>): seq<string> {
    if trace == [] then []
    else
      var last := trace[|trace| - 1];
      Archives(trace[..|trace| - 1]) + if last.Archived? then [last.url] else []
  }

  lemma {:induction false} ProjectionsAppend(a: seq<Effect>, b: seq<Effect>)
    ensures Fetches(a + b) == Fetches(a) + Fetches(b)
    ensures Archives(a + b) == Archives(a) + Archives(b)
  {
    if b == [] {
      assert a + b == a;
    } else {
      assert (a + b)[..|a + b| - 1] == a + b[..|b| - 1];
      ProjectionsAppend(a, b[..|b| - 1]);
    }
  }

  lemma {:induction false} UpsertsProjectToNothing(trace: seq<Effect>)
    requires forall e | e in trace :: e.Upserted?
    ensures Fetches(trace) == [] && Archives(trace) == []
  {
    if trace != [] {
      assert trace[|trace| - 1] in trace;
      assert forall e | e in trace[..|trace| - 1] :: e in trace;
      UpsertsProjectToNothing(trace[..|trace| - 1]);
    }
  }

  lemma PageProjections(env: Env, url: string)
    ensures Fetches(PageEffects(env, url)) == [url]
    ensures Archives(PageEffects(env, url)) == if env.archive.Some? then [url] else []
  {
    RowEffectsAreUpserts(env, url, env.fetch(url).rows);
    UpsertsProjectToNothing(RowEffects(env, url, env.fetch(url).rows));
    ProjectionsAppend(Opening(env, url), RowEffects(env, url, env.fetch(url).rows));
    OpeningProjections(env, url);
  }

  lemma OpeningProjections(env: Env, url: string)
    ensures Fetches(Opening(env, url)) == [url]
    ensures Archives(Opening(env, url)) == if env.archive.Some? then [url] else []
  {
    ProjectionsAppend([Fetched(url)], if env.archive.Some? then [Archived(url)] else []);
    assert [Fetched(url)][..0] == [] && [Archived(url)][..0] == [];
  }

  lemma FetchesJoin(a: seq<Effect>, b: seq<Effect>, urls: seq<string>, url: string)
    requires Fetches(a) == urls && Fetches(b) == [url]
    ensures Fetches(a + b) == urls + [url]
  {
    ProjectionsAppend(a, b);
  }

  lemma ArchivesJoin(a: seq<Effect>, b: seq<Effect>, urls: seq<string>, more: seq<string>)
    requires Archives(a) == urls && Archives(b) == more
    ensures Archives(a + b) == urls + more
  {
    ProjectionsAppend(a, b);
  }

  lemma NextFetches(env: Env, front: seq<string>, url: string)
    requires Fetches(Effects(env, front)) == front
    ensures Fetches(Effects(env, front + [url])) == front + [url]
  {
    EffectsAppend(env, front, url);
    PageProjections(env, url);
    FetchesJoin(Effects(env, front), PageEffects(env, url), front, url);
  }

  /** A run fetches every visited page once, in order. */
  lemma {:induction false} EveryVisitFetches(env: Env, urls: seq<string>)
    ensures Fetches(Effects(env, urls)) == urls
  {
    if urls != [] {
      var k := |urls| - 1;
      assert urls == urls[..k] + [urls[k]];
      EveryVisitFetches(env, urls[..k]);
      NextFetches(env, urls[..k], urls[k]);
    }
  }

  function Enabled(env: Env, urls: seq<string>): seq<string> {
    if env.archive.Some? then urls else []
  }

  lemma NextArchives(env: Env, front: seq<string>, url: string)
    requires Archives(Effects(env, front)) == Enabled(env, front)
    ensures Archives(Effects(env, front + [url])) == Enabled(env, front + [url])
  {
    EffectsAppend(env, front, url);
    PageProjections(env, url);
    ArchivesJoin(Effects(env, front), PageEffects(env, url), Enabled(env, front), Enabled(env, [url]));
  }

  /** It archives exactly those pages, in order, if archival is enabled, and nothing otherwise. */
  lemma {:induction false} EveryVisitArchives(env: Env, urls: seq<string>)
    ensures Archives(Effects(env, urls)) == Enabled(env, urls)
  {
    if urls != [] {
      var k := |urls| - 1;
      assert urls == urls[..k] + [urls[k]];
      EveryVisitArchives(env, urls[..k]);
      NextArchives(env, urls[..k], urls[k]);
    }
  }

  /** What the archive answers about a page, the empty string for no URI. */
  function Answer(env: Env, url: string): string {
    if env.archive.Some? && env.archive.value(url).Some? then env.archive.value(url).value else ""
  }

  function Answers(env: Env, urls: seq<string>): seq<string> {
    seq(|urls|, i requires 0 <= i < |urls| => Answer(env, urls[i]))
  }

  function NonEmpty(uris: seq<string>): seq<string> {
    Filter(uris, (u: string) => u != "")
  }

  lemma AnswersAppend(env: Env, front: seq<string>, url: string)
    ensures NonEmpty(Answers(env, front + [url])) == NonEmpty(Answers(env, front)) + ArchiveUriOf(env, url)
  {
    assert Answers(env, front + [url]) == Answers(env, front) + [Answer(env, url)];
    FilterAppend(Answers(env, front), Answer(env, url), (u: string) => u != "");
  }

  lemma NextUris(env: Env, front: seq<string>, url: string)
    requires ArchiveUris(env, front) == NonEmpty(Answers(env, front))
    ensures ArchiveUris(env, front + [url]) == NonEmpty(Answers(env, front + [url]))
  {
    EffectsAppend(env, front, url);
    AnswersAppend(env, front, url);
  }

  /** The URIs a run records are the archive's answers for the visited pages, in order and without the empty ones. */
  lemma {:induction false} RecordedUris(env: Env, urls: seq<string>)
    ensures ArchiveUris(env, urls) == NonEmpty(Answers(env, urls))
  {
    if urls != [] {
      var k := |urls| - 1;
      assert urls == urls[..k] + [urls[k]];
      RecordedUris(env, urls[..k]);
      NextUris(env, urls[..k], urls[k]);
    }
  }
}
