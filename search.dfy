/**
 The search entry points: coercion of the paging parameters, the
 deduplication of result idents in both search modes, and the empty-query
 branch of `contacts`.

 The index searches themselves (query parsing, ranking by date, paging,
 grouping and masks) are not part of this model: each is a function
 parameter that returns the hits it would return.
 */
module Search {
  import opened Wrappers
  import opened Sequences
  import opened Query

  const DefaultWindow: int := 25

  /**
   `int(page) if page is not None and int(page) > 1 else 1`: a page number
   of at least 1 is kept, anything else becomes page 1.
   */
  function CoercePage(page: Option<int>): (r: int)
    ensures r >= 1
    ensures page.Some? && page.value >= 1 ==> r == page.value
    ensures page.None? || page.value < 1 ==> r == 1
  {
    if page.Some? && page.value > 1 then page.value else 1
  }

  /**
   `int(window) if window is not None else 25`: only a missing window is
   replaced; a given one is passed on as it is, even when it is not
   positive.
   */
  function CoerceWindow(window: Option<int>): (r: int)
    ensures window.None? ==> r == DefaultWindow
    ensures window.Some? ==> r == window.value
  {
    if window.Some? then window.value else DefaultWindow
  }

  /**
   `_search_all_mails`: the idents of all hits, in the order the date-sorted
   search returns them, each kept once.
   */
  function SearchAllMails(hits: seq<string>): (r: seq<string>)
    ensures NoDuplicates(r)
    ensures forall i :: 0 <= i < |hits| ==> hits[i] in r
    ensures forall i :: 0 <= i < |r| ==> r[i] in hits
    ensures InFirstOccurrenceOrder(r, hits)
  {
    UniqueSpec(hits);
    UniqueKeepsFirstOccurrenceOrder(hits);
    Unique(hits)
  }

  /** What one `search_page` call returns: the page's hits and its tag group counts. */
  datatype Page = Page(idents: seq<string>, groupCounts: seq<nat>)

  datatype PageResult = PageResult(idents: seq<string>, total: nat)

  /**
   `_paginated_search_mails`: asks `searchPage` for page `CoercePage(page)`
   of length `CoerceWindow(window)` and returns the page's idents without
   duplicates, in first-occurrence order, with the sum of its group counts.
   */
  function PaginatedSearch(page: Option<int>, window: Option<int>, searchPage: (int, int) -> Page): (r: PageResult)
    ensures var p := searchPage(CoercePage(page), CoerceWindow(window));
            && NoDuplicates(r.idents)
            && (forall i :: 0 <= i < |p.idents| ==> p.idents[i] in r.idents)
            && (forall i :: 0 <= i < |r.idents| ==> r.idents[i] in p.idents)
            && InFirstOccurrenceOrder(r.idents, p.idents)
            && r.total == Sum(p.groupCounts)
  {
    var p := searchPage(CoercePage(page), CoerceWindow(window));
    UniqueSpec(p.idents);
    UniqueKeepsFirstOccurrenceOrder(p.idents);
    PageResult(Unique(p.idents), Sum(p.groupCounts))
  }

  datatype SearchResult = AllMails(idents: seq<string>) | Paginated(page: PageResult)

  /**
   `search`: rewrites the query text, then runs it in the chosen mode;
   `searchAll` and `searchPage` stand for the two index searches of the
   rewritten query.
   */
  function SearchMails(query: string, window: Option<int>, page: Option<int>, allMails: bool,
                       searchAll: string -> seq<string>, searchPage: (string, int, int) -> Page): (r: SearchResult)
    ensures allMails <==> r.AllMails?
    ensures r.AllMails? ==>
              var hits := searchAll(PrepareQueryText(query));
              && NoDuplicates(r.idents)
              && (forall i :: 0 <= i < |hits| ==> hits[i] in r.idents)
              && (forall i :: 0 <= i < |r.idents| ==> r.idents[i] in hits)
              && InFirstOccurrenceOrder(r.idents, hits)
    ensures r.Paginated? ==>
              var p := searchPage(PrepareQueryText(query), CoercePage(page), CoerceWindow(window));
              && NoDuplicates(r.page.idents)
              && (forall i :: 0 <= i < |p.idents| ==> p.idents[i] in r.page.idents)
              && (forall i :: 0 <= i < |r.page.idents| ==> r.page.idents[i] in p.idents)
              && InFirstOccurrenceOrder(r.page.idents, p.idents)
              && r.page.total == Sum(p.groupCounts)
  {
    var prepared := PrepareQueryText(query);
    if allMails then AllMails(SearchAllMails(searchAll(prepared)))
    else Paginated(PaginatedSearch(page, window, (p, w) => searchPage(prepared, p, w)))
  }

  /**
   `contacts`: an empty query (or None) yields no contacts without any
   search; otherwise `lookup` stands for the three masked, grouped searches
   over `to`, `cc` and `bcc` and their flattening.
   */
  function Contacts(query: string, lookup: string -> seq<string>): (r: seq<string>)
    ensures query == "" ==> r == []
    ensures query != "" ==> r == lookup(query)
  {
    if query != "" then lookup(query) else []
  }
}
