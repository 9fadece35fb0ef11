/**
 The pagination driver `parse_quotes` (app/parse.py:29-49).

 The network is replaced by an oracle: the site is a map from URL to the parsed
 page served there, and a URL that is not a key is one whose request raises.
 Pages are numbered from 1; page k is requested at PageUrl(k).
 */
module Pagination {
  import opened Wrappers
  import opened Quotes
  import opened Urls

  /** The parsed page each URL serves; a request for any other URL raises. */
  type Site = map<string, Page>

  /** `get_current_page`: the page at `url`, or the fetch error. */
  function GetCurrentPage(site: Site, url: string): (r: Result<Page, Error>)
    ensures r.Success? <==> url in site
    ensures r.Success? ==> r.value == site[url]
    ensures r.Failure? ==> r.error == FetchFailed(url)
  {
    if url in site then Success(site[url]) else Failure(FetchFailed(url))
  }

  /** Fetching page k and extracting its quotes. */
  function Extracted(site: Site, k: nat): Result<seq<Quote>, Error>
    requires 1 <= k
  {
    match GetCurrentPage(site, PageUrl(k))
    case Failure(e) => Failure(e)
    case Success(page) => ParseQuotesFromPage(page)
  }

  /** Page k is fetched and extracted without error and has a "next" link, so the driver goes on to page k + 1. */
  predicate Continues(site: Site, k: nat)
    requires 1 <= k
  {
    PageUrl(k) in site && Extracted(site, k).Success? && site[PageUrl(k)].HasNext()
  }

  /**
   The number of the page at which a walk started at page k stops: the first page
   from k on that fails or has no "next" link. `bound` is a page at which every
   walk stops; it only witnesses that the site has finitely many linked pages.
   */
  function LastPage(site: Site, k: nat, ghost bound: nat): (n: nat)
    requires 1 <= k <= bound && !Continues(site, bound)
    ensures k <= n <= bound
    ensures !Continues(site, n)
    ensures forall j :: k <= j < n ==> Continues(site, j)
    decreases bound - k
  {
    if Continues(site, k) then LastPage(site, k + 1, bound) else k
  }

  /** The first page that does not continue is where the walk from page 1 stops, whatever the bound. */
  lemma LastPageIs(site: Site, bound: nat, n: nat)
    requires 1 <= bound && !Continues(site, bound)
    requires 1 <= n && !Continues(site, n)
    requires forall j :: 1 <= j < n ==> Continues(site, j)
    ensures LastPage(site, 1, bound) == n
  {
  }

  /** Pages that continue were extracted without error. */
  lemma ContinuingPagesExtract(site: Site, n: nat)
    requires forall j :: 1 <= j < n ==> Continues(site, j)
    requires 1 <= n ==> Extracted(site, n).Success?
    ensures forall j :: 1 <= j <= n ==> Extracted(site, j).Success?
  {
    forall j | 1 <= j <= n
      ensures Extracted(site, j).Success?
    {
      if j < n {
        assert Continues(site, j);
      }
    }
  }

  /** The quotes of pages 1..n, page after page, each page's in document order. */
  function QuotesThrough(site: Site, n: nat): seq<Quote>
    requires forall j :: 1 <= j <= n ==> Extracted(site, j).Success?
  {
    if n == 0 then [] else QuotesThrough(site, n - 1) + Extracted(site, n).value
  }

  /** The number of `.quote` blocks on pages 1..n. */
  function BlocksThrough(site: Site, n: nat): nat
    requires forall j :: 1 <= j <= n ==> PageUrl(j) in site
  {
    if n == 0 then 0 else BlocksThrough(site, n - 1) + |site[PageUrl(n)].blocks|
  }

  /**
   What `parse_quotes` returns, stated without its loop: the walk from page 1 stops
   at page n = LastPage; if page n fails, the run fails with page n's error and no
   partial result; otherwise it returns the quotes of pages 1..n.
   */
  function Crawl(site: Site, ghost bound: nat): (r: Result<seq<Quote>, Error>)
    requires 1 <= bound && !Continues(site, bound)
    ensures r.Failure? <==> Extracted(site, LastPage(site, 1, bound)).Failure?
    ensures r.Failure? ==> r.error == Extracted(site, LastPage(site, 1, bound)).error
    ensures r.Success? ==> !site[PageUrl(LastPage(site, 1, bound))].HasNext()
  {
    var n := LastPage(site, 1, bound);
    match Extracted(site, n)
    case Failure(e) => Failure(e)
    case Success(_) =>
      ContinuingPagesExtract(site, n);
      Success(QuotesThrough(site, n))
  }

  /** Earlier pages' quotes come first: the quotes of pages 1..m are a prefix of those of pages 1..n. */
  lemma {:induction false} QuotesThroughPrefix(site: Site, m: nat, n: nat)
    requires m <= n
    requires forall j :: 1 <= j <= n ==> Extracted(site, j).Success?
    ensures |QuotesThrough(site, m)| <= |QuotesThrough(site, n)|
    ensures QuotesThrough(site, n)[..|QuotesThrough(site, m)|] == QuotesThrough(site, m)
    decreases n
  {
    var prefix := QuotesThrough(site, m);
    if m < n {
      QuotesThroughPrefix(site, m, n - 1);
      var earlier := QuotesThrough(site, n - 1);
      var page := Extracted(site, n).value;
      assert QuotesThrough(site, n) == earlier + page;
      assert (earlier + page)[..|prefix|] == earlier[..|prefix|];
    } else {
      assert QuotesThrough(site, n)[..|prefix|] == prefix;
    }
  }

  /** Nothing is dropped or merged: pages 1..n give exactly one quote per `.quote` block. */
  lemma {:induction false} QuotesThroughLength(site: Site, n: nat)
    requires forall j :: 1 <= j <= n ==> Extracted(site, j).Success?
    ensures forall j :: 1 <= j <= n ==> PageUrl(j) in site
    ensures |QuotesThrough(site, n)| == BlocksThrough(site, n)
  {
    assert forall j :: 1 <= j <= n ==> PageUrl(j) in site by {
      forall j | 1 <= j <= n ensures PageUrl(j) in site {
        assert Extracted(site, j).Success?;
      }
    }
    if n > 0 {
      QuotesThroughLength(site, n - 1);
      assert Extracted(site, n) == ParseQuotesFromPage(site[PageUrl(n)]);
    }
  }

  /** The quote of block i of page j sits right after the quotes of pages 1..j-1. */
  lemma {:induction false} QuotesThroughAt(site: Site, n: nat, j: nat, i: nat)
    requires forall k :: 1 <= k <= n ==> Extracted(site, k).Success?
    requires 1 <= j <= n
    ensures forall k :: 1 <= k <= n ==> PageUrl(k) in site
    ensures i < |site[PageUrl(j)].blocks| ==>
              BlocksThrough(site, j - 1) + i < |QuotesThrough(site, n)| &&
              GetQuote(site[PageUrl(j)].blocks[i]) == Success(QuotesThrough(site, n)[BlocksThrough(site, j - 1) + i])
    decreases n
  {
    QuotesThroughLength(site, n);
    if i < |site[PageUrl(j)].blocks| {
      QuotesThroughLength(site, j);
      QuotesThroughLength(site, j - 1);
      QuotesThroughPrefix(site, j, n);
      var page := site[PageUrl(j)];
      assert Extracted(site, j) == ParseBlocks(page.blocks);
      var prefix := QuotesThrough(site, j);
      assert prefix == QuotesThrough(site, j - 1) + Extracted(site, j).value;
      assert prefix[BlocksThrough(site, j - 1) + i] == Extracted(site, j).value[i];
    }
  }

  /** When pages 1..n-1 continue and page n is extracted and has no "next" link, the run returns the quotes of pages 1..n. */
  lemma CrawlSucceedsThrough(site: Site, bound: nat, n: nat)
    requires 1 <= bound && !Continues(site, bound)
    requires 1 <= n && forall j :: 1 <= j < n ==> Continues(site, j)
    requires Extracted(site, n).Success? && !site[PageUrl(n)].HasNext()
    ensures forall j :: 1 <= j <= n ==> Extracted(site, j).Success?
    ensures Crawl(site, bound) == Success(QuotesThrough(site, n))
  {
    ContinuingPagesExtract(site, n);
    LastPageIs(site, bound, n);
  }

  /** When pages 1..n-1 continue and page n fails to fetch or to extract, the whole run fails with that error. */
  lemma CrawlFailsAt(site: Site, bound: nat, n: nat)
    requires 1 <= bound && !Continues(site, bound)
    requires 1 <= n && forall j :: 1 <= j < n ==> Continues(site, j)
    requires Extracted(site, n).Failure?
    ensures Crawl(site, bound) == Failure(Extracted(site, n).error)
  {
    LastPageIs(site, bound, n);
  }

  /** A single-page site: the run returns exactly that page's extraction, one quote per block. */
  lemma CrawlSinglePage(site: Site, bound: nat)
    requires 1 <= bound && !Continues(site, bound)
    requires BaseUrl in site && !site[BaseUrl].HasNext()
    ensures Crawl(site, bound) == ParseQuotesFromPage(site[BaseUrl])
  {
    LastPageIs(site, bound, 1);
    assert PageUrl(1) == BaseUrl;
    assert Extracted(site, 1) == ParseQuotesFromPage(site[BaseUrl]);
    if Extracted(site, 1).Success? {
      assert QuotesThrough(site, 1) == [] + Extracted(site, 1).value;
      assert [] + Extracted(site, 1).value == Extracted(site, 1).value;
    }
  }

  /** Two sites that serve the same blocks and the same presence of "next" links at the same URLs, whatever the hrefs. */
  predicate SameButHrefs(s1: Site, s2: Site) {
    s1.Keys == s2.Keys &&
    forall u :: u in s1 ==> s1[u].blocks == s2[u].blocks && s1[u].HasNext() == s2[u].HasNext()
  }

  /** Where the counter leads is all that matters: the href of the "next" link never changes the run. */
  lemma HrefIrrelevant(s1: Site, s2: Site, bound: nat)
    requires SameButHrefs(s1, s2)
    requires 1 <= bound && !Continues(s1, bound) && !Continues(s2, bound)
    ensures LastPage(s1, 1, bound) == LastPage(s2, 1, bound)
    ensures Crawl(s1, bound) == Crawl(s2, bound)
  {
    forall k | 1 <= k
      ensures Extracted(s1, k) == Extracted(s2, k) && Continues(s1, k) == Continues(s2, k)
    {
      assert PageUrl(k) in s1 <==> PageUrl(k) in s2;
    }
    var n := LastPage(s1, 1, bound);
    LastPageIs(s2, bound, n);
    if Extracted(s1, n).Success? {
      ContinuingPagesExtract(s1, n);
      SameQuotesThrough(s1, s2, n);
    }
  }

  lemma {:induction false} SameQuotesThrough(s1: Site, s2: Site, n: nat)
    requires forall k :: 1 <= k ==> Extracted(s1, k) == Extracted(s2, k)
    requires forall j :: 1 <= j <= n ==> Extracted(s1, j).Success?
    ensures forall j :: 1 <= j <= n ==> Extracted(s2, j).Success?
    ensures QuotesThrough(s1, n) == QuotesThrough(s2, n)
  {
    assert forall j :: 1 <= j <= n ==> Extracted(s2, j).Success? by {
      forall j | 1 <= j <= n ensures Extracted(s2, j).Success? {
        assert Extracted(s1, j) == Extracted(s2, j);
      }
    }
    if n > 0 {
      SameQuotesThrough(s1, s2, n - 1);
      assert Extracted(s1, n) == Extracted(s2, n);
    }
  }

  /** The set of URLs of pages 1..n. */
  ghost function UrlsThrough(n: nat): set<string> {
    if n == 0 then {} else UrlsThrough(n - 1) + {PageUrl(n)}
  }

  /** Pages 1..n have n distinct URLs. */
  lemma {:induction false} UrlsThroughSize(n: nat)
    ensures forall u :: u in UrlsThrough(n) ==> PageNumber(u).Some? && PageNumber(u).value <= n
    ensures |UrlsThrough(n)| == n
  {
    if n > 0 {
      UrlsThroughSize(n - 1);
      PageUrlRoundTrip(n);
      assert PageUrl(n) !in UrlsThrough(n - 1);
    }
  }

  lemma {:induction false} UrlsThroughInSite(site: Site, n: nat)
    requires forall k :: 1 <= k <= n ==> PageUrl(k) in site
    ensures UrlsThrough(n) <= site.Keys
  {
    if n > 0 {
      UrlsThroughInSite(site, n - 1);
    }
  }

  /** A site serves at most as many successive pages as it has URLs. */
  lemma PagesPresentBounded(site: Site, n: nat)
    requires forall k :: 1 <= k <= n ==> PageUrl(k) in site
    ensures n <= |site|
  {
    UrlsThroughInSite(site, n);
    UrlsThroughSize(n);
    var pages := UrlsThrough(n);
    var rest := site.Keys - pages;
    assert site.Keys == rest + pages && rest * pages == {};
    assert |site.Keys| == |rest| + |pages|;
  }

  /** Every site has a page at which every walk stops: a site is finite, and no two pages share a URL. */
  lemma SiteStops(site: Site) returns (bound: nat)
    ensures 1 <= bound <= |site| + 1 && !Continues(site, bound)
  {
    var n := |site| + 1;
    if forall k :: 1 <= k <= n ==> PageUrl(k) in site {
      PagesPresentBounded(site, n);
      assert false;
    }
    bound :| 1 <= bound <= n && PageUrl(bound) !in site;
  }

  /** The URLs of pages 1..n, in that order. */
  ghost function Requests(n: nat): (urls: seq<string>)
    ensures |urls| == n
  {
    if n == 0 then [] else Requests(n - 1) + [PageUrl(n)]
  }

  /** The i-th request (from 0) is for page i + 1: the base URL first, then `page/2/`, `page/3/`, ... */
  lemma {:induction false} RequestsAt(n: nat, i: nat)
    requires i < n
    ensures Requests(n)[i] == PageUrl(i + 1)
    ensures i == 0 ==> Requests(n)[i] == BaseUrl
    ensures 1 <= i ==> Requests(n)[i] == BaseUrl + "page/" + Decimal(i + 1) + "/"
  {
    if i < n - 1 {
      RequestsAt(n - 1, i);
    }
  }

  /**
   `parse_quotes`: fetch the base URL, then, while the current page has a "next"
   link, bump the counter, fetch `BASE_URL + "page/" + str(counter) + "/"` and
   extend the accumulator with that page's quotes. `requested` is the sequence of
   URLs fetched, in order, and `pageNum` the counter's last value (1 when the
   first page already fails).
   */
  method ParseQuotes(site: Site, ghost bound: nat)
    returns (r: Result<seq<Quote>, Error>, ghost requested: seq<string>, ghost pageNum: nat)
    requires 1 <= bound && !Continues(site, bound)
    ensures r == Crawl(site, bound)
    ensures pageNum == LastPage(site, 1, bound)
    ensures requested == Requests(pageNum)
  {
    requested := [BaseUrl];
    var fetched := GetCurrentPage(site, BaseUrl);
    if fetched.Failure? {
      LastPageIs(site, bound, 1);
      return Failure(fetched.error), requested, 1;
    }
    var currentPage := fetched.value;
    var first := ParseQuotesFromPage(currentPage);
    if first.Failure? {
      LastPageIs(site, bound, 1);
      return Failure(first.error), requested, 1;
    }
    var allQuotes := first.value;
    var currentPageNum := 1;
    ContinuingPagesExtract(site, 1);
    while currentPage.HasNext()
      invariant 1 <= currentPageNum <= bound
      invariant requested == Requests(currentPageNum)
      invariant forall j :: 1 <= j < currentPageNum ==> Continues(site, j)
      invariant PageUrl(currentPageNum) in site && site[PageUrl(currentPageNum)] == currentPage
      invariant Extracted(site, currentPageNum).Success?
      invariant forall j :: 1 <= j <= currentPageNum ==> Extracted(site, j).Success?
      invariant allQuotes == QuotesThrough(site, currentPageNum)
      decreases bound - currentPageNum
    {
      assert Continues(site, currentPageNum);
      currentPageNum := currentPageNum + 1;
      var nextUrl := BaseUrl + "page/" + Decimal(currentPageNum) + "/";
      assert nextUrl == PageUrl(currentPageNum);
      requested := requested + [nextUrl];
      fetched := GetCurrentPage(site, nextUrl);
      if fetched.Failure? {
        LastPageIs(site, bound, currentPageNum);
        return Failure(fetched.error), requested, currentPageNum;
      }
      currentPage := fetched.value;
      var quotes := ParseQuotesFromPage(currentPage);
      if quotes.Failure? {
        LastPageIs(site, bound, currentPageNum);
        return Failure(quotes.error), requested, currentPageNum;
      }
      assert Extracted(site, currentPageNum) == quotes;
      ContinuingPagesExtract(site, currentPageNum);
      assert QuotesThrough(site, currentPageNum) == QuotesThrough(site, currentPageNum - 1) + quotes.value;
      allQuotes := allQuotes + quotes.value;
    }
    LastPageIs(site, bound, currentPageNum);
    r, pageNum := Success(allQuotes), currentPageNum;
  }
}
