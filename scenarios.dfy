/** Two concrete runs of the scraper: a single page with two quotes, and a second page missing an author. */
module Scenarios {
  import opened Wrappers
  import opened Quotes
  import opened Urls
  import opened Pagination
  import opened Rows

  function TagLink(text: string): Element {
    Element("a", ["tag"], text)
  }

  /** One page, no "next" link: quote "A" by "X" tagged "life", and quote "B" by "Y" without tags. */
  function OnePageSite(): Site {
    map[BaseUrl := Page([Block(Some("A"), Some("X"), Some([TagLink("life")])),
                         Block(Some("B"), Some("Y"), Some([]))], None)]
  }

  function OnePageQuotes(): seq<Quote> {
    [Quote("A", "X", ["life"]), Quote("B", "Y", [])]
  }

  /** The page's two blocks are extracted to the two quotes, in order. */
  lemma OnePageExtraction()
    ensures ParseBlocks(OnePageSite()[BaseUrl].blocks) == Success(OnePageQuotes())
  {
    var blocks := OnePageSite()[BaseUrl].blocks;
    TagTextsAllLinks([TagLink("life")]);
    assert TagTexts([TagLink("life")]) == ["life"];
    assert GetQuote(blocks[0]) == Success(OnePageQuotes()[0]);
    assert GetQuote(blocks[1]) == Success(OnePageQuotes()[1]);
    var r := ParseBlocks(blocks);
    assert r.Success? && |r.value| == 2;
    assert r.value == OnePageQuotes();
  }

  /** The run returns both quotes in page order. */
  lemma OnePageRun()
    ensures !Continues(OnePageSite(), 1)
    ensures Crawl(OnePageSite(), 1) == Success([Quote("A", "X", ["life"]), Quote("B", "Y", [])])
  {
    assert PageUrl(1) == BaseUrl;
    OnePageExtraction();
    CrawlSinglePage(OnePageSite(), 1);
  }

  /** The rows written for the two quotes: the header, then one row per quote. */
  lemma OnePageRows()
    ensures CsvRows([Quote("A", "X", ["life"]), Quote("B", "Y", [])]) ==
            [[Text("text"), Text("author"), Text("tags")],
             [Text("A"), Text("X"), Items(["life"])],
             [Text("B"), Text("Y"), Items([])]]
  {
    CsvRowsLayout(OnePageQuotes());
  }

  /** Page 1 links on to page 2, whose only block has no `small.author`. */
  function MissingAuthorSite(): Site {
    map[BaseUrl := Page([Block(Some("A"), Some("X"), Some([]))], Some("/page/2/")),
        "https://quotes.toscrape.com/page/2/" := Page([Block(Some("B"), None, Some([]))], None)]
  }

  /** The run fails with the missing author, and page 1's quote is not returned. */
  lemma MissingAuthorRun()
    ensures !Continues(MissingAuthorSite(), 2)
    ensures Crawl(MissingAuthorSite(), 2) == Failure(MissingElement("small.author"))
  {
    var site := MissingAuthorSite();
    assert Decimal(2) == "2";
    assert PageUrl(2) == "https://quotes.toscrape.com/page/2/";
    assert PageUrl(1) == BaseUrl;
    assert Continues(site, 1);
    CrawlFailsAt(site, 2, 2);
  }
}
