/**
 The scraped record and its extraction from one parsed page (app/parse.py:9-36).

 The HTML document is not modelled; a parsed page is abstracted to what the
 selectors of the scraper find in it: the `.quote` blocks in document order and,
 inside each block, the first `span.text`, the first `small.author` and the first
 `.tags` container (each absent when `select_one` finds nothing).
 */
module Quotes {
  import opened Wrappers

  /** One scraped record; its fields in declaration order are text, author, tags. */
  datatype Quote = Quote(text: string, author: string, tags: seq<string>)

  /** Why a scraping run aborts. */
  datatype Error =
    | FetchFailed(url: string)           // the request for `url` raised
    | MissingElement(selector: string)   // `select_one(selector)` found nothing, so `.text` / `.findAll` raised

  /** An element below a `.tags` container, in document order. */
  datatype Element = Element(name: string, classes: seq<string>, text: string)

  /** One `.quote` block: the text of the first match of each selector, or None if nothing matched. */
  datatype Block = Block(text: Option<string>, author: Option<string>, tags: Option<seq<Element>>)

  /** A parsed page: its `.quote` blocks in document order and the href of its `li.next a` link, if any. */
  datatype Page = Page(blocks: seq<Block>, nextLink: Option<string>)
  {
    /** `current_page.select_one("li.next a")` is truthy. */
    predicate HasNext() { nextLink.Some? }
  }

  const TextSelector: string := "span.text"
  const AuthorSelector: string := "small.author"
  const TagsSelector: string := ".tags"

  /** The element matches `findAll("a", class_="tag")`: an `a` element one of whose classes is `tag`. */
  predicate IsTagLink(e: Element) {
    e.name == "a" && "tag" in e.classes
  }

  /** The texts of the tag links among `elements`, in document order. */
  function TagTexts(elements: seq<Element>): (tags: seq<string>)
    ensures |tags| <= |elements|
  {
    if elements == [] then []
    else (if IsTagLink(elements[0]) then [elements[0].text] else []) + TagTexts(elements[1..])
  }

  /** Tag extraction preserves document order: it distributes over concatenation. */
  lemma {:induction false} TagTextsAppend(a: seq<Element>, b: seq<Element>)
    ensures TagTexts(a + b) == TagTexts(a) + TagTexts(b)
  {
    if a != [] {
      assert (a + b)[0] == a[0];
      assert (a + b)[1..] == a[1..] + b;
      TagTextsAppend(a[1..], b);
    } else {
      assert a + b == b;
    }
  }

  /** A text is among the tags exactly when some tag link carries it; no tag link means no tags. */
  lemma {:induction false} TagTextsMembers(elements: seq<Element>, t: string)
    ensures t in TagTexts(elements) <==>
            exists i :: 0 <= i < |elements| && IsTagLink(elements[i]) && elements[i].text == t
    ensures TagTexts(elements) == [] <==> forall i :: 0 <= i < |elements| ==> !IsTagLink(elements[i])
  {
    if elements != [] {
      TagTextsMembers(elements[1..], t);
      assert forall i :: 1 <= i < |elements| ==> elements[i] == elements[1..][i - 1];
      if (exists i :: 0 <= i < |elements[1..]| && IsTagLink(elements[1..][i]) && elements[1..][i].text == t) {
        var i :| 0 <= i < |elements[1..]| && IsTagLink(elements[1..][i]) && elements[1..][i].text == t;
        assert elements[i + 1] == elements[1..][i];
      }
      if !IsTagLink(elements[0]) && TagTexts(elements[1..]) != [] {
        var i :| 0 <= i < |elements[1..]| && IsTagLink(elements[1..][i]);
        assert elements[i + 1] == elements[1..][i];
      }
    }
  }

  /** When every element is a tag link, the tags are exactly their texts, one per element. */
  lemma {:induction false} TagTextsAllLinks(elements: seq<Element>)
    requires forall i :: 0 <= i < |elements| ==> IsTagLink(elements[i])
    ensures |TagTexts(elements)| == |elements|
    ensures forall i :: 0 <= i < |elements| ==> TagTexts(elements)[i] == elements[i].text
  {
    if elements != [] {
      assert forall i :: 1 <= i < |elements| ==> elements[i] == elements[1..][i - 1];
      TagTextsAllLinks(elements[1..]);
    }
  }

  /** All three selectors of `get_quote` found an element in the block. */
  predicate Complete(b: Block) {
    b.text.Some? && b.author.Some? && b.tags.Some?
  }

  /** `get_quote`: the fields are read in the order text, author, tags; the first missing one raises. */
  function GetQuote(b: Block): (r: Result<Quote, Error>)
    ensures r.Success? <==> Complete(b)
    ensures r.Failure? ==> r.error.MissingElement? &&
                           r.error.selector in {TextSelector, AuthorSelector, TagsSelector}
  {
    if b.text.None? then Failure(MissingElement(TextSelector))
    else if b.author.None? then Failure(MissingElement(AuthorSelector))
    else if b.tags.None? then Failure(MissingElement(TagsSelector))
    else Success(Quote(b.text.value, b.author.value, TagTexts(b.tags.value)))
  }

  /** A block as the site renders a quote: every field present, every tag as an `a.tag` link. */
  function Render(q: Quote): Block {
    Block(Some(q.text), Some(q.author),
          Some(seq(|q.tags|, i requires 0 <= i < |q.tags| => Element("a", ["tag"], q.tags[i]))))
  }

  /** Extraction recovers every quote from its rendering, tags included and in order. */
  lemma RenderRoundTrip(q: Quote)
    ensures GetQuote(Render(q)) == Success(q)
  {
    var links := Render(q).tags.value;
    TagTextsAllLinks(links);
    assert TagTexts(links) == q.tags;
  }

  /** The selectors `get_quote` reads a block with, in the order it reads them. */
  const ReadOrder: seq<string> := [TextSelector, AuthorSelector, TagsSelector]

  /** The block has a match for `selector`, one of the three that `get_quote` reads. */
  predicate Found(b: Block, selector: string) {
    if selector == TextSelector then b.text.Some?
    else if selector == AuthorSelector then b.author.Some?
    else if selector == TagsSelector then b.tags.Some?
    else false
  }

  /** A block is complete exactly when every selector in the read order finds something. */
  lemma CompleteIffAllFound(b: Block)
    ensures Complete(b) <==> forall i :: 0 <= i < |ReadOrder| ==> Found(b, ReadOrder[i])
  {
    assert ReadOrder[0] == TextSelector && ReadOrder[1] == AuthorSelector && ReadOrder[2] == TagsSelector;
  }

  /** The error reported is for the i-th selector in the read order exactly when that one is missing and all earlier ones were found. */
  lemma GetQuoteFirstMissing(b: Block, i: nat)
    requires i < |ReadOrder|
    ensures GetQuote(b) == Failure(MissingElement(ReadOrder[i])) <==>
            !Found(b, ReadOrder[i]) && forall j :: 0 <= j < i ==> Found(b, ReadOrder[j])
  {
    assert ReadOrder[0] == TextSelector && ReadOrder[1] == AuthorSelector && ReadOrder[2] == TagsSelector;
    assert TextSelector != AuthorSelector && TextSelector != TagsSelector && AuthorSelector != TagsSelector;
  }

  /** The list comprehension of `parse_quotes_from_page`: one quote per block, in order; the first bad block raises. */
  function ParseBlocks(blocks: seq<Block>): (r: Result<seq<Quote>, Error>)
    ensures r.Success? <==> forall i :: 0 <= i < |blocks| ==> Complete(blocks[i])
    ensures r.Success? ==> |r.value| == |blocks| &&
                           forall i :: 0 <= i < |blocks| ==> GetQuote(blocks[i]) == Success(r.value[i])
    ensures r.Failure? ==> exists i :: 0 <= i < |blocks| && GetQuote(blocks[i]) == Failure(r.error) &&
                                       forall j :: 0 <= j < i ==> Complete(blocks[j])
  {
    if blocks == [] then Success([])
    else match GetQuote(blocks[0])
      case Failure(e) => Failure(e)
      case Success(q) =>
        var rest := ParseBlocks(blocks[1..]);
        assert forall i :: 1 <= i < |blocks| ==> blocks[i] == blocks[1..][i - 1];
        match rest
        case Failure(e) =>
          var i :| 0 <= i < |blocks[1..]| && GetQuote(blocks[1..][i]) == Failure(e) &&
                   forall j :: 0 <= j < i ==> Complete(blocks[1..][j]);
          assert GetQuote(blocks[i + 1]) == Failure(e);
          Failure(e)
        case Success(qs) => Success([q] + qs)
  }

  /** `parse_quotes_from_page`: one quote per `.quote` block of the page, in document order, or the error of a bad block. */
  function ParseQuotesFromPage(page: Page): (r: Result<seq<Quote>, Error>)
    ensures r.Success? <==> forall i :: 0 <= i < |page.blocks| ==> Complete(page.blocks[i])
    ensures r.Success? ==> |r.value| == |page.blocks| &&
                           forall i :: 0 <= i < |page.blocks| ==> GetQuote(page.blocks[i]) == Success(r.value[i])
    ensures page.blocks == [] ==> r == Success([])
  {
    ParseBlocks(page.blocks)
  }
}
