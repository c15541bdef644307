/** Record construction of fetchNewsInfo: what the listing page and the
    article page yield, and the news item built from them. The HTTP request
    and the HTML lookups are not modelled; their results are the inputs. */
module Articles {
  import opened Records

  /** Every href is resolved against this prefix. */
  const BaseUrl: string := "https://finance.yahoo.com/quote/AAPL"

  /** The source_name of every item. */
  const SourceName: string := "Yahoo Finance"

  /** One article entry of the listing page: its anchor's text and href. */
  datatype Stub = Stub(title: string, href: string)

  /** What the article page yields: the texts of the paragraphs inside its
      body container, in document order, and the time element's datetime. */
  datatype Page = Page(paragraphs: seq<string>, datetime: string)

  /** The texts one after another, in order. */
  function Joined(texts: seq<string>): string
  {
    if texts == [] then "" else Joined(texts[..|texts| - 1]) + texts[|texts| - 1]
  }

  /** Joining distributes over concatenation of the paragraph lists. */
  lemma {:induction false} JoinedAppend(a: seq<string>, b: seq<string>)
    ensures Joined(a + b) == Joined(a) + Joined(b)
  {
    if b == [] {
      assert a + b == a;
    } else {
      assert (a + b)[..|a + b| - 1] == a + b[..|b| - 1];
      JoinedAppend(a, b[..|b| - 1]);
    }
  }

  /** Paragraph k sits after all earlier paragraphs and before all later
      ones: the body is the in-order concatenation. */
  lemma JoinedAt(texts: seq<string>, k: nat)
    requires k < |texts|
    ensures Joined(texts) == Joined(texts[..k]) + texts[k] + Joined(texts[k + 1..])
  {
    var before, here, after := texts[..k], [texts[k]], texts[k + 1..];
    assert texts == (before + here) + after;
    JoinedAppend(before + here, after);
    JoinedAppend(before, here);
    JoinedSingle(texts[k]);
  }

  lemma JoinedSingle(text: string)
    ensures Joined([text]) == text
  {
    assert [text][..0] == [];
  }

  /** The item built from a stub and its fetched page. */
  function NewsRecord(stub: Stub, page: Page): Article
  {
    Article(page.datetime, stub.title, Joined(page.paragraphs), SourceName, BaseUrl + stub.href)
  }

  /** Builds the news dictionary of fetchNewsInfo, accumulating the body
      paragraph by paragraph. */
  method BuildNews(stub: Stub, page: Page) returns (news: Article)
    ensures news == NewsRecord(stub, page)
    ensures news.date == page.datetime && news.title == stub.title
    ensures news.article == Joined(page.paragraphs)
    ensures page.paragraphs == [] ==> news.article == ""
    ensures news.sourceName == SourceName
    ensures news.sourceLink == BaseUrl + stub.href
  {
    var link := BaseUrl + stub.href;
    var paragraph := "";
    for i := 0 to |page.paragraphs|
      invariant paragraph == Joined(page.paragraphs[..i])
    {
      assert page.paragraphs[..i + 1][..i] == page.paragraphs[..i];
      paragraph := paragraph + page.paragraphs[i];
    }
    assert page.paragraphs[..|page.paragraphs|] == page.paragraphs;
    news := Article(page.datetime, stub.title, paragraph, SourceName, link);
  }
}
