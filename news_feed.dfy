/**
 * Article selection from the BBC News RSS feed (`get_latest_news_from_bbc`).
 *
 * The HTTP request and the XML parse are not modelled: the caller supplies
 * their outcome as a `Feed`, and a parsed feed is the sequence of `<item>`
 * elements in document order.
 */
module NewsFeed {
  import opened Wrappers

  /** A child element of an `<item>`. Like ElementTree's `.text`, `text` is
      `None` when the element is present but holds no text. */
  datatype Element = Element(text: Option<string>)

  /** One `<item>` of the feed; each of its three children may be missing. */
  datatype Item = Item(title: Option<Element>, link: Option<Element>, description: Option<Element>)

  /** The article dictionary the selection returns. A field is `None` when the
      element was present but empty. */
  datatype Article = Article(title: Option<string>, url: Option<string>, description: Option<string>)

  /** What the fetch and parse steps produced. */
  datatype Feed =
    | FetchFailed          // a `RequestException`, including an HTTP error status
    | ParseFailed          // an `ET.ParseError`
    | Parsed(items: seq<Item>)

  /** Sentinels substituted for missing elements. */
  const NoTitle := "No title"
  const NoLink := "#"
  const NoSummary := "No summary available."

  /** The value read for one child: its text, or the sentinel when the child is missing. */
  function FieldValue(e: Option<Element>, sentinel: string): Option<string>
  {
    match e
    case Some(element) => element.text
    case None => Some(sentinel)
  }

  function TitleOf(item: Item): Option<string> { FieldValue(item.title, NoTitle) }

  function LinkOf(item: Item): Option<string> { FieldValue(item.link, NoLink) }

  function DescriptionOf(item: Item): Option<string> { FieldValue(item.description, NoSummary) }

  /** The test an item must pass to be selected: neither the title nor the link is its sentinel.
      An empty element (text `None`) is not equal to a sentinel string, so it passes. */
  predicate Qualifies(item: Item)
  {
    TitleOf(item) != Some(NoTitle) && LinkOf(item) != Some(NoLink)
  }

  /** The article built from an item. */
  function ArticleOf(item: Item): (a: Article)
    ensures item.title.None? ==> a.title == Some(NoTitle)
    ensures item.link.None? ==> a.url == Some(NoLink)
    ensures item.description.None? ==> a.description == Some(NoSummary)
    ensures item.title.Some? ==> a.title == item.title.value.text
    ensures item.link.Some? ==> a.url == item.link.value.text
    ensures item.description.Some? ==> a.description == item.description.value.text
    ensures Qualifies(item) <==> a.title != Some(NoTitle) && a.url != Some(NoLink)
  {
    Article(TitleOf(item), LinkOf(item), DescriptionOf(item))
  }

  /** Specification of the scan: the article of the first qualifying item in feed order. */
  function FirstQualifying(items: seq<Item>): Option<Article>
  {
    if items == [] then None
    else if Qualifies(items[0]) then Some(ArticleOf(items[0]))
    else FirstQualifying(items[1..])
  }

  /** Specification of the whole function: a failed fetch or parse gives no article. */
  function LatestNews(feed: Feed): Option<Article>
  {
    match feed
    case FetchFailed => None
    case ParseFailed => None
    case Parsed(items) => FirstQualifying(items)
  }

  /** The item at index k is the one selected when it qualifies and no earlier one does. */
  lemma {:induction false} FirstQualifyingAt(items: seq<Item>, k: nat)
    requires k < |items| && Qualifies(items[k])
    requires forall j :: 0 <= j < k ==> !Qualifies(items[j])
    ensures FirstQualifying(items) == Some(ArticleOf(items[k]))
  {
    if k > 0 {
      assert !Qualifies(items[0]);
      FirstQualifyingAt(items[1..], k - 1);
    }
  }

  /** No article is selected exactly when no item qualifies. */
  lemma {:induction false} FirstQualifyingNone(items: seq<Item>)
    ensures FirstQualifying(items).None? <==> forall j :: 0 <= j < |items| ==> !Qualifies(items[j])
  {
    if items != [] {
      FirstQualifyingNone(items[1..]);
      if !Qualifies(items[0]) {
        forall j | 0 <= j < |items| && Qualifies(items[j]) ensures j > 0 && Qualifies(items[1..][j - 1]) {
        }
      }
    }
  }

  /** A selected article comes from a qualifying item with no qualifying item before it. */
  lemma {:induction false} FirstQualifyingSome(items: seq<Item>)
    requires FirstQualifying(items).Some?
    ensures exists k :: (0 <= k < |items| && Qualifies(items[k])
                         && FirstQualifying(items) == Some(ArticleOf(items[k]))
                         && forall j :: 0 <= j < k ==> !Qualifies(items[j]))
  {
    if Qualifies(items[0]) {
      assert FirstQualifying(items) == Some(ArticleOf(items[0]));
    } else {
      FirstQualifyingSome(items[1..]);
      var k :| 0 <= k < |items[1..]| && Qualifies(items[1..][k])
        && FirstQualifying(items[1..]) == Some(ArticleOf(items[1..][k]))
        && forall j :: 0 <= j < k ==> !Qualifies(items[1..][j]);
      assert forall j :: 0 <= j < k + 1 ==> !Qualifies(items[j]) by {
        forall j | 0 < j < k + 1 ensures !Qualifies(items[j]) {
          assert items[j] == items[1..][j - 1];
        }
      }
      assert items[k + 1] == items[1..][k];
    }
  }

  /** Skipping a non-qualifying item at the front changes nothing. */
  lemma SkipNonQualifying(item: Item, rest: seq<Item>)
    requires !Qualifies(item)
    ensures FirstQualifying([item] + rest) == FirstQualifying(rest)
  {
    assert ([item] + rest)[1..] == rest;
  }

  /** The scan over the items: returns as soon as an item passes the test. */
  method SelectArticle(items: seq<Item>) returns (r: Option<Article>)
    ensures r == FirstQualifying(items)
    ensures r.Some? ==> r.value.title != Some(NoTitle) && r.value.url != Some(NoLink)
  {
    var i := 0;
    while i < |items|
      invariant 0 <= i <= |items|
      invariant forall j :: 0 <= j < i ==> !Qualifies(items[j])
    {
      var item := items[i];
      var title := if item.title.Some? then item.title.value.text else Some(NoTitle);
      var link := if item.link.Some? then item.link.value.text else Some(NoLink);
      var description := if item.description.Some? then item.description.value.text else Some(NoSummary);
      if title != Some(NoTitle) && link != Some(NoLink) {
        FirstQualifyingAt(items, i);
        FirstQualifyingNone(items);
        return Some(Article(title, link, description));
      }
      i := i + 1;
    }
    FirstQualifyingNone(items);
    r := None;
  }

  /** `get_latest_news_from_bbc` once the request and the parse have been performed. */
  method GetLatestNews(feed: Feed) returns (r: Option<Article>)
    ensures r == LatestNews(feed)
    ensures !feed.Parsed? ==> r.None?
    ensures feed.Parsed? ==> (r.None? <==> forall j :: 0 <= j < |feed.items| ==> !Qualifies(feed.items[j]))
  {
    match feed
    case FetchFailed => r := None;
    case ParseFailed => r := None;
    case Parsed(items) =>
      r := SelectArticle(items);
      FirstQualifyingNone(items);
  }

  /** An item whose title and link elements are present but empty is selected,
      with `None` for its title and url. */
  lemma EmptyElementsAreSelected(rest: seq<Item>)
    ensures FirstQualifying([Item(Some(Element(None)), Some(Element(None)), None)] + rest)
      == Some(Article(None, None, Some(NoSummary)))
  {
  }

  /** An item whose title text is literally the sentinel is skipped like one with no title. */
  lemma SentinelTitleIsSkipped(link: string, description: Option<Element>, rest: seq<Item>)
    ensures FirstQualifying([Item(Some(Element(Some(NoTitle))), Some(Element(Some(link))), description)] + rest)
      == FirstQualifying(rest)
  {
    SkipNonQualifying(Item(Some(Element(Some(NoTitle))), Some(Element(Some(link))), description), rest);
  }
}
