/**
 * The driver `main`: fetch one article, generate commentary for it, and post
 * the commentary with the article's link. The image stage is disabled in the
 * driver, so the post is always text-only.
 */
module Pipeline {
  import opened Wrappers
  import NewsFeed
  import Commentary
  import Post

  /** The calls the driver makes to the three stages, in order. */
  datatype Call =
    | FetchNews
    | Generate(title: Option<string>, description: Option<string>)
    | PostTweet(tweet: string, link: Option<string>, image: Option<string>)

  /** How a run ends: no article found, or the report of the single post attempt. */
  datatype Ending = Aborted | Finished(report: Post.Report)

  /** The number of post attempts in a call trace. */
  function PostCount(calls: seq<Call>): nat
  {
    if calls == [] then 0
    else PostCount(calls[..|calls| - 1]) + (if calls[|calls| - 1].PostTweet? then 1 else 0)
  }

  /** Recording one more call adds one post attempt exactly when that call is one. */
  lemma PostCountRecord(calls: seq<Call>, call: Call)
    ensures PostCount(calls + [call]) == PostCount(calls) + if call.PostTweet? then 1 else 0
  {
    assert (calls + [call])[..|calls|] == calls;
  }

  /** One run of `main`, with every stage's outside world given as an input.
      The image-upload outcome is not an input: without an image it is never consulted. */
  method Run(feed: NewsFeed.Feed, generation: Commentary.Generation, tag: string, submission: Post.Submission)
    returns (calls: seq<Call>, ending: Ending)
    ensures ending.Aborted? <==> NewsFeed.LatestNews(feed).None?
    ensures PostCount(calls) == if ending.Aborted? then 0 else 1
    ensures ending.Aborted? ==> calls == [FetchNews]
    ensures ending.Finished? ==>
              var article := NewsFeed.LatestNews(feed).value;
              var tweet := Commentary.AnalysisTweet(generation);
              && calls == [FetchNews, Generate(article.title, article.description), PostTweet(tweet, article.url, None)]
              && ending.report == Post.Submitted(Post.Request(Post.PostText(tweet, article.url, tag), None), submission)
  {
    calls := [FetchNews];
    PostCountRecord([], FetchNews);
    assert PostCount(calls) == 0 by { assert [] + [FetchNews] == calls; }
    var article := NewsFeed.GetLatestNews(feed);
    match article
    case None =>
      ending := Aborted;
    case Some(a) =>
      PostCountRecord(calls, Generate(a.title, a.description));
      calls := calls + [Generate(a.title, a.description)];
      var tweet := Commentary.AnalysisTweet(generation);
      PostCountRecord(calls, PostTweet(tweet, a.url, None));
      calls := calls + [PostTweet(tweet, a.url, None)];
      var report := Post.PostTweet(tweet, a.url, None, Post.UploadFailed, tag, submission);
      ending := Finished(report);
      assert PostCount(calls) == 1;
  }

  /** A feed with no items ends the run before anything is generated or posted. */
  lemma EmptyFeedAborts()
    ensures NewsFeed.LatestNews(NewsFeed.Parsed([])).None?
  {
  }

  /** When generation fails, the placeholder is what gets posted. */
  lemma FailedGenerationPostsPlaceholder(generation: Commentary.Generation, link: Option<string>, tag: string)
    requires !generation.Candidate?
    ensures Post.PostText(Commentary.AnalysisTweet(generation), link, tag)[..17] == Commentary.Placeholder
  {
  }

  /** The posted text is at most 125 characters longer than the link: 117 for the
      commentary, then the separators and the tag. */
  lemma PostTextBound(generation: Commentary.Generation, link: Option<string>, tag: string)
    requires Post.ValidTag(tag)
    ensures |Post.PostText(Commentary.AnalysisTweet(generation), link, tag)| <= Commentary.MaxLength + |Post.Display(link)| + 8
  {
  }

  /** Only the commentary is cut: a 300-character generation with a 23-character link
      makes a 148-character post. */
  lemma AssembledLengthIsNotCapped(text: string, link: string, tag: string)
    requires |Commentary.Strip(text)| == 300 && |link| == 23 && Post.ValidTag(tag)
    ensures |Post.PostText(Commentary.AnalysisTweet(Commentary.Candidate(text)), Some(link), tag)| == 148
  {
  }
}
