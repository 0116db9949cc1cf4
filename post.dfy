/**
 * Assembly of the outgoing post in `post_tweet`.
 *
 * The platform clients are not modelled: the outcome of decoding and uploading
 * the image and the outcome of the post-creation call are inputs, and the
 * random tag is a parameter (the source draws it with `random.choices`).
 */
module Post {
  import opened Wrappers

  /** The length of the random tag appended after '#'. */
  const TagLength := 5

  /** The tag alphabet: `string.ascii_uppercase + string.digits`. */
  predicate IsTagChar(c: char)
  {
    'A' <= c <= 'Z' || '0' <= c <= '9'
  }

  predicate ValidTag(tag: string)
  {
    |tag| == TagLength && forall i :: 0 <= i < |tag| ==> IsTagChar(tag[i])
  }

  /** How an f-string renders an optional string: Python shows `None` as "None". */
  function Display(s: Option<string>): (shown: string)
    ensures s.Some? ==> shown == s.value
    ensures s.None? ==> shown == "None"
  {
    match s
    case Some(t) => t
    case None => "None"
  }

  /** The text `f"{tweet_text} {news_link} #{random_string}"`. */
  function PostText(tweet: string, link: Option<string>, tag: string): (text: string)
    ensures |text| == |tweet| + |Display(link)| + 3 + |tag|
    ensures ValidTag(tag) ==> |text| == |tweet| + |Display(link)| + 8
    ensures text[..|tweet|] == tweet
    ensures text[|text| - |tag| - 2..] == " #" + tag
  {
    tweet + " " + Display(link) + " #" + tag
  }

  /** The index of the last space in s, if any. */
  function LastSpace(s: string): (k: Option<nat>)
    ensures k.Some? ==> k.value < |s| && s[k.value] == ' ' && forall j :: k.value < j < |s| ==> s[j] != ' '
    ensures k.None? ==> forall j :: 0 <= j < |s| ==> s[j] != ' '
  {
    if s == [] then None
    else if s[|s| - 1] == ' ' then Some(|s| - 1)
    else LastSpace(s[..|s| - 1])
  }

  /** The three parts a post text is made of. */
  datatype Parts = Parts(tweet: string, link: string, tag: string)

  /** Splits the text before the tag at its last space into the commentary and the link. */
  function SplitLink(rest: string, tag: string): (p: Option<Parts>)
    ensures p.Some? ==> rest == p.value.tweet + " " + p.value.link && p.value.tag == tag
    ensures p.Some? ==> forall j :: 0 <= j < |p.value.link| ==> p.value.link[j] != ' '
  {
    match LastSpace(rest)
    case None => None
    case Some(k) =>
      assert rest == rest[..k] + " " + rest[k + 1..];
      Some(Parts(rest[..k], rest[k + 1..], tag))
  }

  /** Reads a post text back into its parts: the tag after the final " #", and the
      link after the last space before it. */
  function SplitPost(text: string): (p: Option<Parts>)
    ensures p.Some? ==> ValidTag(p.value.tag) && text == p.value.tweet + " " + p.value.link + " #" + p.value.tag
    ensures p.Some? ==> forall j :: 0 <= j < |p.value.link| ==> p.value.link[j] != ' '
  {
    var n := |text|;
    if n < TagLength + 2 then None
    else
      var rest, separator, tag := text[..n - TagLength - 2], text[n - TagLength - 2..n - TagLength], text[n - TagLength..];
      assert text == rest + separator + tag;
      if separator != " #" || !ValidTag(tag) then None else SplitLink(rest, tag)
  }

  /** The last space of `a + " " + b` is the separator when b holds no space. */
  lemma {:induction false} LastSpaceIsSeparator(a: string, b: string)
    requires forall j :: 0 <= j < |b| ==> b[j] != ' '
    ensures LastSpace(a + " " + b) == Some(|a|)
  {
    var s := a + " " + b;
    if b != [] {
      var b' := b[..|b| - 1];
      assert s[|s| - 1] == b[|b| - 1];
      assert s[..|s| - 1] == a + " " + b';
      LastSpaceIsSeparator(a, b');
    }
  }

  /** The tag and the link can be read back from a post, as long as the link holds no space. */
  lemma SplitPostText(tweet: string, link: Option<string>, tag: string)
    requires ValidTag(tag)
    requires forall j :: 0 <= j < |Display(link)| ==> Display(link)[j] != ' '
    ensures SplitPost(PostText(tweet, link, tag)) == Some(Parts(tweet, Display(link), tag))
  {
    var shown := Display(link);
    var rest := tweet + " " + shown;
    LastSpaceIsSeparator(tweet, shown);
    assert rest[..|tweet|] == tweet && rest[|tweet| + 1..] == shown;
    assert SplitLink(rest, tag) == Some(Parts(tweet, shown, tag));
    var text := rest + " #" + tag;
    assert PostText(tweet, link, tag) == text;
    var n := |text|;
    assert text[..n - TagLength - 2] == rest;
    assert text[n - TagLength - 2..n - TagLength] == " #";
    assert text[n - TagLength..] == tag;
  }

  /** Outcome of decoding the image and uploading it for a media id. */
  datatype Upload = Uploaded(mediaId: int) | UploadFailed

  /** Outcome of the post-creation call. */
  datatype Submission = Accepted(tweetId: string) | Rejected

  /** The arguments of `create_tweet`. */
  datatype Request = Request(text: string, mediaIds: Option<seq<int>>)

  /** What `post_tweet` did: every exception is caught, so it either never reached
      `create_tweet` or called it once with a request. */
  datatype Report = NotSubmitted | Submitted(request: Request, response: Submission)

  /** `if image_base64:` — an absent or empty image counts as no image. */
  predicate HasImage(image: Option<string>)
    ensures image.None? ==> !HasImage(image)
    ensures image == Some("") ==> !HasImage(image)
    ensures image.Some? && image.value != "" ==> HasImage(image)
  {
    image.Some? && image.value != []
  }

  /** `post_tweet`: builds the media list, then the text, then submits. */
  method PostTweet(tweet: string, link: Option<string>, image: Option<string>,
                   upload: Upload, tag: string, submission: Submission) returns (report: Report)
    ensures report.NotSubmitted? <==> HasImage(image) && upload.UploadFailed?
    ensures report.Submitted? ==> report.request.text == PostText(tweet, link, tag)
    ensures report.Submitted? ==> report.response == submission
    ensures report.Submitted? ==> (report.request.mediaIds.None? <==> !HasImage(image))
    ensures report.Submitted? && HasImage(image) ==> report.request.mediaIds == Some([upload.mediaId])
  {
    var mediaIds: seq<int> := [];
    if HasImage(image) {
      match upload
      case UploadFailed =>
        return NotSubmitted;
      case Uploaded(id) =>
        mediaIds := mediaIds + [id];
        assert mediaIds == [upload.mediaId];
    }
    var text := PostText(tweet, link, tag);
    report := Submitted(Request(text, if mediaIds != [] then Some(mediaIds) else None), submission);
  }
}
