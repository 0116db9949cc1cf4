# reuters-x-bot: a verified model of the posting pipeline

The bot runs once per schedule tick. It reads the BBC News RSS feed and picks
one article. It asks a generative-text backend for a short Japanese
commentary on that article. Then it posts the commentary, the article's link
and a random five-character tag to X. Every stage is a call to a third-party
service. This project models the deterministic logic around those calls:

- `NewsFeed` models `get_latest_news_from_bbc`. The parsed feed is a sequence of
  `<item>`s, and each item's `title`, `link` and `description` child may be
  missing. A child that is present but empty has text `None`, as in
  ElementTree. The scan returns the first item whose title is not the
  `"No title"` sentinel and whose link is not the `"#"` sentinel. A method with
  a loop invariant implements the scan, and a recursive specification function
  states what it must return.
- `Commentary` models the post-processing in `generate_analysis_tweet`. It
  covers Python's `str.strip()` with Python's whitespace set, the 117-character
  cut to 114 characters plus `"..."`, and the fixed placeholder returned when
  the backend raises or returns no candidate.
- `Post` models `post_tweet`. It builds the media-id list, then the text
  `tweet + " " + link + " #" + tag`, then the `create_tweet` request. An inverse
  reads the tag and the link back from a post text.
- `Pipeline` models `main`. It records the calls the driver makes: no article
  means no commentary and no post, and an article means exactly one text-only
  post attempt.
- `Wrappers` holds the `Option` type used for Python's `None`.

The outside world enters as inputs. These are the feed's fetch/parse outcome
(`NewsFeed.Feed`), the backend's outcome (`Commentary.Generation`), the image
upload's outcome (`Post.Upload`), the post-creation outcome
(`Post.Submission`) and the random tag.

Some behaviours of the code are worth stating outright; the model follows the
code:

- A missing description becomes the sentinel `"No summary available."`.
- Only the commentary is bounded, at 117 characters. The assembled post text is
  never checked or cut, so its length depends on the link
  (`Pipeline.AssembledLengthIsNotCapped`: 300 generated characters and a
  23-character link make 148 characters).
- A failed image decode or upload makes `post_tweet` post nothing: the
  exception is caught for the whole function, and no text-only post follows.
- A whitespace-only generation passes through the policy as it is, so the
  commentary is then empty (the last ensures of `Commentary.AnalysisTweet`).
- A title or link element that is present but empty passes the sentinel test.
  The selected article then carries `None`, which the f-string renders as
  `"None"` (`NewsFeed.EmptyElementsAreSelected`, `Post.Display`).

## Model

| member | source | states |
|---|---|---|
| NewsFeed.ArticleOf | main.py:37-46 | A missing title, link or description becomes "No title", "#" or "No summary available."; a present element gives its text (None when empty); the item passes the test exactly when the resulting title and url are not the sentinels |
| NewsFeed.FirstQualifyingAt | main.py:36-46 | If item k passes the test and no earlier item does, the selection is item k's article |
| NewsFeed.FirstQualifyingNone | main.py:36-47 | The selection is None exactly when no item of the feed passes the test |
| NewsFeed.FirstQualifyingSome | main.py:36-46 | A selected article is built from an item that passes the test, and every item before it fails the test |
| NewsFeed.SkipNonQualifying | main.py:41 | An item that fails the test is skipped without effect on the result |
| NewsFeed.SelectArticle | main.py:36-47 | The early-return loop returns exactly the selection specified by the recursive scan (the first qualifying item's article, or None; see the three lemmas above); a returned title is never "No title" and a returned url never "#" |
| NewsFeed.GetLatestNews | main.py:27-50 | A fetch error or a parse error gives None and never a partial article; a parsed feed gives the scan's result |
| NewsFeed.EmptyElementsAreSelected | main.py:37-41 | An item whose title and link elements are present but empty is selected, with None title and url and the summary sentinel |
| NewsFeed.SentinelTitleIsSkipped | main.py:37-41 | An item whose title text is literally "No title" is skipped like an item with no title |
| Commentary.IsSpace | main.py:69 | The characters `.strip()` removes: among ASCII exactly the space, tab, line feed, vertical tab, form feed, carriage return and the four separators U+001C-U+001F; the ideographic space U+3000 is removed; the zero-width space U+200B and U+FEFF are not |
| Commentary.Strip | main.py:69 | The stripped text has no whitespace at either end, is a contiguous part of the input, and only whitespace was removed around it |
| Commentary.StripIdempotent | main.py:69 | Stripping a stripped text changes nothing |
| Commentary.Clip | main.py:74-76 | The result has at most 117 characters; a text of at most 117 characters is unchanged; a longer one becomes exactly 117 characters, its first 114 followed by "..." |
| Commentary.ClipIdempotent | main.py:74-76 | Applying the length policy twice is applying it once |
| Commentary.AnalysisTweet | main.py:68-79 | An exception or no candidate gives the fixed placeholder; a candidate gives its stripped text, cut to 114 characters plus "..." when over 117; the result never exceeds 117 characters and is empty exactly when the candidate is all whitespace |
| Commentary.PlaceholderIsStripped | main.py:72 | The placeholder is 17 characters, non-empty and without surrounding whitespace |
| Commentary.AnalysisTweetFixpoint | main.py:69-76 | Every commentary is a fixed point of the policy: offered back as a candidate it comes out unchanged |
| Post.Display | main.py:131 | The f-string renders a present link as its text and a missing (None) link as "None" |
| Post.PostText | main.py:130-131 | The post text starts with the commentary and ends with " #" and the tag; its length is the commentary's plus the rendered link's plus 8 for a five-character tag |
| Post.SplitPost | main.py:131 | A post text that is read back yields a valid tag and a link without spaces, and the three parts reassemble to the text |
| Post.SplitPostText | main.py:130-131 | Reading back a post whose link holds no space recovers exactly the commentary, the link and the tag |
| Post.HasImage | main.py:123 | `if image_base64:` is false for None and for the empty string, and true for any non-empty image |
| Post.PostTweet | main.py:122-138 | With an image, a failed upload means nothing is submitted; otherwise one request is submitted with the assembled text, no media list without an image, and exactly the one uploaded id with an image |
| Pipeline.Run | main.py:140-164 | The run aborts exactly when no article is selected, and then only the fetch happens; otherwise it makes one generation call with the article's title and description and exactly one post attempt, without an image, of the commentary and the article's url |
| Pipeline.EmptyFeedAborts | main.py:142-164 | A parsed feed with no items selects nothing; by the first ensures of Pipeline.Run such a run then aborts without posting |
| Pipeline.FailedGenerationPostsPlaceholder | main.py:146-162 | When generation fails, the posted text begins with the placeholder |
| Pipeline.PostTextBound | main.py:130-131 | The posted text is at most 125 characters longer than the rendered link |
| Pipeline.AssembledLengthIsNotCapped | main.py:74-76 | Only the commentary is cut: a 300-character generation with a 23-character link gives a 148-character post |

## Left out

- The HTTP request for the feed and the ElementTree parse are I/O and a foreign parser. Their outcome is the input `NewsFeed.Feed`, and a parsed feed is the sequence of `<item>`s in document order.
- The backend call (configuration, model choice, prompt text, safety settings) is a foreign API. Its outcome is the input `Commentary.Generation`, and the prompt text is not built.
- `generate_image` (the image request, the asset download and base64 encoding) is a foreign call, and `main` never calls it. `Pipeline.Run` therefore never passes an image.
- Building the tweepy clients, base64 decoding, `media_upload` and `create_tweet` are network clients. Their outcomes are the inputs `Post.Upload` and `Post.Submission`.
- `random.choices` is nondeterministic. The tag is a parameter, and `Post.ValidTag` states what a drawn tag looks like.
- Reading the API keys from the environment and every `print` diagnostic are configuration and I/O.
- Python strings may hold lone surrogate code points. Dafny characters cannot, so such strings are not modelled.
