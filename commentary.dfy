/**
 * The length policy and failure fallback of `generate_analysis_tweet`.
 *
 * The call to the generative-text backend is not modelled: its outcome is the
 * input `Generation`. What the function does with that outcome is modelled:
 * strip surrounding whitespace, cut anything over 117 characters down to 114
 * characters plus "...", and answer a fixed placeholder on failure.
 */
module Commentary {

  /** Outcome of the backend call. */
  datatype Generation =
    | Raised               // any exception, including a candidate with no text part
    | NoCandidates         // a response whose candidate list is empty
    | Candidate(text: string)  // the text of the first part of the first candidate

  /** Returned whenever no commentary could be generated. */
  const Placeholder := "ニュース分析の生成に失敗しました。"

  /** The longest commentary returned. */
  const MaxLength := 117

  /** What is kept of an over-long commentary, before the ellipsis. */
  const KeptLength := 114

  const Ellipsis := "..."

  /** The characters Python's `str.strip()` removes (those for which `str.isspace()` holds). */
  predicate IsSpace(c: char)
    ensures c <= '\U{7F}' ==> (IsSpace(c) <==> c == ' ' || '\t' <= c <= '\r' || '\U{1C}' <= c <= '\U{1F}')
    ensures c == '\U{3000}' ==> IsSpace(c)
    ensures c == '\U{200B}' || c == '\U{FEFF}' ==> !IsSpace(c)
  {
    ('\t' <= c <= '\r') || ('\U{1C}' <= c <= ' ') || c == '\U{85}' || c == '\U{A0}'
    || c == '\U{1680}' || ('\U{2000}' <= c <= '\U{200A}') || c == '\U{2028}' || c == '\U{2029}'
    || c == '\U{202F}' || c == '\U{205F}' || c == '\U{3000}'
  }

  /** The number of whitespace characters at the start of s. */
  function LeadingSpaces(s: string): (k: nat)
    ensures k <= |s|
    ensures forall j :: 0 <= j < k ==> IsSpace(s[j])
    ensures k < |s| ==> !IsSpace(s[k])
  {
    if s == [] || !IsSpace(s[0]) then 0 else 1 + LeadingSpaces(s[1..])
  }

  /** The number of whitespace characters at the end of s. */
  function TrailingSpaces(s: string): (k: nat)
    ensures k <= |s|
    ensures forall j :: |s| - k <= j < |s| ==> IsSpace(s[j])
    ensures k < |s| ==> !IsSpace(s[|s| - 1 - k])
  {
    if s == [] || !IsSpace(s[|s| - 1]) then 0 else 1 + TrailingSpaces(s[..|s| - 1])
  }

  /** `str.strip()`: the contiguous middle of s left after removing whitespace at both ends. */
  function Strip(s: string): (r: string)
    ensures |r| <= |s|
    ensures r == [] || (!IsSpace(r[0]) && !IsSpace(r[|r| - 1]))
    ensures exists i :: (0 <= i <= |s| - |r| && r <= s[i..]
                         && (forall j :: 0 <= j < i ==> IsSpace(s[j]))
                         && (forall j :: i + |r| <= j < |s| ==> IsSpace(s[j])))
  {
    var i := LeadingSpaces(s);
    var rest := s[i..];
    var t := TrailingSpaces(rest);
    var r := rest[..|rest| - t];
    assert r <= s[i..];
    assert r != [] ==> r[0] == s[i] && r[|r| - 1] == rest[|rest| - 1 - t];
    assert forall j :: i + |r| <= j < |s| ==> s[j] == rest[j - i];
    r
  }

  /** A string that already begins and ends with a non-space character is left as it is by Strip. */
  lemma StripStripped(s: string)
    requires s == [] || (!IsSpace(s[0]) && !IsSpace(s[|s| - 1]))
    ensures Strip(s) == s
  {
    assert LeadingSpaces(s) == 0;
    assert TrailingSpaces(s) == 0;
  }

  /** Stripping twice is stripping once. */
  lemma StripIdempotent(s: string)
    ensures Strip(Strip(s)) == Strip(s)
  {
    StripStripped(Strip(s));
  }

  /** The length policy applied to the stripped text. */
  function Clip(t: string): (r: string)
    ensures |r| <= MaxLength
    ensures |t| <= MaxLength ==> r == t
    ensures |t| > MaxLength ==> |r| == MaxLength && r[..KeptLength] == t[..KeptLength] && r[KeptLength..] == Ellipsis
  {
    if |t| > MaxLength then t[..KeptLength] + Ellipsis else t
  }

  /** Clipping an already clipped text changes nothing. */
  lemma ClipIdempotent(t: string)
    ensures Clip(Clip(t)) == Clip(t)
  {
  }

  /** `generate_analysis_tweet` with the backend's outcome given. */
  function AnalysisTweet(g: Generation): (r: string)
    ensures |r| <= MaxLength
    ensures !g.Candidate? ==> r == Placeholder
    ensures g.Candidate? && |Strip(g.text)| <= MaxLength ==> r == Strip(g.text)
    ensures g.Candidate? && |Strip(g.text)| > MaxLength ==>
              |r| == MaxLength && r == Strip(g.text)[..KeptLength] + Ellipsis
    ensures r == [] <==> g.Candidate? && forall j :: 0 <= j < |g.text| ==> IsSpace(g.text[j])
  {
    match g
    case Raised => Placeholder
    case NoCandidates => Placeholder
    case Candidate(text) =>
      var r := Clip(Strip(text));
      assert r == [] ==> forall j :: 0 <= j < |text| ==> IsSpace(text[j]);
      assert (forall j :: 0 <= j < |text| ==> IsSpace(text[j])) ==> r == [];
      r
  }

  /** The placeholder is not empty and has no surrounding whitespace. */
  lemma PlaceholderIsStripped()
    ensures |Placeholder| == 17
    ensures Strip(Placeholder) == Placeholder
  {
    StripStripped(Placeholder);
  }

  /** Every commentary is already in the shape the policy produces: offered back as a
      candidate, it comes out unchanged. */
  lemma {:induction false} AnalysisTweetFixpoint(g: Generation)
    ensures AnalysisTweet(Candidate(AnalysisTweet(g))) == AnalysisTweet(g)
  {
    var r := AnalysisTweet(g);
    if g.Candidate? {
      ClippedIsStripped(Strip(g.text));
    } else {
      PlaceholderIsStripped();
    }
    StrippedShortIsKept(r);
  }

  /** A stripped text within the length limit passes through the policy unchanged. */
  lemma StrippedShortIsKept(t: string)
    requires Strip(t) == t && |t| <= MaxLength
    ensures AnalysisTweet(Candidate(t)) == t
  {
  }

  /** Clipping a stripped text keeps it stripped (the ellipsis ends in '.'). */
  lemma ClippedIsStripped(t: string)
    requires t == [] || (!IsSpace(t[0]) && !IsSpace(t[|t| - 1]))
    ensures Strip(Clip(t)) == Clip(t)
  {
    var r := Clip(t);
    if |t| > MaxLength {
      assert r[0] == t[0] && r[|r| - 1] == '.';
    }
    StripStripped(r);
  }
}
