/**
 * String helpers shared by the endpoints: Python's notion of a blank string
 * (`s.strip() == ""`) and the 200-character description preview.
 */
module Text {
  import opened Wrappers

  /** The characters for which Python's `str.isspace()` holds; `strip()` removes exactly these. */
  predicate IsSpace(c: char)
  {
    c == ' ' || ('\t' <= c <= '\r') || ('\U{1C}' <= c <= '\U{1F}')
    || c == '\U{85}' || c == '\U{A0}' || c == '\U{1680}'
    || ('\U{2000}' <= c <= '\U{200A}') || c == '\U{2028}' || c == '\U{2029}'
    || c == '\U{202F}' || c == '\U{205F}' || c == '\U{3000}'
  }

  /** `s.strip() == ""`: the string is empty or made only of whitespace. */
  predicate IsBlank(s: string)
  {
    forall i :: 0 <= i < |s| ==> IsSpace(s[i])
  }

  /** The preview length: longer descriptions are cut to this many characters. */
  const PreviewLength := 200

  /** `text[:200] + "..." if len(text) > 200 else text`. */
  function Preview(s: string): (r: string)
    ensures |s| <= PreviewLength ==> r == s
    ensures |s| > PreviewLength ==>
      |r| == PreviewLength + 3 && r[..PreviewLength] == s[..PreviewLength] && r[PreviewLength..] == "..."
  {
    if |s| > PreviewLength then s[..PreviewLength] + "..." else s
  }

  /** The preview of an optional description: a missing one stays missing. */
  function PreviewOpt(s: Option<string>): (r: Option<string>)
    ensures r.None? <==> s.None?
    ensures s.Some? && |s.value| <= PreviewLength ==> r == s
    ensures s.Some? && |s.value| > PreviewLength ==> r == Some(s.value[..PreviewLength] + "...")
  {
    match s
    case None => None
    case Some(t) => Some(Preview(t))
  }
}
