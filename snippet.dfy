// _snippet_ctx of data/bert_input/get_context.py: the text around the first occurrence of a
// snippet, up to `win` characters on each side.

module Snippet {
  import opened Wrappers
  import opened Text

  function Max(a: int, b: int): int { if a >= b then a else b }

  function Min(a: int, b: int): int { if a <= b then a else b }

  /** A slice bound as Python reads it: a negative bound counts from the end, and the result is
      clamped to [0, n]. */
  function SliceBound(i: int, n: nat): (r: nat)
    ensures r <= n
    ensures 0 <= i <= n ==> r == i
  {
    if i < 0 then Max(0, i + n) else Min(i, n)
  }

  /** s[lo:hi] on a Python str. */
  function Slice(s: string, lo: int, hi: int): (r: string)
    ensures |r| <= |s|
    ensures 0 <= lo <= hi <= |s| ==> r == s[lo..hi]
  {
    var a, b := SliceBound(lo, |s|), SliceBound(hi, |s|);
    if a < b then s[a..b] else []
  }

  /** _snippet_ctx(text, snippet, win). */
  function SnippetCtx(text: string, snippet: string, win: int): (r: Option<string>)
    ensures r.None? <==> forall k :: !OccursAt(text, snippet, k)
  {
    var idx := Find(text, snippet);
    if idx == -1 then None else Some(Around(text, snippet, idx, win))
  }

  /** text[lo:hi] with lo = max(0, idx - win) and hi = min(len(text), idx + len(snippet) + win). */
  function Around(text: string, snippet: string, idx: int, win: int): string
  {
    Slice(text, Max(0, idx - win), Min(|text|, idx + |snippet| + win))
  }

  /** For win >= 0 the result is the piece of text that starts max(0, idx - win) characters in,
      where idx is the first occurrence; it holds the snippet at offset idx - lo and reaches
      win characters past it on each side, or to the end of the text. */
  lemma SnippetWindow(text: string, snippet: string, win: int)
    requires win >= 0 && Find(text, snippet) != -1
    ensures var idx := Find(text, snippet);
      var lo := Max(0, idx - win);
      var r := SnippetCtx(text, snippet, win).value;
      lo + |r| <= |text| && r == text[lo..lo + |r|]
      && idx - lo <= win && r[idx - lo..idx - lo + |snippet|] == snippet
      && |r| == Min(idx, win) + |snippet| + Min(|text| - idx - |snippet|, win)
  {
    Window(text, snippet, Find(text, snippet), win);
  }

  lemma Window(text: string, snippet: string, idx: int, win: int)
    requires win >= 0 && OccursAt(text, snippet, idx)
    ensures var lo := Max(0, idx - win);
      var r := Around(text, snippet, idx, win);
      lo + |r| <= |text| && r == text[lo..lo + |r|]
      && idx - lo <= win && r[idx - lo..idx - lo + |snippet|] == snippet
      && |r| == Min(idx, win) + |snippet| + Min(|text| - idx - |snippet|, win)
  {
    var lo, hi := Max(0, idx - win), Min(|text|, idx + |snippet| + win);
    assert 0 <= lo <= idx && idx + |snippet| <= hi <= |text|;
    SliceOfSlice(text, lo, hi, idx, idx + |snippet|);
  }

  lemma SliceOfSlice(t: string, lo: int, hi: int, a: int, b: int)
    requires 0 <= lo <= a <= b <= hi <= |t|
    ensures t[lo..hi][a - lo..b - lo] == t[a..b]
  {
    forall j | 0 <= j < b - a
      ensures t[lo..hi][a - lo..b - lo][j] == t[a..b][j]
    {
      assert t[lo..hi][a - lo + j] == t[a + j];
    }
  }

  /** The window is never longer than the snippet plus win on each side, nor than the text. */
  lemma SnippetLength(text: string, snippet: string, win: int)
    requires win >= 0 && SnippetCtx(text, snippet, win).Some?
    ensures |SnippetCtx(text, snippet, win).value| <= |snippet| + 2 * win
    ensures |SnippetCtx(text, snippet, win).value| <= |text|
  {
    SnippetWindow(text, snippet, win);
  }

  /** The empty snippet is found at 0, so the window is the first min(len(text), win) characters. */
  lemma EmptySnippet(text: string, win: int)
    requires win >= 0
    ensures SnippetCtx(text, [], win) == Some(text[..Min(|text|, win)])
  {
    assert OccursAt(text, [], 0);
  }
}
