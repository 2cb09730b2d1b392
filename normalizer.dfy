/**
 * The HTML-to-text normaliser of the scrape handler: four global
 * `String.prototype.replace` passes followed by `trim`, each written as a
 * left-to-right scan that behaves like the regular expression's leftmost,
 * non-overlapping, single-pass matching.
 *
 *   1. `/<script[\s\S]*?<\/script>/gi` -> ""   (StripBlocks with ScriptOpen/ScriptClose)
 *   2. `/<style[\s\S]*?<\/style>/gi`   -> ""   (StripBlocks with StyleOpen/StyleClose)
 *   3. `/<[^>]+>/g`                    -> " "  (ReplaceTags)
 *   4. `/\s+/g`                        -> " "  (CollapseSpace), then `trim()` (Trim)
 */
module Normalizer {
  import opened Wrappers
  import opened JsText

  const ScriptOpen: string := "<script"
  const ScriptClose: string := "</script>"
  const StyleOpen: string := "<style"
  const StyleClose: string := "</style>"

  // ---------------------------------------------------------------------
  // Case-insensitive literal matching (passes 1 and 2)
  // ---------------------------------------------------------------------

  /** A pattern as the handler writes them: lower-case ASCII letters and
      punctuation, so that the `i` flag folds only 'A'..'Z' onto it. */
  predicate LowerPattern(pat: string) {
    forall i :: 0 <= i < |pat| ==> !('A' <= pat[i] <= 'Z')
  }

  /** The four patterns the handler uses are lower-case. */
  lemma PatternsAreLower()
    ensures LowerPattern(ScriptOpen) && LowerPattern(ScriptClose)
    ensures LowerPattern(StyleOpen) && LowerPattern(StyleClose)
  {
  }

  /** For a lower-case pattern, matching folded text against the pattern
      literally is the same as folding both sides, which is how the
      non-unicode `i` flag compares characters. */
  lemma StartsWithCIFoldsBoth(s: string, pat: string)
    requires LowerPattern(pat)
    ensures StartsWithCI(s, pat) <==>
      |pat| <= |s| && forall i :: 0 <= i < |pat| ==> AsciiLower(s[i]) == AsciiLower(pat[i])
  {
    assert forall i :: 0 <= i < |pat| ==> AsciiLower(pat[i]) == pat[i];
  }

  /** `s` starts with `pat` under the `i` flag. */
  predicate StartsWithCI(s: string, pat: string) {
    |pat| <= |s| && forall i :: 0 <= i < |pat| ==> AsciiLower(s[i]) == pat[i]
  }

  /** Offset of the nearest case-insensitive occurrence of `pat` in `t`:
      what the lazy `[\s\S]*?` followed by the closing tag settles on. */
  function FindCI(t: string, pat: string): (r: Option<nat>)
    ensures r.Some? ==> r.value + |pat| <= |t| && StartsWithCI(t[r.value..], pat)
    ensures r.Some? ==> forall k :: 0 <= k < r.value ==> !StartsWithCI(t[k..], pat)
    ensures r.None? ==> forall k :: 0 <= k <= |t| ==> !StartsWithCI(t[k..], pat)
    decreases |t|
  {
    if StartsWithCI(t, pat) then Some(0)
    else if |t| == 0 then None
    else
      var rest := FindCI(t[1..], pat);
      TailSuffixes(t);
      if rest.None? then None else Some(rest.value + 1)
  }

  /** The suffixes of `t[1..]` are the suffixes of `t` from index 1 on. */
  lemma TailSuffixes(t: string)
    requires |t| > 0
    ensures forall j :: 1 <= j <= |t| ==> t[j..] == t[1..][j - 1..]
  {
  }

  /** A block `open`...`close` starts at index `i` of `s`. */
  predicate BlockAt(s: string, i: nat, open: string, close: string) {
    i <= |s| && StartsWithCI(s[i..], open) && FindCI(s[i + |open|..], close).Some?
  }

  /** Some block `open`...`close` occurs in `s`. */
  predicate HasBlock(s: string, open: string, close: string) {
    exists i :: 0 <= i < |s| && BlockAt(s, i, open, close)
  }

  /** One global replace of `open`[\s\S]*?`close` (flag `i`) by "": at each
      position a block that starts there is deleted up to and including the
      nearest closing tag; otherwise the character is kept and the scan moves
      on by one. The deleted text leaves no separator behind. */
  function StripBlocks(s: string, open: string, close: string): (r: string)
    requires |open| > 0
    ensures |r| <= |s|
    decreases |s|
  {
    if |s| == 0 then ""
    else if BlockAt(s, 0, open, close) then
      StripBlocks(s[|open| + FindCI(s[|open|..], close).value + |close|..], open, close)
    else [s[0]] + StripBlocks(s[1..], open, close)
  }

  // ---------------------------------------------------------------------
  // Tag replacement (pass 3)
  // ---------------------------------------------------------------------

  /** Index of the first `c` in `t`. */
  function IndexOf(t: string, c: char): (r: Option<nat>)
    ensures r.Some? ==> r.value < |t| && t[r.value] == c && c !in t[..r.value]
    ensures r.None? <==> c !in t
    decreases |t|
  {
    if |t| == 0 then None
    else if t[0] == c then Some(0)
    else
      match IndexOf(t[1..], c)
      case None => None
      case Some(k) =>
        assert t[..k + 1] == [t[0]] + t[1..][..k];
        Some(k + 1)
  }

  /** A match of `<[^>]+>` starts at index `i` of `s`. */
  predicate TagAt(s: string, i: nat) {
    i + 1 < |s| && s[i] == '<' && s[i + 1] != '>' && '>' in s[i + 1..]
  }

  /** One global replace of `<[^>]+>` by a single space: `<`, then every
      character up to the first `>`, which must not come right after `<`. */
  function ReplaceTags(s: string): (r: string)
    decreases |s|
  {
    if |s| == 0 then ""
    else if TagAt(s, 0) then " " + ReplaceTags(s[IndexOf(s[1..], '>').value + 2..])
    else [s[0]] + ReplaceTags(s[1..])
  }

  /** No `<[^>]+>` remains: every `<` is either followed at once by `>` or has
      no `>` anywhere after it. */
  predicate NoTag(s: string) {
    forall i :: 0 <= i < |s| && s[i] == '<' ==>
      (i + 1 < |s| && s[i + 1] == '>') || '>' !in s[i + 1..]
  }

  // ---------------------------------------------------------------------
  // Whitespace collapsing and trimming (pass 4)
  // ---------------------------------------------------------------------

  /** Length of the run of `\s` characters at the front of `s`. */
  function LeadingSpaces(s: string): (n: nat)
    ensures n <= |s|
    ensures forall i :: 0 <= i < n ==> IsJsSpace(s[i])
    ensures n < |s| ==> !IsJsSpace(s[n])
    decreases |s|
  {
    if |s| == 0 || !IsJsSpace(s[0]) then 0 else 1 + LeadingSpaces(s[1..])
  }

  /** Length of the run of `\s` characters at the end of `s`. */
  function TrailingSpaces(s: string): (n: nat)
    ensures n <= |s|
    ensures forall i :: |s| - n <= i < |s| ==> IsJsSpace(s[i])
    ensures n < |s| ==> !IsJsSpace(s[|s| - n - 1])
    decreases |s|
  {
    if |s| == 0 || !IsJsSpace(s[|s| - 1]) then 0 else 1 + TrailingSpaces(s[..|s| - 1])
  }

  /** One global replace of `\s+` by a single space. */
  function CollapseSpace(s: string): (r: string)
    decreases |s|
  {
    if |s| == 0 then ""
    else if IsJsSpace(s[0]) then " " + CollapseSpace(s[LeadingSpaces(s)..])
    else [s[0]] + CollapseSpace(s[1..])
  }

  /** `String.prototype.trim`: drop the `\s` characters at both ends. */
  function Trim(s: string): (r: string)
    ensures |r| > 0 ==> !IsJsSpace(r[0]) && !IsJsSpace(r[|r| - 1])
  {
    var lead := LeadingSpaces(s);
    if lead == |s| then "" else s[lead..|s| - TrailingSpaces(s)]
  }

  /** The only whitespace left is a lone ' ' between two other characters. */
  predicate SingleSpaced(s: string) {
    forall i :: 0 <= i < |s| && IsJsSpace(s[i]) ==>
      s[i] == ' ' && (i + 1 < |s| ==> !IsJsSpace(s[i + 1]))
  }

  /** What the normaliser's output looks like on the whitespace side. */
  predicate Clean(s: string) {
    SingleSpaced(s) && (|s| > 0 ==> !IsJsSpace(s[0]) && !IsJsSpace(s[|s| - 1]))
  }

  /** The whole chain of the handler, from fetched markup to plain text. */
  function Normalize(html: string): string {
    var noScript := StripBlocks(html, ScriptOpen, ScriptClose);
    var noStyle := StripBlocks(noScript, StyleOpen, StyleClose);
    Trim(CollapseSpace(ReplaceTags(noStyle)))
  }
}
