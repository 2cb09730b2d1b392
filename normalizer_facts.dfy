/**
 * What the normaliser promises: the text it returns is trimmed and
 * single-spaced, holds no `<...>` tag, keeps every non-blank character of
 * the markup that survived the tag passes, and is a fixed point of the
 * whole chain.
 */
module NormalizerFacts {
  import opened Wrappers
  import opened JsText
  import opened Normalizer

  // ---------------------------------------------------------------------
  // Passes 1 and 2: script and style blocks
  // ---------------------------------------------------------------------

  /** Shifting the scan by one character shifts the block positions by one. */
  lemma BlockAtTail(s: string, i: nat, open: string, close: string)
    requires 0 < |s|
    ensures BlockAt(s[1..], i, open, close) <==> BlockAt(s, i + 1, open, close)
  {
    if i + 1 <= |s| {
      assert s[1..][i..] == s[i + 1..];
      if i + |open| <= |s| - 1 {
        assert s[1..][i + |open|..] == s[i + 1 + |open|..];
      }
    }
  }

  /** With no block in it, a string passes through a strip pass unchanged. */
  lemma {:induction false} StripWithoutBlock(s: string, open: string, close: string)
    requires |open| > 0
    requires !HasBlock(s, open, close)
    ensures StripBlocks(s, open, close) == s
    decreases |s|
  {
    if |s| > 0 {
      assert !BlockAt(s, 0, open, close);
      forall i | 0 <= i < |s[1..]| ensures !BlockAt(s[1..], i, open, close) {
        BlockAtTail(s, i, open, close);
      }
      StripWithoutBlock(s[1..], open, close);
    }
  }

  /** With a block in it, a strip pass makes a string strictly shorter. */
  lemma {:induction false} StripShortens(s: string, open: string, close: string)
    requires |open| > 0
    requires HasBlock(s, open, close)
    ensures |StripBlocks(s, open, close)| < |s|
    decreases |s|
  {
    var i :| 0 <= i < |s| && BlockAt(s, i, open, close);
    if !BlockAt(s, 0, open, close) {
      BlockAtTail(s, i - 1, open, close);
      assert BlockAt(s[1..], i - 1, open, close);
      StripShortens(s[1..], open, close);
    }
  }

  /** A strip pass changes its input exactly when some `open`...`close`
      block occurs in it. */
  lemma StripUnchangedIff(s: string, open: string, close: string)
    requires |open| > 0
    ensures StripBlocks(s, open, close) == s <==> !HasBlock(s, open, close)
  {
    if HasBlock(s, open, close) {
      StripShortens(s, open, close);
    } else {
      StripWithoutBlock(s, open, close);
    }
  }

  /** A case-insensitive match looks only at the first |pat| characters. */
  lemma StartsWithCIPrefix(x: string, y: string, pat: string)
    requires |x| >= |pat|
    ensures StartsWithCI(x + y, pat) <==> StartsWithCI(x, pat)
  {
    assert forall i :: 0 <= i < |pat| ==> (x + y)[i] == x[i];
  }

  /** The first offset at which `close` matches is the one FindCI finds. */
  lemma FindCIFirst(t: string, close: string, j: nat)
    requires j <= |t| && StartsWithCI(t[j..], close)
    requires forall k :: 0 <= k < j ==> !StartsWithCI(t[k..], close)
    ensures FindCI(t, close) == Some(j)
  {
  }

  /** Where no block starts, the character is kept and the scan moves on. */
  lemma StripKeepsChar(s: string, open: string, close: string)
    requires |open| > 0
    requires |s| > 0 && !BlockAt(s, 0, open, close)
    ensures StripBlocks(s, open, close) == [s[0]] + StripBlocks(s[1..], open, close)
  {
  }

  /** With no closing match inside `body`, the nearest one is `c`. */
  lemma NearestClose(body: string, c: string, b: string, close: string)
    requires |c| == |close| && StartsWithCI(c, close)
    requires forall k :: 0 <= k < |body| ==> !StartsWithCI((body + c)[k..], close)
    ensures FindCI(body + c + b, close) == Some(|body|)
  {
    var t := body + c + b;
    assert t[|body|..] == c + b;
    StartsWithCIPrefix(c, b, close);
    forall k | 0 <= k < |body| ensures !StartsWithCI(t[k..], close) {
      assert t[k..] == (body + c)[k..] + b;
      StartsWithCIPrefix((body + c)[k..], b, close);
    }
    FindCIFirst(t, close, |body|);
  }

  /** A block at the very front is deleted up to its nearest closing match. */
  lemma StripFrontBlock(o: string, body: string, c: string, b: string, open: string, close: string)
    requires |open| > 0
    requires |o| == |open| && StartsWithCI(o, open)
    requires |c| == |close| && StartsWithCI(c, close)
    requires forall k :: 0 <= k < |body| ==> !StartsWithCI((body + c)[k..], close)
    ensures StripBlocks(o + body + c + b, open, close) == StripBlocks(b, open, close)
  {
    var s := o + body + c + b;
    var t := body + c + b;
    assert s == o + t;
    StartsWithCIPrefix(o, t, open);
    assert s[|open|..] == t;
    NearestClose(body, c, b, close);
    assert BlockAt(s, 0, open, close);
    assert s[|open| + |body| + |close|..] == b;
  }

  /** No block starts at any of the first `n` positions of `s`. */
  predicate NoBlockBefore(s: string, n: nat, open: string, close: string) {
    forall i :: 0 <= i < n ==> !BlockAt(s, i, open, close)
  }

  /** Dropping the first character shifts NoBlockBefore by one. */
  lemma NoBlockBeforeTail(s: string, n: nat, open: string, close: string)
    requires 0 < n && 0 < |s|
    requires NoBlockBefore(s, n, open, close)
    ensures NoBlockBefore(s[1..], n - 1, open, close)
  {
    forall i | 0 <= i < n - 1 ensures !BlockAt(s[1..], i, open, close) {
      BlockAtTail(s, i, open, close);
    }
  }

  /** A prefix in which no block starts is copied unchanged ahead of
      whatever the pass does to the rest. */
  lemma {:induction false} StripKeepsPrefix(a: string, rest: string, open: string, close: string)
    requires |open| > 0
    requires NoBlockBefore(a + rest, |a|, open, close)
    ensures StripBlocks(a + rest, open, close) == a + StripBlocks(rest, open, close)
    decreases |a|
  {
    var s := a + rest;
    if |a| > 0 {
      StripKeepsChar(s, open, close);
      NoBlockBeforeTail(s, |a|, open, close);
      assert s[1..] == a[1..] + rest;
      StripKeepsPrefix(a[1..], rest, open, close);
      assert s[0] == a[0] && a == [a[0]] + a[1..];
    } else {
      assert s == rest;
    }
  }

  /** A block is deleted whole and leaves nothing in its place: an opening
      `o` and a closing `c` that match the patterns in any letter case, with
      no closing match inside `body`, vanish together with `body`; the text
      `a` before them, in which no block starts, is kept as it is; and the
      scan resumes right after `c`, at the nearest closing match. */
  lemma StripDeletesBlock(
    a: string, o: string, body: string, c: string, b: string, open: string, close: string)
    requires |open| > 0
    requires |o| == |open| && StartsWithCI(o, open)
    requires |c| == |close| && StartsWithCI(c, close)
    requires NoBlockBefore(a + (o + body + c + b), |a|, open, close)
    requires forall k :: 0 <= k < |body| ==> !StartsWithCI((body + c)[k..], close)
    ensures StripBlocks(a + (o + body + c + b), open, close) == a + StripBlocks(b, open, close)
  {
    var rest := o + body + c + b;
    StripFrontBlock(o, body, c, b, open, close);
    StripPrefixThenBlock(a, rest, b, open, close);
  }

  /** Chaining a kept prefix with a front block that resumes at `b`. */
  lemma StripPrefixThenBlock(a: string, rest: string, b: string, open: string, close: string)
    requires |open| > 0
    requires NoBlockBefore(a + rest, |a|, open, close)
    requires StripBlocks(rest, open, close) == StripBlocks(b, open, close)
    ensures StripBlocks(a + rest, open, close) == a + StripBlocks(b, open, close)
  {
    StripKeepsPrefix(a, rest, open, close);
  }

  /** An opening pattern that is `<` and then a character other than `>`. */
  predicate OpensLikeTag(open: string) {
    |open| >= 2 && open[0] == '<' && open[1] != '>'
  }

  /** A closing pattern that ends in `>`. */
  predicate ClosesLikeTag(close: string) {
    |close| >= 1 && close[|close| - 1] == '>'
  }

  /** A block match starts with a `<` that a later `>` follows, so it is
      also the start of a `<[^>]+>` tag. */
  lemma BlockIsTag(s: string, i: nat, open: string, close: string)
    requires OpensLikeTag(open) && ClosesLikeTag(close)
    requires BlockAt(s, i, open, close)
    ensures i + 1 < |s| && s[i] == '<' && s[i + 1] != '>' && '>' in s[i + 1..]
  {
    assert AsciiLower(s[i..][0]) == '<' && AsciiLower(s[i..][1]) == open[1];
    var t := s[i + |open|..];
    var k := FindCI(t, close).value;
    assert AsciiLower(t[k..][|close| - 1]) == '>';
    var j := i + |open| + k + |close| - 1;
    assert s[j] == '>';
    assert s[i + 1..][j - i - 1] == '>';
  }

  /** A tag-free string holds no script or style block. */
  lemma NoTagNoBlock(s: string, open: string, close: string)
    requires OpensLikeTag(open) && ClosesLikeTag(close)
    requires NoTag(s)
    ensures !HasBlock(s, open, close)
  {
    forall i | 0 <= i < |s| && BlockAt(s, i, open, close)
      ensures i + 1 < |s| && s[i] == '<' && s[i + 1] != '>' && '>' in s[i + 1..]
    {
      BlockIsTag(s, i, open, close);
    }
  }

  // ---------------------------------------------------------------------
  // Pass 3: tags
  // ---------------------------------------------------------------------

  /** Every character of the replaced text is a character of the input or
      the single space that stands in for a tag. */
  lemma {:induction false} ReplaceTagsChars(s: string)
    ensures forall c :: c in ReplaceTags(s) ==> c in s || c == ' '
    decreases |s|
  {
    if |s| > 0 {
      if TagAt(s, 0) {
        var m := IndexOf(s[1..], '>').value + 2;
        ReplaceTagsChars(s[m..]);
        assert forall c :: c in s[m..] ==> c in s;
      } else {
        ReplaceTagsChars(s[1..]);
        assert forall c :: c in s[1..] ==> c in s;
      }
    }
  }

  /** A suffix of a tag-free string is tag-free, and so is any slice. */
  lemma NoTagSlice(s: string, a: nat, b: nat)
    requires a <= b <= |s|
    requires NoTag(s)
    ensures NoTag(s[a..b])
  {
    var t := s[a..b];
    forall i | 0 <= i < |t| && t[i] == '<'
      ensures (i + 1 < |t| && t[i + 1] == '>') || '>' !in t[i + 1..]
    {
      assert s[a + i] == '<';
      assert t[i + 1..] == s[a + i + 1..b];
      assert s[a + i + 1..] == s[a + i + 1..b] + s[b..];
      if i + 1 < |t| {
        assert t[i + 1] == s[a + i + 1];
      }
    }
  }

  /** Putting one character in front of a tag-free string keeps it tag-free
      unless that character is a `<` that would open a tag. */
  lemma NoTagCons(c: char, t: string)
    requires NoTag(t)
    requires c == '<' ==> (|t| > 0 && t[0] == '>') || '>' !in t
    ensures NoTag([c] + t)
  {
    var s := [c] + t;
    forall i | 0 <= i < |s| && s[i] == '<'
      ensures (i + 1 < |s| && s[i + 1] == '>') || '>' !in s[i + 1..]
    {
      if i > 0 {
        assert s[i] == t[i - 1];
        assert s[i + 1..] == t[i..];
      } else {
        assert s[1..] == t;
      }
    }
  }

  /** No `<...>` tag survives the tag pass. */
  lemma {:induction false} ReplaceTagsNoTag(s: string)
    ensures NoTag(ReplaceTags(s))
    decreases |s|
  {
    if |s| > 0 {
      if TagAt(s, 0) {
        var rest := s[IndexOf(s[1..], '>').value + 2..];
        ReplaceTagsNoTag(rest);
        NoTagCons(' ', ReplaceTags(rest));
      } else {
        var tail := s[1..];
        ReplaceTagsNoTag(tail);
        if s[0] == '<' {
          if |s| >= 2 && s[1] == '>' {
            assert !TagAt(tail, 0);
            assert ReplaceTags(tail)[0] == '>';
          } else {
            ReplaceTagsChars(tail);
          }
        }
        NoTagCons(s[0], ReplaceTags(tail));
      }
    }
  }

  /** A tag-free string passes through the tag pass unchanged. */
  lemma {:induction false} ReplaceTagsWithoutTag(s: string)
    requires NoTag(s)
    ensures ReplaceTags(s) == s
    decreases |s|
  {
    if |s| > 0 {
      assert !TagAt(s, 0);
      NoTagSlice(s, 1, |s|);
      ReplaceTagsWithoutTag(s[1..]);
    }
  }

  /** The tag pass changes its input exactly when a tag occurs in it. */
  lemma ReplaceTagsUnchangedIff(s: string)
    ensures ReplaceTags(s) == s <==> NoTag(s)
  {
    if NoTag(s) {
      ReplaceTagsWithoutTag(s);
    } else {
      ReplaceTagsNoTag(s);
    }
  }

  /** Text in which no tag starts is kept as it is, whatever `<` it holds. */
  lemma ReplaceTagsKeepsPrefix(a: string, rest: string)
    requires forall i :: 0 <= i < |a| ==> !TagAt(a + rest, i)
    ensures ReplaceTags(a + rest) == a + ReplaceTags(rest)
  {
    var s := a + rest;
    assert s[..|a|] == a && s[|a|..] == rest;
    ReplaceTagsKeepsFront(s, |a|);
  }

  /** The same, for the first `k` characters of `s`. */
  lemma {:induction false} ReplaceTagsKeepsFront(s: string, k: nat)
    requires k <= |s| && forall i :: 0 <= i < k ==> !TagAt(s, i)
    ensures ReplaceTags(s) == s[..k] + ReplaceTags(s[k..])
    decreases k
  {
    if k > 0 {
      ReplaceTagsKeepsChar(s);
      NoTagBeforeShift(s, k);
      ReplaceTagsKeepsFront(s[1..], k - 1);
      ConsSlices(s, k);
    }
  }

  /** No tag starts in the first `k` characters of `s`, so none starts in the
      first `k - 1` of `s[1..]`. */
  lemma NoTagBeforeShift(s: string, k: nat)
    requires 0 < k <= |s| && forall i :: 0 <= i < k ==> !TagAt(s, i)
    ensures forall i :: 0 <= i < k - 1 ==> !TagAt(s[1..], i)
  {
    forall i | 0 <= i < k - 1 ensures !TagAt(s[1..], i) {
      TagAtShift(s, i);
    }
  }

  /** Splitting `s` after its first character and after `k` characters. */
  lemma ConsSlices(s: string, k: nat)
    requires 0 < k <= |s|
    ensures s[..k] + s[k..] == s
    ensures s[..k] == [s[0]] + s[1..][..k - 1]
    ensures s[1..][k - 1..] == s[k..]
  {
  }

  /** Dropping the first character moves every tag one place to the left. */
  lemma TagAtShift(s: string, i: nat)
    requires |s| > 0
    ensures TagAt(s[1..], i) <==> TagAt(s, i + 1)
  {
    if i + 2 < |s| {
      assert s[1..][i + 1..] == s[i + 2..];
    }
  }

  /** A character at which no tag starts is kept and the scan moves on. */
  lemma ReplaceTagsKeepsChar(s: string)
    requires |s| > 0 && !TagAt(s, 0)
    ensures ReplaceTags(s) == [s[0]] + ReplaceTags(s[1..])
  {
  }

  /** A tag `<` t `>` at the front becomes a single space. */
  lemma ReplaceTagsFrontTag(t: string, b: string)
    requires |t| > 0 && '>' !in t
    ensures ReplaceTags("<" + t + ">" + b) == " " + ReplaceTags(b)
  {
    var s := "<" + t + ">" + b;
    assert s[1..] == t + ">" + b;
    assert s[1..][|t|] == '>';
    assert s[1..][..|t|] == t;
    assert s[1] == t[0];
    assert TagAt(s, 0);
    assert IndexOf(s[1..], '>') == Some(|t|);
    assert s[|t| + 2..] == b;
  }

  /** A tag becomes one space, so the text on its two sides stays apart:
      when no tag starts before it (a `<` there may still be followed at
      once by `>`, or by no `>` at all), the tag `<` t `>` (t non-empty and
      free of `>`) turns into a single ' ' and the text before it is kept as
      it is. */
  lemma ReplaceTagsSeparates(a: string, t: string, b: string)
    requires forall i :: 0 <= i < |a| ==> !TagAt(a + ("<" + t + ">" + b), i)
    requires |t| > 0 && '>' !in t
    ensures ReplaceTags(a + ("<" + t + ">" + b)) == a + " " + ReplaceTags(b)
  {
    ReplaceTagsKeepsPrefix(a, "<" + t + ">" + b);
    ReplaceTagsFrontTag(t, b);
  }

  // ---------------------------------------------------------------------
  // Pass 4: whitespace
  // ---------------------------------------------------------------------

  /** The non-blank characters of `s`, in order. */
  function NonSpace(s: string): string
    decreases |s|
  {
    if |s| == 0 then ""
    else (if IsJsSpace(s[0]) then "" else [s[0]]) + NonSpace(s[1..])
  }

  /** The non-blank characters of a concatenation. */
  lemma {:induction false} NonSpaceAppend(a: string, b: string)
    ensures NonSpace(a + b) == NonSpace(a) + NonSpace(b)
    decreases |a|
  {
    if |a| > 0 {
      assert (a + b)[1..] == a[1..] + b;
      NonSpaceAppend(a[1..], b);
    } else {
      assert a + b == b;
    }
  }

  /** An all-blank string holds no non-blank character. */
  lemma {:induction false} NonSpaceOfBlank(s: string)
    requires forall i :: 0 <= i < |s| ==> IsJsSpace(s[i])
    ensures NonSpace(s) == ""
    decreases |s|
  {
    if |s| > 0 {
      NonSpaceOfBlank(s[1..]);
    }
  }

  /** Every character of the collapsed text is one of the input's or ' '. */
  lemma {:induction false} CollapseSpaceChars(s: string)
    ensures forall c :: c in CollapseSpace(s) ==> c in s || c == ' '
    decreases |s|
  {
    if |s| > 0 {
      var next := if IsJsSpace(s[0]) then LeadingSpaces(s) else 1;
      CollapseSpaceChars(s[next..]);
      assert forall c :: c in s[next..] ==> c in s;
    }
  }

  /** The collapsed text starts with a blank exactly when its input does. */
  lemma CollapseSpaceHead(s: string)
    requires |s| > 0
    ensures |CollapseSpace(s)| > 0
    ensures IsJsSpace(CollapseSpace(s)[0]) <==> IsJsSpace(s[0])
  {
  }

  /** A slice of a single-spaced string is single-spaced. */
  lemma SingleSpacedSlice(s: string, a: nat, b: nat)
    requires a <= b <= |s|
    requires SingleSpaced(s)
    ensures SingleSpaced(s[a..b])
  {
    var t := s[a..b];
    forall i | 0 <= i < |t| && IsJsSpace(t[i])
      ensures t[i] == ' ' && (i + 1 < |t| ==> !IsJsSpace(t[i + 1]))
    {
      assert t[i] == s[a + i];
      if i + 1 < |t| {
        assert t[i + 1] == s[a + i + 1];
      }
    }
  }

  /** Putting one character in front keeps single spacing unless it makes
      a second blank in a row. */
  lemma SingleSpacedCons(c: char, t: string)
    requires SingleSpaced(t)
    requires IsJsSpace(c) ==> c == ' ' && (|t| > 0 ==> !IsJsSpace(t[0]))
    ensures SingleSpaced([c] + t)
  {
    var s := [c] + t;
    forall i | 0 <= i < |s| && IsJsSpace(s[i])
      ensures s[i] == ' ' && (i + 1 < |s| ==> !IsJsSpace(s[i + 1]))
    {
      if i > 0 {
        assert s[i] == t[i - 1];
        if i + 1 < |s| {
          assert s[i + 1] == t[i];
        }
      }
    }
  }

  /** After the collapse pass no blank other than ' ' is left, and no two
      blanks are next to each other. */
  lemma {:induction false} CollapseSpaceSingleSpaced(s: string)
    ensures SingleSpaced(CollapseSpace(s))
    decreases |s|
  {
    if |s| > 0 {
      if IsJsSpace(s[0]) {
        var u := s[LeadingSpaces(s)..];
        CollapseSpaceSingleSpaced(u);
        if |u| > 0 {
          CollapseSpaceHead(u);
        }
        SingleSpacedCons(' ', CollapseSpace(u));
      } else {
        CollapseSpaceSingleSpaced(s[1..]);
        SingleSpacedCons(s[0], CollapseSpace(s[1..]));
      }
    }
  }

  /** The collapse pass deletes and inserts blanks only: the non-blank
      characters come out as they went in. */
  lemma {:induction false} CollapseSpaceKeepsText(s: string)
    ensures NonSpace(CollapseSpace(s)) == NonSpace(s)
    decreases |s|
  {
    if |s| > 0 {
      if IsJsSpace(s[0]) {
        var n := LeadingSpaces(s);
        var u := s[n..];
        CollapseSpaceKeepsText(u);
        assert (" " + CollapseSpace(u))[1..] == CollapseSpace(u);
        assert s == s[..n] + u;
        NonSpaceAppend(s[..n], u);
        NonSpaceOfBlank(s[..n]);
      } else {
        CollapseSpaceKeepsText(s[1..]);
        assert ([s[0]] + CollapseSpace(s[1..]))[1..] == CollapseSpace(s[1..]);
      }
    }
  }

  /** A single-spaced string passes through the collapse pass unchanged. */
  lemma {:induction false} CollapseSpaceWhenSingleSpaced(s: string)
    requires SingleSpaced(s)
    ensures CollapseSpace(s) == s
    decreases |s|
  {
    if |s| > 0 {
      SingleSpacedSlice(s, 1, |s|);
      CollapseSpaceWhenSingleSpaced(s[1..]);
      if IsJsSpace(s[0]) {
        assert LeadingSpaces(s) == 1;
      }
    }
  }

  /** The collapse pass changes its input exactly when the input is not
      already single-spaced. */
  lemma CollapseSpaceUnchangedIff(s: string)
    ensures CollapseSpace(s) == s <==> SingleSpaced(s)
  {
    if SingleSpaced(s) {
      CollapseSpaceWhenSingleSpaced(s);
    } else {
      CollapseSpaceSingleSpaced(s);
    }
  }

  /** Collapsing blanks cannot create a tag. */
  lemma {:induction false} CollapseSpaceKeepsNoTag(s: string)
    requires NoTag(s)
    ensures NoTag(CollapseSpace(s))
    decreases |s|
  {
    if |s| > 0 {
      if IsJsSpace(s[0]) {
        var u := s[LeadingSpaces(s)..];
        NoTagSlice(s, LeadingSpaces(s), |s|);
        CollapseSpaceKeepsNoTag(u);
        NoTagCons(' ', CollapseSpace(u));
      } else {
        var tail := s[1..];
        NoTagSlice(s, 1, |s|);
        CollapseSpaceKeepsNoTag(tail);
        if s[0] == '<' {
          if |s| >= 2 && s[1] == '>' {
            assert CollapseSpace(tail)[0] == '>';
          } else {
            CollapseSpaceChars(tail);
          }
        }
        NoTagCons(s[0], CollapseSpace(tail));
      }
    }
  }

  /** The blank run at the front of `s` is exactly `n` long. */
  lemma LeadingSpacesIs(s: string, n: nat)
    requires n <= |s|
    requires forall i :: 0 <= i < n ==> IsJsSpace(s[i])
    requires n < |s| ==> !IsJsSpace(s[n])
    ensures LeadingSpaces(s) == n
  {
  }

  /** The blank run at the end of `s` is exactly `n` long. */
  lemma TrailingSpacesIs(s: string, n: nat)
    requires n <= |s|
    requires forall i :: |s| - n <= i < |s| ==> IsJsSpace(s[i])
    requires n < |s| ==> !IsJsSpace(s[|s| - n - 1])
    ensures TrailingSpaces(s) == n
  {
  }

  /** Text that does not end in a blank is collapsed on its own: no run
      reaches across its end. */
  lemma {:induction false} CollapseSpaceAppend(a: string, r: string)
    requires |a| == 0 || !IsJsSpace(a[|a| - 1])
    ensures CollapseSpace(a + r) == CollapseSpace(a) + CollapseSpace(r)
    decreases |a|
  {
    var s := a + r;
    if |a| == 0 {
      assert s == r;
    } else if IsJsSpace(a[0]) {
      var n := LeadingSpaces(a);
      assert n < |a|;
      CollapseSpaceFrontRun(a, r, n);
      CollapseSpaceAppend(a[n..], r);
      Regroup(" ", CollapseSpace(a[n..]), CollapseSpace(r));
    } else {
      CollapseSpaceFrontChar(a, r);
      CollapseSpaceAppend(a[1..], r);
      Regroup([a[0]], CollapseSpace(a[1..]), CollapseSpace(r));
    }
  }

  /** A non-blank in front of `a` is kept in front of `a + r`. */
  lemma CollapseSpaceFrontChar(a: string, r: string)
    requires |a| > 0 && !IsJsSpace(a[0])
    ensures CollapseSpace(a + r) == [a[0]] + CollapseSpace(a[1..] + r)
  {
    assert (a + r)[1..] == a[1..] + r;
  }

  /** The blank run in front of `a` stays the run in front of `a + r`. */
  lemma CollapseSpaceFrontRun(a: string, r: string, n: nat)
    requires |a| > 0 && IsJsSpace(a[0])
    requires n == LeadingSpaces(a) && n < |a|
    ensures CollapseSpace(a + r) == " " + CollapseSpace(a[n..] + r)
  {
    var s := a + r;
    assert forall i :: 0 <= i <= n ==> s[i] == a[i];
    LeadingSpacesIs(s, n);
    assert s[n..] == a[n..] + r;
  }

  /** A run of blanks in front of a non-blank becomes one ' '. */
  lemma CollapseSpaceBlankRun(w: string, b: string)
    requires |w| > 0 && forall i :: 0 <= i < |w| ==> IsJsSpace(w[i])
    requires |b| == 0 || !IsJsSpace(b[0])
    ensures CollapseSpace(w + b) == " " + CollapseSpace(b)
  {
    var s := w + b;
    LeadingSpacesIs(s, |w|);
    assert s[|w|..] == b;
  }

  /** A whitespace run between two words becomes exactly one ' ': it is
      neither deleted nor merged into the words, so they stay apart. */
  lemma CollapseSpaceSeparates(a: string, w: string, b: string)
    requires |a| == 0 || !IsJsSpace(a[|a| - 1])
    requires |w| > 0 && forall i :: 0 <= i < |w| ==> IsJsSpace(w[i])
    requires |b| == 0 || !IsJsSpace(b[0])
    ensures CollapseSpace(a + w + b) == CollapseSpace(a) + " " + CollapseSpace(b)
  {
    CollapseSpaceBlankRun(w, b);
    CollapseSpaceThenSpace(a, w, b);
  }

  /** The step of CollapseSpaceSeparates after the run itself is known to
      collapse to one ' '. */
  lemma CollapseSpaceThenSpace(a: string, w: string, b: string)
    requires |a| == 0 || !IsJsSpace(a[|a| - 1])
    requires CollapseSpace(w + b) == " " + CollapseSpace(b)
    ensures CollapseSpace(a + w + b) == CollapseSpace(a) + " " + CollapseSpace(b)
  {
    var rest := w + b;
    Regroup(a, w, b);
    CollapseSpaceAppend(a, rest);
    Regroup(CollapseSpace(a), " ", CollapseSpace(b));
  }

  /** Concatenation regroups; kept apart so that the regrouping is not
      redone in the contexts that use it. */
  lemma Regroup(x: string, y: string, z: string)
    ensures x + y + z == x + (y + z)
  {
  }

  /** Collapsing keeps a non-blank last character in last place. */
  lemma {:induction false} CollapseSpaceLast(a: string)
    requires |a| > 0 && !IsJsSpace(a[|a| - 1])
    ensures |CollapseSpace(a)| > 0 && !IsJsSpace(CollapseSpace(a)[|CollapseSpace(a)| - 1])
    decreases |a|
  {
    if IsJsSpace(a[0]) {
      var n := LeadingSpaces(a);
      assert n < |a|;
      CollapseSpaceLast(a[n..]);
    } else if |a| > 1 {
      CollapseSpaceLast(a[1..]);
    }
  }

  /** The trimmed text is the slice of the input between its blank ends. */
  lemma TrimIsSlice(s: string) returns (a: nat, b: nat)
    ensures a <= b <= |s| && Trim(s) == s[a..b]
    ensures a < b ==> !IsJsSpace(s[a]) && !IsJsSpace(s[b - 1])
    ensures forall i :: 0 <= i < a ==> IsJsSpace(s[i])
    ensures forall i :: b <= i < |s| ==> IsJsSpace(s[i])
  {
    a := LeadingSpaces(s);
    if a == |s| {
      b := a;
    } else {
      b := |s| - TrailingSpaces(s);
      assert !IsJsSpace(s[a]);
    }
  }

  /** Blanks in front do not count. */
  lemma {:induction false} NonSpaceDropFront(s: string, a: nat)
    requires a <= |s|
    requires forall i :: 0 <= i < a ==> IsJsSpace(s[i])
    ensures NonSpace(s[a..]) == NonSpace(s)
    decreases a
  {
    if a > 0 {
      assert NonSpace(s) == NonSpace(s[1..]);
      NonSpaceDropFront(s[1..], a - 1);
      assert s[1..][a - 1..] == s[a..];
    }
  }

  /** Blanks at the end do not count. */
  lemma NonSpaceDropBack(s: string, b: nat)
    requires b <= |s|
    requires forall i :: b <= i < |s| ==> IsJsSpace(s[i])
    ensures NonSpace(s[..b]) == NonSpace(s)
  {
    NonSpaceSplit(s, b);
    NonSpaceOfBlankSuffix(s, b);
  }

  /** The non-blank characters of `s`, split at `k`. */
  lemma NonSpaceSplit(s: string, k: nat)
    requires k <= |s|
    ensures NonSpace(s) == NonSpace(s[..k]) + NonSpace(s[k..])
  {
    assert s == s[..k] + s[k..];
    NonSpaceAppend(s[..k], s[k..]);
  }

  /** A blank tail holds no non-blank character. */
  lemma NonSpaceOfBlankSuffix(s: string, b: nat)
    requires b <= |s|
    requires forall i :: b <= i < |s| ==> IsJsSpace(s[i])
    ensures NonSpace(s[b..]) == ""
  {
    var back := s[b..];
    forall i | 0 <= i < |back| ensures IsJsSpace(back[i]) {
      assert back[i] == s[b + i];
    }
    NonSpaceOfBlank(back);
  }

  /** Dropping blanks at both ends keeps the non-blank characters. */
  lemma NonSpaceInner(s: string, a: nat, b: nat)
    requires a <= b <= |s|
    requires forall i :: 0 <= i < a ==> IsJsSpace(s[i])
    requires forall i :: b <= i < |s| ==> IsJsSpace(s[i])
    ensures NonSpace(s[a..b]) == NonSpace(s)
  {
    NonSpaceDropBack(s, b);
    NonSpaceDropFront(s[..b], a);
    assert s[..b][a..] == s[a..b];
  }

  /** Trimming keeps the non-blank characters. */
  lemma TrimKeepsText(s: string)
    ensures NonSpace(Trim(s)) == NonSpace(s)
  {
    var a, b := TrimIsSlice(s);
    NonSpaceInner(s, a, b);
  }

  /** Single spacing and tag freedom carry over to the trimmed text. */
  lemma TrimKeepsShape(s: string)
    ensures SingleSpaced(s) ==> SingleSpaced(Trim(s))
    ensures NoTag(s) ==> NoTag(Trim(s))
  {
    var a, b := TrimIsSlice(s);
    if SingleSpaced(s) {
      SingleSpacedSlice(s, a, b);
    }
    if NoTag(s) {
      NoTagSlice(s, a, b);
    }
  }

  /** Trimming changes nothing exactly when neither end is blank. */
  lemma TrimUnchangedIff(s: string)
    ensures Trim(s) == s <==> (|s| > 0 ==> !IsJsSpace(s[0]) && !IsJsSpace(s[|s| - 1]))
  {
    if |s| > 0 && !IsJsSpace(s[0]) && !IsJsSpace(s[|s| - 1]) {
      assert LeadingSpaces(s) == 0;
      assert TrailingSpaces(s) == 0;
    }
  }

  /** Trimming text made of two words joined by one ' ' trims each word
      on its outer side only. */
  lemma TrimJoin(x: string, y: string)
    requires |x| > 0 && !IsJsSpace(x[|x| - 1])
    requires |y| > 0 && !IsJsSpace(y[0])
    ensures Trim(x + " " + y) == Trim(x) + " " + Trim(y)
  {
    var a := TrimFront(x);
    var d := TrimBack(y);
    TrimOfJoin(x, y, a, d);
    JoinSlice(x, y, a, d);
  }

  /** Where the trimmed slice of `x + " " + y` begins and ends. */
  lemma TrimOfJoin(x: string, y: string, a: nat, d: nat)
    requires a < |x| && !IsJsSpace(x[a]) && forall i :: 0 <= i < a ==> IsJsSpace(x[i])
    requires 0 < d <= |y| && !IsJsSpace(y[d - 1]) && forall i :: d <= i < |y| ==> IsJsSpace(y[i])
    ensures Trim(x + " " + y) == (x + " " + y)[a..|x| + 1 + d]
  {
    var s := x + " " + y;
    assert forall i :: 0 <= i < a ==> s[i] == x[i];
    assert forall i :: |x| + 1 + d <= i < |s| ==> s[i] == y[i - |x| - 1];
    assert s[a] == x[a];
    assert s[|x| + d] == y[d - 1];
    TrimIsTheSlice(s, a, |x| + 1 + d);
  }

  /** Text that ends in a non-blank is trimmed at the front only. */
  lemma TrimFront(x: string) returns (a: nat)
    requires |x| > 0 && !IsJsSpace(x[|x| - 1])
    ensures a < |x| && Trim(x) == x[a..] && !IsJsSpace(x[a])
    ensures forall i :: 0 <= i < a ==> IsJsSpace(x[i])
  {
    var b;
    a, b := TrimIsSlice(x);
    assert b == |x|;
  }

  /** Text that starts with a non-blank is trimmed at the end only. */
  lemma TrimBack(y: string) returns (d: nat)
    requires |y| > 0 && !IsJsSpace(y[0])
    ensures 0 < d <= |y| && Trim(y) == y[..d] && !IsJsSpace(y[d - 1])
    ensures forall i :: d <= i < |y| ==> IsJsSpace(y[i])
  {
    var a;
    a, d := TrimIsSlice(y);
    assert a == 0;
    assert y[0..d] == y[..d];
  }

  /** Trim cuts exactly the blanks before `a` and from `b` on when the
      characters at `a` and `b - 1` are not blank. */
  lemma TrimIsTheSlice(s: string, a: nat, b: nat)
    requires a < b <= |s|
    requires forall i :: 0 <= i < a ==> IsJsSpace(s[i])
    requires forall i :: b <= i < |s| ==> IsJsSpace(s[i])
    requires !IsJsSpace(s[a]) && !IsJsSpace(s[b - 1])
    ensures Trim(s) == s[a..b]
  {
    LeadingSpacesIs(s, a);
    TrailingSpacesIs(s, |s| - b);
  }

  /** A slice of `x + " " + y` that spans the ' '. */
  lemma JoinSlice(x: string, y: string, lo: nat, hi: nat)
    requires lo <= |x| && hi <= |y|
    ensures (x + " " + y)[lo..|x| + 1 + hi] == x[lo..] + " " + y[..hi]
  {
  }

  // ---------------------------------------------------------------------
  // The whole chain
  // ---------------------------------------------------------------------

  /** The normaliser's text is trimmed, single-spaced and tag-free. */
  lemma NormalizeIsClean(html: string)
    ensures Clean(Normalize(html))
    ensures NoTag(Normalize(html))
  {
    var noScript := StripBlocks(html, ScriptOpen, ScriptClose);
    var noStyle := StripBlocks(noScript, StyleOpen, StyleClose);
    var tagless := ReplaceTags(noStyle);
    ReplaceTagsNoTag(noStyle);
    CollapseSpaceSingleSpaced(tagless);
    CollapseSpaceKeepsNoTag(tagless);
    TrimKeepsShape(CollapseSpace(tagless));
  }

  /** The normaliser keeps every non-blank character that the two strip
      passes and the tag pass left: blanks are its only other edit. */
  lemma NormalizeKeepsText(html: string)
    ensures NonSpace(Normalize(html)) ==
      NonSpace(ReplaceTags(StripBlocks(StripBlocks(html, ScriptOpen, ScriptClose), StyleOpen, StyleClose)))
  {
    var tagless := ReplaceTags(StripBlocks(StripBlocks(html, ScriptOpen, ScriptClose), StyleOpen, StyleClose));
    CollapseSpaceKeepsText(tagless);
    TrimKeepsText(CollapseSpace(tagless));
  }

  /** The texts the normaliser leaves unchanged are exactly the clean,
      tag-free ones. */
  lemma NormalizeFixedPoints(s: string)
    ensures Normalize(s) == s <==> Clean(s) && NoTag(s)
  {
    if Clean(s) && NoTag(s) {
      assert OpensLikeTag(ScriptOpen) && ClosesLikeTag(ScriptClose);
      assert OpensLikeTag(StyleOpen) && ClosesLikeTag(StyleClose);
      NoTagNoBlock(s, ScriptOpen, ScriptClose);
      StripWithoutBlock(s, ScriptOpen, ScriptClose);
      NoTagNoBlock(s, StyleOpen, StyleClose);
      StripWithoutBlock(s, StyleOpen, StyleClose);
      ReplaceTagsWithoutTag(s);
      CollapseSpaceWhenSingleSpaced(s);
      TrimUnchangedIff(s);
    } else {
      NormalizeIsClean(s);
    }
  }

  /** Normalising normalised text gives it back unchanged. */
  lemma NormalizeIdempotent(html: string)
    ensures Normalize(Normalize(html)) == Normalize(html)
  {
    NormalizeIsClean(html);
    NormalizeFixedPoints(Normalize(html));
  }

  /** A tag-free string with no `<` at all. */
  lemma NoOpenerNoTag(s: string)
    requires '<' !in s
    ensures NoTag(s)
  {
  }

  /** Markup with no `<` at all is only collapsed and trimmed. */
  lemma NormalizePlain(s: string)
    requires '<' !in s
    ensures Normalize(s) == Trim(CollapseSpace(s))
  {
    NoOpenerNoTag(s);
    assert OpensLikeTag(ScriptOpen) && ClosesLikeTag(ScriptClose);
    assert OpensLikeTag(StyleOpen) && ClosesLikeTag(StyleClose);
    NoTagNoBlock(s, ScriptOpen, ScriptClose);
    StripWithoutBlock(s, ScriptOpen, ScriptClose);
    NoTagNoBlock(s, StyleOpen, StyleClose);
    StripWithoutBlock(s, StyleOpen, StyleClose);
    ReplaceTagsWithoutTag(s);
  }

  /** A block needs two `<`: the one that opens it and a later one that
      starts its closing match. */
  lemma SecondOpener(s: string, i: nat, open: string, close: string)
    requires |open| > 0 && open[0] == '<'
    requires |close| > 0 && close[0] == '<'
    ensures BlockAt(s, i, open, close) ==>
      i < |s| && s[i] == '<' && exists j :: i < j < |s| && s[j] == '<'
  {
    if BlockAt(s, i, open, close) {
      var t := s[i + |open|..];
      var k := FindCI(t, close).value;
      assert AsciiLower(s[i..][0]) == '<';
      assert AsciiLower(t[k..][0]) == '<';
      assert s[i + |open| + k] == t[k..][0];
    }
  }

  /** With only one `<` in it, a string holds no block. */
  lemma OneOpenerNoBlock(s: string, p: nat, open: string, close: string)
    requires |open| > 0 && open[0] == '<'
    requires |close| > 0 && close[0] == '<'
    requires forall j :: 0 <= j < |s| && s[j] == '<' ==> j == p
    ensures !HasBlock(s, open, close)
  {
    forall i | 0 <= i < |s| ensures !BlockAt(s, i, open, close) {
      SecondOpener(s, i, open, close);
    }
  }

  /** A single tag between two words turns into exactly one space in the
      text: `a<t>b` normalises to the normalised `a`, one ' ', and the
      normalised `b`, as long as none of `a`, `t` and `b` holds a '<' (so
      the string has exactly one tag and no script or style block) and `a`
      ends and `b` starts with a non-blank. */
  lemma NormalizeSeparatesTag(a: string, t: string, b: string)
    requires '<' !in a && '<' !in t && '<' !in b
    requires |t| > 0 && '>' !in t
    requires |a| > 0 && !IsJsSpace(a[|a| - 1])
    requires |b| > 0 && !IsJsSpace(b[0])
    ensures Normalize(a + ("<" + t + ">" + b)) == Normalize(a) + " " + Normalize(b)
  {
    var html := a + ("<" + t + ">" + b);
    SingleOpener(a, t, b);
    OneOpenerNoBlock(html, |a|, ScriptOpen, ScriptClose);
    StripWithoutBlock(html, ScriptOpen, ScriptClose);
    OneOpenerNoBlock(html, |a|, StyleOpen, StyleClose);
    StripWithoutBlock(html, StyleOpen, StyleClose);
    ReplaceTagsSeparates(a, t, b);
    NoOpenerNoTag(b);
    ReplaceTagsWithoutTag(b);
    CollapseSpaceSeparates(a, " ", b);
    CollapseSpaceLast(a);
    CollapseSpaceHead(b);
    TrimJoin(CollapseSpace(a), CollapseSpace(b));
    NormalizePlain(a);
    NormalizePlain(b);
  }

  /** The only `<` of `a<t>b` is the one that opens the tag. */
  lemma SingleOpener(a: string, t: string, b: string)
    requires '<' !in a && '<' !in t && '<' !in b
    ensures var html := a + ("<" + t + ">" + b);
      forall j :: 0 <= j < |html| && html[j] == '<' ==> j == |a|
  {
    var html := a + ("<" + t + ">" + b);
    forall j | 0 <= j < |html| && j != |a| ensures html[j] != '<' {
      if j < |a| {
        assert html[j] == a[j];
      } else if j <= |a| + |t| {
        assert html[j] == t[j - |a| - 1];
      } else if j > |a| + |t| + 1 {
        assert html[j] == b[j - |a| - |t| - 2];
      }
    }
  }
}
