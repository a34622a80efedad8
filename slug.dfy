/**
 * `VizUtils.slugify`: the URL segment derived from a cluster name. The
 * pipeline lowercases the text, deletes every character that is not a word
 * character, whitespace or `-`, turns every run of whitespace and `_` into a
 * single `-`, and keeps the first 50 characters. Runs of `-` already in the
 * text are not merged.
 */
module Slug {
  import opened Sequences

  /** Slugs are cut to this many characters. */
  const MaxLength: nat := 50

  predicate IsUpper(c: char) { 'A' <= c <= 'Z' }

  /** `toLowerCase` on the ASCII letters; every other character is left as it is. */
  function ToLower(c: char): (l: char)
    ensures IsUpper(c) ==> 'a' <= l <= 'z' && l as int - 'a' as int == c as int - 'A' as int
    ensures !IsUpper(c) ==> l == c
  {
    if IsUpper(c) then (c as int + 32) as char else c
  }

  /** The regular-expression class `\w`: ASCII letters, digits and `_`. */
  predicate IsWordChar(c: char)
    ensures IsWordChar(c) ==> c as int < 128
  {
    'a' <= c <= 'z' || 'A' <= c <= 'Z' || '0' <= c <= '9' || c == '_'
  }

  /**
   * The regular-expression class `\s`: the ECMAScript white-space and
   * line-terminator code points.
   */
  predicate IsSpace(c: char)
    ensures IsSpace(c) ==> !IsWordChar(c) && c != '-'
  {
    var n := c as int;
    (9 <= n <= 13) || n == 32 || n == 0xA0 || n == 0x1680 || (0x2000 <= n <= 0x200A)
    || n == 0x2028 || n == 0x2029 || n == 0x202F || n == 0x205F || n == 0x3000 || n == 0xFEFF
  }

  /** What `/[^\w\s-]/g` leaves in place. */
  predicate IsKept(c: char)
    ensures IsKept(c) && !IsUpper(c) ==> IsSlugChar(c) || IsSeparator(c)
  {
    IsWordChar(c) || IsSpace(c) || c == '-'
  }

  /** What `/[\s_]+/g` matches runs of. */
  predicate IsSeparator(c: char)
    ensures IsSeparator(c) ==> !IsSlugChar(c) && c != '-'
  {
    IsSpace(c) || c == '_'
  }

  /** The characters a slug is made of. */
  predicate IsSlugChar(c: char) { 'a' <= c <= 'z' || '0' <= c <= '9' || c == '-' }

  predicate IsSlug(s: string) {
    |s| <= MaxLength && forall i :: 0 <= i < |s| ==> IsSlugChar(s[i])
  }

  /** Step 1, `text.toLowerCase()`. */
  function Lower(s: string): (r: string)
    ensures |r| == |s|
    ensures forall i :: 0 <= i < |r| ==> !IsUpper(r[i])
    ensures forall i :: 0 <= i < |s| && IsUpper(s[i]) ==>
      'a' <= r[i] <= 'z' && r[i] as int - 'a' as int == s[i] as int - 'A' as int
    ensures forall i :: 0 <= i < |s| && !IsUpper(s[i]) ==> r[i] == s[i]
  {
    seq(|s|, i requires 0 <= i < |s| => ToLower(s[i]))
  }

  /** Step 2, `.replace(/[^\w\s-]/g, '')`. */
  function Strip(s: string): (r: string)
    ensures |r| <= |s|
    ensures forall i :: 0 <= i < |r| ==> IsKept(r[i]) && r[i] in s
  {
    Filter(s, IsKept)
  }

  /** The length of the run of separators at the start of s: the extent of one match of `[\s_]+`. */
  function RunLength(s: string): (n: nat)
    ensures n <= |s|
    ensures forall i :: 0 <= i < n ==> IsSeparator(s[i])
    ensures n == |s| || !IsSeparator(s[n])
  {
    if s != [] && IsSeparator(s[0]) then 1 + RunLength(s[1..]) else 0
  }

  /** Step 3, `.replace(/[\s_]+/g, '-')`: each maximal run of separators becomes one `-`. */
  function Collapse(s: string): (r: string)
    ensures |r| <= |s|
    ensures forall i :: 0 <= i < |r| ==> !IsSeparator(r[i])
    ensures forall i :: 0 <= i < |r| ==> r[i] == '-' || r[i] in s
    decreases |s|
  {
    if s == [] then []
    else if IsSeparator(s[0]) then
      var rest := s[RunLength(s)..];
      assert forall i :: 0 <= i < |rest| ==> rest[i] == s[RunLength(s) + i];
      "-" + Collapse(rest)
    else
      assert forall i :: 0 <= i < |s| - 1 ==> s[1..][i] == s[i + 1];
      [s[0]] + Collapse(s[1..])
  }

  /** Step 4, `.substring(0, 50)`. */
  function Truncate(s: string): (r: string)
    ensures |r| <= MaxLength && |r| <= |s|
    ensures r <= s
    ensures |s| <= MaxLength ==> r == s
  {
    if |s| <= MaxLength then s else s[..MaxLength]
  }

  /** `VizUtils.slugify(text)`. */
  function Slugify(text: string): (r: string)
    ensures IsSlug(r)
    ensures |r| <= |text|
  {
    Truncate(Collapse(Strip(Lower(text))))
  }

  /** The characters that carry content: neither separators nor hyphens. */
  predicate IsContent(c: char) { !IsSeparator(c) && c != '-' }

  /** Step 3 on a text that starts with a character outside every separator run. */
  lemma CollapseCons(c: char, x: string)
    requires !IsSeparator(c)
    ensures Collapse([c] + x) == [c] + Collapse(x)
  {
    assert ([c] + x)[1..] == x;
  }

  /** A run of separators in front of w is exactly as long as the run. */
  lemma {:induction false} RunLengthOfRun(w: string, t: string)
    requires forall i :: 0 <= i < |w| ==> IsSeparator(w[i])
    requires t == [] || !IsSeparator(t[0])
    ensures RunLength(w + t) == |w|
  {
    if w != [] {
      assert (w + t)[1..] == w[1..] + t;
      RunLengthOfRun(w[1..], t);
    } else {
      assert w + t == t;
    }
  }

  /**
   * Step 3 on a text that starts with a whole run w of white space and `_`:
   * the run becomes one `-`, whatever its length.
   */
  lemma CollapseRun(w: string, t: string)
    requires w != [] && forall i :: 0 <= i < |w| ==> IsSeparator(w[i])
    requires t == [] || !IsSeparator(t[0])
    ensures Collapse(w + t) == "-" + Collapse(t)
  {
    RunLengthOfRun(w, t);
    assert (w + t)[|w|..] == t;
  }

  /** A separator run carries no content. */
  lemma RunHasNoContent(s: string)
    requires s != [] && IsSeparator(s[0])
    ensures Filter(s, IsContent) == Filter(s[RunLength(s)..], IsContent)
  {
    var n := RunLength(s);
    assert s == s[..n] + s[n..];
    FilterConcat(s[..n], s[n..], IsContent);
    FilterDropsAll(s[..n], IsContent);
  }

  /** The content of a text after a first character. */
  lemma ContentCons(c: char, x: string)
    ensures Filter([c] + x, IsContent) == (if IsContent(c) then [c] else []) + Filter(x, IsContent)
  {
    assert ([c] + x)[1..] == x;
  }

  /** Collapsing separator runs keeps every content character, in order, and adds none. */
  lemma {:induction false} CollapseKeepsContent(s: string)
    ensures Filter(Collapse(s), IsContent) == Filter(s, IsContent)
    decreases |s|
  {
    if s != [] {
      var c, x := s[0], s[1..];
      assert s == [c] + x;
      if IsSeparator(c) {
        var rest := s[RunLength(s)..];
        RunHasNoContent(s);
        CollapseKeepsContent(rest);
        ContentCons('-', Collapse(rest));
      } else {
        CollapseKeepsContent(x);
        CollapseCons(c, x);
        ContentCons(c, x);
        ContentCons(c, Collapse(x));
      }
    }
  }

  /** A text with no separator is left as it is by step 3. */
  lemma {:induction false} CollapseWithoutSeparators(s: string)
    requires forall i :: 0 <= i < |s| ==> !IsSeparator(s[i])
    ensures Collapse(s) == s
  {
    if s != [] {
      CollapseWithoutSeparators(s[1..]);
    }
  }

  /** Every step of the pipeline leaves a slug unchanged. */
  lemma SlugIsFixedPoint(t: string)
    requires IsSlug(t)
    ensures Lower(t) == t
    ensures Strip(t) == t
    ensures Collapse(t) == t
    ensures Truncate(t) == t
  {
    FilterKeepsAll(t, IsKept);
    CollapseWithoutSeparators(t);
  }

  /** Slugifying a slug gives it back. */
  lemma SlugifyIdempotent(text: string)
    ensures Slugify(Slugify(text)) == Slugify(text)
  {
    SlugIsFixedPoint(Slugify(text));
  }

  /** The tail " - b" of the example below: each space becomes a `-` beside the existing one. */
  lemma CollapseSpacedHyphen()
    ensures Collapse(" - b") == "---b"
  {
    assert Collapse("b") == "b";
    assert Collapse(" b") == "-b";
    assert Collapse("- b") == "--b";
  }

  /** Step 3 on "a - b". */
  lemma CollapseHyphenExample()
    ensures Collapse("a - b") == "a---b"
  {
    CollapseSpacedHyphen();
  }

  /**
   * Hyphens already in the text are not merged with the runs around them:
   * "a - b" becomes "a---b".
   */
  lemma HyphenRunsKept()
    ensures Slugify("a - b") == "a---b"
  {
    assert Lower("a - b") == "a - b";
    FilterKeepsAll("a - b", IsKept);
    CollapseHyphenExample();
  }
}
