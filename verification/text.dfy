/** Whitespace trimming as done by Rust's `str::trim`, which the menu loop
    applies to every line it reads (the menu choice, the title, the id and
    the status choice). `trim` strips, from both ends, every character that
    has the Unicode White_Space property. */
module Text {

  /** The Unicode White_Space property. */
  predicate IsWhitespace(c: char) {
    var n := c as int;
    || (0x09 <= n <= 0x0D)
    || n == 0x20
    || n == 0x85
    || n == 0xA0
    || n == 0x1680
    || (0x2000 <= n <= 0x200A)
    || n == 0x2028
    || n == 0x2029
    || n == 0x202F
    || n == 0x205F
    || n == 0x3000
  }

  predicate AllWhitespace(s: string) {
    forall k :: 0 <= k < |s| ==> IsWhitespace(s[k])
  }

  /** Neither end of `s` is whitespace: the shape of anything `trim` returns. */
  predicate Trimmed(s: string) {
    |s| == 0 || (!IsWhitespace(s[0]) && !IsWhitespace(s[|s| - 1]))
  }

  /** The first position at or after `i` that is not whitespace, or `|s|`. */
  function SkipLeading(s: string, i: nat): (r: nat)
    requires i <= |s|
    ensures i <= r <= |s|
    ensures forall k :: i <= k < r ==> IsWhitespace(s[k])
    ensures r < |s| ==> !IsWhitespace(s[r])
    decreases |s| - i
  {
    if i == |s| || !IsWhitespace(s[i]) then i else SkipLeading(s, i + 1)
  }

  /** The end position `r` in `[lo, j]` such that `s[r..j]` is whitespace and
      the character before `r`, if `r` is past `lo`, is not. */
  function SkipTrailing(s: string, lo: nat, j: nat): (r: nat)
    requires lo <= j <= |s|
    ensures lo <= r <= j
    ensures forall k :: r <= k < j ==> IsWhitespace(s[k])
    ensures lo < r ==> !IsWhitespace(s[r - 1])
    decreases j
  {
    if j == lo || !IsWhitespace(s[j - 1]) then j else SkipTrailing(s, lo, j - 1)
  }

  /** The slice `trim` keeps: everything before it and after it is
      whitespace, and the slice itself neither starts nor ends with any. */
  function TrimBounds(s: string): (b: (nat, nat))
    ensures b.0 <= b.1 <= |s|
    ensures AllWhitespace(s[..b.0]) && AllWhitespace(s[b.1..])
    ensures Trimmed(s[b.0..b.1])
  {
    var i := SkipLeading(s, 0);
    var j := SkipTrailing(s, i, |s|);
    assert forall k :: 0 <= k < i ==> s[..i][k] == s[k];
    assert forall k :: 0 <= k < |s| - j ==> s[j..][k] == s[j + k];
    (i, j)
  }

  /** `str::trim`. A line of nothing but whitespace, such as the bare
      newline `read_line` returns for an empty answer, trims to "". */
  function Trim(s: string): (r: string)
    ensures Trimmed(r)
    ensures r == [] <==> AllWhitespace(s)
  {
    var b := TrimBounds(s);
    s[b.0..b.1]
  }

  /** `trim` strips exactly the surrounding whitespace: together with
      `TrimBounds` this characterises `Trim` completely. */
  lemma {:induction false} TrimPadded(pre: string, t: string, post: string)
    requires AllWhitespace(pre) && Trimmed(t) && AllWhitespace(post)
    ensures Trim(pre + t + post) == t
  {
    var s := pre + t + post;
    var b := TrimBounds(s);
    if |t| == 0 {
      assert forall k :: 0 <= k < |s| ==> IsWhitespace(s[k]) by {
        forall k | 0 <= k < |s|
          ensures IsWhitespace(s[k])
        {
          if k < |pre| {
            assert s[k] == pre[k];
          } else {
            assert s[k] == post[k - |pre|];
          }
        }
      }
      assert b.0 == |s|;
    } else {
      assert s[|pre|] == t[0];
      assert s[|pre| + |t| - 1] == t[|t| - 1];
      assert b.0 == |pre|;
      assert b.1 == |pre| + |t|;
      assert s[b.0..b.1] == t;
    }
  }

  lemma TrimTrimmed(s: string)
    requires Trimmed(s)
    ensures Trim(s) == s
  {
  }

}
