/** The part of Go's `strings` package that the front end relies on:
    prefix and suffix tests and removal, and `TrimSpace`.
    Go strings are byte strings; every character these operations look for
    (the backtick and ASCII white space) is a single byte in UTF-8, so
    working on characters gives the same results. */
module GoStrings {

  /** White space as `TrimSpace` sees it in this model: the six ASCII
      characters space, tab, newline, carriage return, vertical tab and
      form feed. Go also treats Unicode spaces such as U+0085 and U+00A0
      as white space; those are not modelled. */
  predicate IsSpace(c: char) {
    c == ' ' || c == '\t' || c == '\n' || c == '\r' || c == '\U{B}' || c == '\U{C}'
  }

  /** Every character of `t` is white space. */
  predicate SpaceOnly(t: string) {
    forall k :: 0 <= k < |t| ==> IsSpace(t[k])
  }

  /** `t` neither starts nor ends with white space. */
  predicate NoEdgeSpace(t: string) {
    t == [] || (!IsSpace(t[0]) && !IsSpace(t[|t| - 1]))
  }

  /** strings.HasPrefix */
  predicate HasPrefix(s: string, prefix: string)
    ensures HasPrefix(s, prefix) <==> |prefix| <= |s| && prefix + s[|prefix|..] == s
  {
    |prefix| <= |s| && s[..|prefix|] == prefix
  }

  /** strings.HasSuffix */
  predicate HasSuffix(s: string, suffix: string)
    ensures HasSuffix(s, suffix) <==> |suffix| <= |s| && s[..|s| - |suffix|] + suffix == s
  {
    |suffix| <= |s| && s[|s| - |suffix|..] == suffix
  }

  /** strings.TrimPrefix: `s` without the leading `prefix`, or `s` itself
      when it does not start with `prefix`. */
  function TrimPrefix(s: string, prefix: string): (r: string)
    ensures HasPrefix(s, prefix) ==> prefix + r == s
    ensures !HasPrefix(s, prefix) ==> r == s
  {
    if HasPrefix(s, prefix) then s[|prefix|..] else s
  }

  /** strings.TrimSuffix: `s` without the trailing `suffix`, or `s` itself
      when it does not end with `suffix`. */
  function TrimSuffix(s: string, suffix: string): (r: string)
    ensures HasSuffix(s, suffix) ==> r + suffix == s
    ensures !HasSuffix(s, suffix) ==> r == s
  {
    if HasSuffix(s, suffix) then s[..|s| - |suffix|] else s
  }

  /** The leading white space of `s` removed: what is dropped is white
      space only, and what is kept is a suffix of `s` that does not start
      with white space. */
  function TrimLeftSpace(s: string): (r: string)
    ensures |r| <= |s| && s == s[..|s| - |r|] + r
    ensures SpaceOnly(s[..|s| - |r|])
    ensures r == [] || !IsSpace(r[0])
  {
    if |s| > 0 && IsSpace(s[0]) then TrimLeftSpace(s[1..]) else s
  }

  /** The trailing white space of `s` removed: what is dropped is white
      space only, and what is kept is a prefix of `s` that does not end
      with white space. */
  function TrimRightSpace(s: string): (r: string)
    ensures |r| <= |s| && s == r + s[|r|..]
    ensures SpaceOnly(s[|r|..])
    ensures r == [] || !IsSpace(r[|r| - 1])
  {
    if |s| > 0 && IsSpace(s[|s| - 1]) then TrimRightSpace(s[..|s| - 1]) else s
  }

  /** strings.TrimSpace (for the white space of IsSpace). */
  function TrimSpace(s: string): (r: string)
    ensures |r| <= |s|
    ensures NoEdgeSpace(r)
  {
    TrimRightSpace(TrimLeftSpace(s))
  }

  /** Leading white space in front of a part that does not start with
      white space is exactly what TrimLeftSpace removes. */
  lemma {:induction false} TrimLeftSpaceSkips(pre: string, t: string)
    requires SpaceOnly(pre)
    requires t == [] || !IsSpace(t[0])
    ensures TrimLeftSpace(pre + t) == t
  {
    if pre != [] {
      assert (pre + t)[1..] == pre[1..] + t;
      TrimLeftSpaceSkips(pre[1..], t);
    } else {
      assert pre + t == t;
    }
  }

  /** Trailing white space behind a part that does not end with white
      space is exactly what TrimRightSpace removes. */
  lemma {:induction false} TrimRightSpaceSkips(t: string, post: string)
    requires SpaceOnly(post)
    requires t == [] || !IsSpace(t[|t| - 1])
    ensures TrimRightSpace(t + post) == t
  {
    if post != [] {
      var n := |post| - 1;
      assert (t + post)[..|t + post| - 1] == t + post[..n];
      TrimRightSpaceSkips(t, post[..n]);
    } else {
      assert t + post == t;
    }
  }

  /** TrimSpace is determined by its characterisation: whenever `s` is
      white space, then a part without white space at its edges, then
      white space, TrimSpace returns that part. */
  lemma TrimSpaceUnique(pre: string, mid: string, post: string)
    requires SpaceOnly(pre) && SpaceOnly(post) && NoEdgeSpace(mid)
    ensures TrimSpace(pre + mid + post) == mid
  {
    if mid == [] {
      assert pre + mid + post == pre + post;
      assert SpaceOnly(pre + post);
      TrimLeftSpaceSkips(pre + post, []);
      assert pre + post + [] == pre + post;
    } else {
      assert pre + mid + post == pre + (mid + post);
      TrimLeftSpaceSkips(pre, mid + post);
      TrimRightSpaceSkips(mid, post);
    }
  }

  /** Trimming twice trims no more than trimming once. */
  lemma TrimSpaceIdempotent(s: string)
    ensures TrimSpace(TrimSpace(s)) == TrimSpace(s)
  {
  }
}
