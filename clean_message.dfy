/** Post-processing of the model's reply: `cleanAIMessage` in
    cmd/lazycommit/main.go. A reply that starts with a code fence loses
    one trailing fence and then one leading fence; whatever is left is
    trimmed of surrounding white space. */
module CleanMessage {
  import opened GoStrings

  /** A Markdown code fence: three backticks. */
  const Fence: string := "```"

  function CleanAIMessage(msg: string): (r: string)
    ensures |r| <= |msg|
    ensures NoEdgeSpace(r)
  {
    TrimSpace(Unwrap(msg))
  }

  /** The fence removal step: only a reply that starts with a fence is
      changed, by dropping a trailing fence and then a leading one. */
  function Unwrap(msg: string): (u: string)
    ensures |u| <= |msg|
    ensures !HasPrefix(msg, Fence) ==> u == msg
    ensures HasPrefix(msg, Fence) && HasSuffix(msg, Fence) && |msg| >= 2 * |Fence| ==>
      Fence + u + Fence == msg
    ensures HasPrefix(msg, Fence) && !HasSuffix(msg, Fence) ==> Fence + u == msg
    ensures HasPrefix(msg, Fence) && HasSuffix(msg, Fence) && |msg| < 2 * |Fence| ==>
      u + Fence == msg
  {
    if HasPrefix(msg, Fence) then TrimPrefix(TrimSuffix(msg, Fence), Fence) else msg
  }

  /** A reply that does not start with a fence is only trimmed: a fence at
      its end alone is kept. */
  lemma UnfencedIsTrimmed(msg: string)
    requires !HasPrefix(msg, Fence)
    ensures CleanAIMessage(msg) == TrimSpace(msg)
  {
  }

  /** A reply wrapped in a pair of fences gives the trimmed text between them. */
  lemma FencedIsUnwrapped(s: string)
    ensures CleanAIMessage(Fence + s + Fence) == TrimSpace(s)
  {
    var msg := Fence + s + Fence;
    assert msg[..|Fence|] == Fence;
    assert msg[|msg| - |Fence|..] == Fence;
    var t := TrimSuffix(msg, Fence);
    assert t == Fence + s;
    assert t[..|Fence|] == Fence;
    assert TrimPrefix(t, Fence) == s;
  }

  /** A reply that opens a fence but does not close it loses the opening
      fence and is trimmed. */
  lemma UnclosedFenceIsUnwrapped(s: string)
    requires !HasSuffix(Fence + s, Fence)
    ensures CleanAIMessage(Fence + s) == TrimSpace(s)
  {
    assert (Fence + s)[..|Fence|] == Fence;
    assert TrimPrefix(Fence + s, Fence) == s;
  }

  /** `r` is a contiguous piece of `s`. */
  ghost predicate IsSliceOf(r: string, s: string) {
    exists i, j :: 0 <= i <= j <= |s| && r == s[i..j]
  }

  /** A piece of a piece is a piece. */
  lemma SliceOfSlice(r: string, t: string, s: string)
    requires IsSliceOf(r, t) && IsSliceOf(t, s)
    ensures IsSliceOf(r, s)
  {
    var i, j :| 0 <= i <= j <= |t| && r == t[i..j];
    var a, b :| 0 <= a <= b <= |s| && t == s[a..b];
    forall k | 0 <= k < |r|
      ensures r[k] == s[a + i..a + j][k]
    {
      assert r[k] == t[i + k];
    }
    assert r == s[a + i..a + j];
  }

  /** Removing the fences leaves a contiguous piece of the reply. */
  lemma UnwrapIsSlice(msg: string)
    ensures IsSliceOf(Unwrap(msg), msg)
  {
    if HasPrefix(msg, Fence) {
      var b := if HasSuffix(msg, Fence) then |msg| - |Fence| else |msg|;
      assert TrimSuffix(msg, Fence) == msg[..b];
      var a := if HasPrefix(msg[..b], Fence) then |Fence| else 0;
      assert TrimPrefix(msg[..b], Fence) == msg[..b][a..];
      assert msg[..b][a..] == msg[a..b];
    } else {
      assert msg == msg[0..|msg|];
    }
  }

  /** Trimming the front leaves a contiguous piece of the text. */
  lemma TrimLeftSpaceIsSlice(u: string)
    ensures IsSliceOf(TrimLeftSpace(u), u)
  {
    var r := TrimLeftSpace(u);
    assert r == u[|u| - |r|..|u|];
  }

  /** Trimming the back leaves a contiguous piece of the text. */
  lemma TrimRightSpaceIsSlice(u: string)
    ensures IsSliceOf(TrimRightSpace(u), u)
  {
    var r := TrimRightSpace(u);
    assert r == u[0..|r|];
  }

  /** Trimming leaves a contiguous piece of the text. */
  lemma TrimSpaceIsSlice(u: string)
    ensures IsSliceOf(TrimSpace(u), u)
  {
    TrimLeftSpaceIsSlice(u);
    TrimRightSpaceIsSlice(TrimLeftSpace(u));
    SliceOfSlice(TrimSpace(u), TrimLeftSpace(u), u);
  }

  /** The result is a contiguous piece of the reply, so it is never longer
      than the reply. */
  lemma CleanIsSubstring(msg: string)
    ensures exists i, j :: 0 <= i <= j <= |msg| && CleanAIMessage(msg) == msg[i..j]
  {
    UnwrapIsSlice(msg);
    TrimSpaceIsSlice(Unwrap(msg));
    SliceOfSlice(CleanAIMessage(msg), Unwrap(msg), msg);
  }

  /** A reply made of a bare fence cleans to the empty message. */
  lemma BareFenceIsEmpty()
    ensures CleanAIMessage("```") == ""
  {
    assert HasPrefix("```", Fence);
    assert TrimSuffix("```", Fence) == "";
  }

  /** Four backticks: the trailing fence is removed first, which leaves a
      single backtick that no longer starts with a fence and is kept. */
  lemma FourBackticksKeepOne()
    ensures CleanAIMessage("````") == "`"
  {
    assert HasPrefix("````", Fence);
    assert "````"[1..] == Fence;
    assert TrimSuffix("````", Fence) == "`";
    assert !HasPrefix("`", Fence);
    assert TrimSpace("`") == "`";
  }

  /** A fence only at the end stays: a reply such as "fix```", which
      starts with neither a backtick nor white space, is kept as it is. */
  lemma TrailingFenceOnlyIsKept(s: string)
    requires s != [] && s[0] != '`' && !IsSpace(s[0])
    ensures CleanAIMessage(s + Fence) == s + Fence
  {
    var msg := s + Fence;
    assert msg[0] == s[0];
    assert !HasPrefix(msg, Fence) by {
      assert msg[..|Fence|][0] == msg[0];
    }
    assert msg[|msg| - 1] == '`';
    NoEdgeSpaceIsFixed(msg);
  }

  /** With a newline behind the closing fence, the fence removal step
      drops only the opening fence. */
  lemma NewlineAfterFenceUnwrapsOpeningOnly(s: string)
    ensures Unwrap(Fence + s + Fence + "\n") == s + Fence + "\n"
  {
    var body := s + Fence + "\n";
    var msg := Fence + s + Fence + "\n";
    assert msg == Fence + body;
    assert msg[..|Fence|] == Fence;
    assert msg[|msg| - |Fence|..][|Fence| - 1] == '\n';
  }

  /** Trimming white space, then a text `t` that does not start with white
      space, then a closing part without white space at its edges (such as
      a fence), then white space, keeps `t` and the closing part. */
  lemma TrimSpaceKeepsClosingFence(pre: string, t: string, close: string, post: string)
    requires SpaceOnly(pre) && (t == [] || !IsSpace(t[0]))
    requires close != [] && NoEdgeSpace(close) && SpaceOnly(post)
    ensures TrimSpace(pre + t + close + post) == t + close
  {
    var mid := t + close;
    assert pre + t + close + post == pre + mid + post;
    assert mid[0] == if t == [] then close[0] else t[0];
    assert mid[|mid| - 1] == close[|close| - 1];
    TrimSpaceUnique(pre, mid, post);
  }

  /** The trailing fence is looked for before white space is trimmed, so a
      closing fence followed by a newline survives: only the opening fence
      and the white space around the text are removed. */
  lemma NewlineAfterClosingFenceKeepsIt(pre: string, t: string)
    requires SpaceOnly(pre) && (t == [] || !IsSpace(t[0]))
    ensures CleanAIMessage(Fence + (pre + t) + Fence + "\n") == t + Fence
  {
    NewlineAfterFenceUnwrapsOpeningOnly(pre + t);
    assert SpaceOnly("\n");
    TrimSpaceKeepsClosingFence(pre, t, Fence, "\n");
  }

  /** Cleaning is not idempotent: a reply fenced twice loses only the
      outer pair, and cleaning it again removes the inner pair as well. */
  lemma DoubleFenceLosesOuterPair(s: string)
    ensures CleanAIMessage(Fence + (Fence + s + Fence) + Fence) == Fence + s + Fence
    ensures CleanAIMessage(CleanAIMessage(Fence + (Fence + s + Fence) + Fence)) == TrimSpace(s)
  {
    var inner := Fence + s + Fence;
    FencedIsUnwrapped(inner);
    assert inner[0] == '`' && inner[|inner| - 1] == '`';
    NoEdgeSpaceIsFixed(inner);
    FencedIsUnwrapped(s);
  }

  /** A text without white space at its edges is left alone by TrimSpace. */
  lemma NoEdgeSpaceIsFixed(t: string)
    requires NoEdgeSpace(t)
    ensures TrimSpace(t) == t
  {
    assert [] + t + [] == t;
    TrimSpaceUnique([], t, []);
  }
}
