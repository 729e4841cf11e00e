/** Python's string primitives that the engine's text algorithms are written in. */
module Strings {

  /** No character of `s` is `c`. */
  predicate Free(s: string, c: char) {
    forall i :: 0 <= i < |s| ==> s[i] != c
  }

  predicate AllFree(parts: seq<string>, c: char) {
    forall i :: 0 <= i < |parts| ==> Free(parts[i], c)
  }

  /** `s.split(sep)` for a one-character separator: always at least one part. */
  function Split(s: string, sep: char): (parts: seq<string>)
    ensures |parts| >= 1
  {
    if s == "" then
      [""]
    else if s[0] == sep then
      [""] + Split(s[1..], sep)
    else
      var rest := Split(s[1..], sep);
      [[s[0]] + rest[0]] + rest[1..]
  }

  /** `sep.join(parts)`. */
  function Join(parts: seq<string>, sep: char): string {
    if |parts| == 0 then ""
    else if |parts| == 1 then parts[0]
    else parts[0] + [sep] + Join(parts[1..], sep)
  }

  lemma {:induction false} SplitPartsAreFree(s: string, sep: char)
    ensures AllFree(Split(s, sep), sep)
  {
    if s != "" {
      SplitPartsAreFree(s[1..], sep);
    }
  }

  lemma {:induction false} JoinOfSplit(s: string, sep: char)
    ensures Join(Split(s, sep), sep) == s
  {
    if s != "" {
      var rest := Split(s[1..], sep);
      JoinOfSplit(s[1..], sep);
      if s[0] == sep {
        assert ([""] + rest)[1..] == rest;
      } else {
        var parts := [[s[0]] + rest[0]] + rest[1..];
        assert parts[1..] == rest[1..];
      }
    }
  }

  /** Splitting distributes over text combined with the separator. */
  lemma {:induction false} SplitOfConcat(a: string, b: string, sep: char)
    ensures Split(a + [sep] + b, sep) == Split(a, sep) + Split(b, sep)
  {
    var whole := a + [sep] + b;
    if a == "" {
      assert whole[1..] == b;
    } else {
      assert whole[1..] == a[1..] + [sep] + b;
      SplitOfConcat(a[1..], b, sep);
    }
  }

  lemma {:induction false} SplitOfFree(s: string, sep: char)
    requires Free(s, sep)
    ensures Split(s, sep) == [s]
  {
    if s != "" {
      SplitOfFree(s[1..], sep);
      assert s == [s[0]] + s[1..];
    }
  }

  lemma {:induction false} SplitOfJoin(parts: seq<string>, sep: char)
    requires |parts| >= 1 && AllFree(parts, sep)
    ensures Split(Join(parts, sep), sep) == parts
  {
    SplitOfFree(parts[0], sep);
    if |parts| > 1 {
      SplitOfJoin(parts[1..], sep);
      SplitOfConcat(parts[0], Join(parts[1..], sep), sep);
    }
  }

  /** `s.lstrip()`, with the whitespace class left to the caller. */
  function LeftStrip(s: string, space: char -> bool): string {
    if s != "" && space(s[0]) then LeftStrip(s[1..], space) else s
  }

  /** `s.rstrip()`. */
  function RightStrip(s: string, space: char -> bool): string {
    if s != "" && space(s[|s| - 1]) then RightStrip(s[..|s| - 1], space) else s
  }

  /** `s.strip()`. */
  function Strip(s: string, space: char -> bool): string {
    RightStrip(LeftStrip(s, space), space)
  }

  /** Neither end of `s` is whitespace. */
  predicate Trimmed(s: string, space: char -> bool) {
    s == "" || (!space(s[0]) && !space(s[|s| - 1]))
  }

  lemma {:induction false} RightStripKeepsHead(s: string, space: char -> bool)
    requires s != "" && !space(s[0])
    ensures RightStrip(s, space) != "" && RightStrip(s, space)[0] == s[0]
    ensures Trimmed(RightStrip(s, space), space)
  {
    if space(s[|s| - 1]) {
      RightStripKeepsHead(s[..|s| - 1], space);
    }
  }

  lemma {:induction false} LeftStripEnds(s: string, space: char -> bool)
    ensures LeftStrip(s, space) == "" || !space(LeftStrip(s, space)[0])
    ensures LeftStrip(s, space) == "" <==> forall i :: 0 <= i < |s| ==> space(s[i])
  {
    if s != "" && space(s[0]) {
      LeftStripEnds(s[1..], space);
      if LeftStrip(s[1..], space) == "" {
        forall i | 0 <= i < |s| ensures space(s[i]) {
          if i > 0 { assert s[i] == s[1..][i - 1]; }
        }
      }
    }
  }

  /** Stripping leaves trimmed text, and leaves nothing exactly when the text is all whitespace. */
  lemma StripTrims(s: string, space: char -> bool)
    ensures Trimmed(Strip(s, space), space)
    ensures Strip(s, space) == "" <==> forall i :: 0 <= i < |s| ==> space(s[i])
  {
    LeftStripEnds(s, space);
    if LeftStrip(s, space) != "" {
      RightStripKeepsHead(LeftStrip(s, space), space);
    }
  }

  /** Trimmed text is a fixed point of stripping, so stripping is idempotent. */
  lemma StripIdempotent(s: string, space: char -> bool)
    ensures Strip(Strip(s, space), space) == Strip(s, space)
  {
    StripTrims(s, space);
  }

  predicate AllSpace(s: string, space: char -> bool) { forall i :: 0 <= i < |s| ==> space(s[i]) }

  lemma {:induction false} LeftStripOf(pre: string, rest: string, space: char -> bool)
    requires AllSpace(pre, space) && (rest == "" || !space(rest[0]))
    ensures LeftStrip(pre + rest, space) == rest
  {
    if pre == "" {
      assert pre + rest == rest;
    } else {
      assert (pre + rest)[0] == pre[0] && (pre + rest)[1..] == pre[1..] + rest;
      LeftStripOf(pre[1..], rest, space);
    }
  }

  lemma {:induction false} RightStripOf(core: string, post: string, space: char -> bool)
    requires AllSpace(post, space) && (core == "" || !space(core[|core| - 1]))
    ensures RightStrip(core + post, space) == core
  {
    if post == "" {
      assert core + post == core;
    } else {
      var n := |post| - 1;
      assert (core + post)[|core + post| - 1] == post[n] && (core + post)[..|core + post| - 1] == core + post[..n];
      RightStripOf(core, post[..n], space);
    }
  }

  /** Stripping takes the whitespace off both ends, and nothing else. */
  lemma StripExact(pre: string, core: string, post: string, space: char -> bool)
    requires AllSpace(pre, space) && AllSpace(post, space) && Trimmed(core, space)
    ensures Strip(pre + core + post, space) == core
  {
    if core == "" {
      LeftStripOf(pre + post, "", space);
      assert pre + core + post == pre + post + "";
    } else {
      assert pre + core + post == pre + (core + post);
      LeftStripOf(pre, core + post, space);
      RightStripOf(core, post, space);
    }
  }
}
