/** particles/sql_safety.py: escaping user text for a SQL LIKE pattern. */
module LikePattern {

  const LIKE_ESCAPE: char := '\\'

  /** `s.replace(c, with)` for a one-character needle. */
  function Replace(s: string, c: char, with: string): string {
    if s == "" then "" else (if s[0] == c then with else [s[0]]) + Replace(s[1..], c, with)
  }

  /** The three chained replacements, the escape character first. */
  function EscapeLikePattern(value: string): string {
    Replace(Replace(Replace(value, LIKE_ESCAPE, [LIKE_ESCAPE, LIKE_ESCAPE]),
                    '%', [LIKE_ESCAPE, '%']),
            '_', [LIKE_ESCAPE, '_'])
  }

  predicate Special(c: char) {
    c == LIKE_ESCAPE || c == '%' || c == '_'
  }

  /** The reference escaper: one pass, each special character prefixed once. */
  function EscapeOnePass(s: string): string {
    if s == "" then "" else (if Special(s[0]) then [LIKE_ESCAPE, s[0]] else [s[0]]) + EscapeOnePass(s[1..])
  }

  /** SQL `subject LIKE pattern ESCAPE '\'`, over the backend's character equality.
      A trailing lone escape character matches nothing. */
  ghost predicate Like(pattern: string, subject: string, same: (char, char) -> bool)
    decreases |pattern| + |subject|
  {
    if pattern == "" then
      subject == ""
    else if pattern[0] == LIKE_ESCAPE then
      |pattern| > 1 && subject != "" && same(pattern[1], subject[0]) && Like(pattern[2..], subject[1..], same)
    else if pattern[0] == '%' then
      Like(pattern[1..], subject, same) || (subject != "" && Like(pattern, subject[1..], same))
    else if pattern[0] == '_' then
      subject != "" && Like(pattern[1..], subject[1..], same)
    else
      subject != "" && same(pattern[0], subject[0]) && Like(pattern[1..], subject[1..], same)
  }

  ghost predicate SamePrefix(value: string, subject: string, same: (char, char) -> bool) {
    |value| <= |subject| && forall i :: 0 <= i < |value| ==> same(value[i], subject[i])
  }

  ghost predicate SameText(value: string, subject: string, same: (char, char) -> bool) {
    |value| == |subject| && SamePrefix(value, subject, same)
  }

  lemma {:induction false} ReplaceOfConcat(a: string, b: string, c: char, with: string)
    ensures Replace(a + b, c, with) == Replace(a, c, with) + Replace(b, c, with)
  {
    if a == "" {
      assert a + b == b;
    } else {
      assert (a + b)[1..] == a[1..] + b;
      ReplaceOfConcat(a[1..], b, c, with);
    }
  }

  lemma ReplaceOne(x: char, c: char, with: string)
    ensures Replace([x], c, with) == if x == c then with else [x]
  {
    assert [x][1..] == "";
  }

  lemma ReplaceTwo(x: char, y: char, c: char, with: string)
    ensures Replace([x, y], c, with) == (if x == c then with else [x]) + (if y == c then with else [y])
  {
    assert [x, y] == [x] + [y];
    ReplaceOfConcat([x], [y], c, with);
    ReplaceOne(x, c, with);
    ReplaceOne(y, c, with);
  }

  lemma EscapeOne(x: char)
    ensures EscapeLikePattern([x]) == EscapeOnePass([x])
  {
    var e := LIKE_ESCAPE;
    ReplaceOne(x, e, [e, e]);
    if x == e {
      ReplaceTwo(e, e, '%', [e, '%']);
      ReplaceTwo(e, e, '_', [e, '_']);
    } else {
      ReplaceOne(x, '%', [e, '%']);
      ReplaceOne(x, '_', [e, '_']);
      ReplaceTwo(e, '%', '_', [e, '_']);
    }
    assert [x][1..] == "";
  }

  /** The chained replacements never re-escape one another's output. */
  lemma {:induction false} ChainedIsOnePass(value: string)
    ensures EscapeLikePattern(value) == EscapeOnePass(value)
  {
    if value != "" {
      var e, head, tail := LIKE_ESCAPE, value[..1], value[1..];
      assert value == head + tail;
      var h1, t1 := Replace(head, e, [e, e]), Replace(tail, e, [e, e]);
      ReplaceOfConcat(head, tail, e, [e, e]);
      ReplaceOfConcat(h1, t1, '%', [e, '%']);
      ReplaceOfConcat(Replace(h1, '%', [e, '%']), Replace(t1, '%', [e, '%']), '_', [e, '_']);
      EscapeOne(value[0]);
      assert head == [value[0]] && head[1..] == "";
      ChainedIsOnePass(tail);
    }
  }

  /** One escaped character consumes exactly one equal character of the subject. */
  lemma LikeStep(c: char, rest: string, subject: string, same: (char, char) -> bool)
    ensures Like(EscapeOnePass([c]) + rest, subject, same)
       <==> subject != "" && same(c, subject[0]) && Like(rest, subject[1..], same)
  {
    assert [c][1..] == "";
    if Special(c) {
      assert EscapeOnePass([c]) == [LIKE_ESCAPE, c];
      assert ([LIKE_ESCAPE, c] + rest)[2..] == rest;
    } else {
      assert ([c] + rest)[1..] == rest;
    }
  }

  lemma {:induction false} LikePeels(value: string, rest: string, subject: string, same: (char, char) -> bool)
    ensures Like(EscapeOnePass(value) + rest, subject, same)
       <==> SamePrefix(value, subject, same) && Like(rest, subject[|value|..], same)
  {
    if value == "" {
      assert EscapeOnePass(value) + rest == rest && subject[0..] == subject;
    } else {
      var tail := EscapeOnePass(value[1..]) + rest;
      assert [value[0]][1..] == "";
      assert EscapeOnePass(value) + rest == EscapeOnePass([value[0]]) + tail;
      LikeStep(value[0], tail, subject, same);
      if subject != "" {
        LikePeels(value[1..], rest, subject[1..], same);
        assert SamePrefix(value, subject, same)
          <==> same(value[0], subject[0]) && SamePrefix(value[1..], subject[1..], same) by {
          if same(value[0], subject[0]) && SamePrefix(value[1..], subject[1..], same) {
            forall i | 0 <= i < |value| ensures same(value[i], subject[i]) {
              if i > 0 { assert value[i] == value[1..][i - 1] && subject[i] == subject[1..][i - 1]; }
            }
          }
        }
        if |value| <= |subject| {
          assert subject[1..][|value[1..]|..] == subject[|value|..];
        }
      }
    }
  }

  lemma {:induction false} PercentMatchesAll(subject: string, same: (char, char) -> bool)
    ensures Like("%", subject, same)
  {
    assert "%"[1..] == "";
    if subject != "" {
      PercentMatchesAll(subject[1..], same);
    }
  }

  /** The escaped value matches exactly the text equal to it, whatever equality the backend uses. */
  lemma EscapedMatchesExactly(value: string, subject: string, same: (char, char) -> bool)
    ensures Like(EscapeLikePattern(value), subject, same) <==> SameText(value, subject, same)
  {
    ChainedIsOnePass(value);
    LikePeels(value, "", subject, same);
    assert EscapeOnePass(value) + "" == EscapeOnePass(value);
  }

  /** The escaped value followed by `%` matches exactly the subjects it prefixes. */
  lemma EscapedPrefixMatchesExactly(value: string, subject: string, same: (char, char) -> bool)
    ensures Like(EscapeLikePattern(value) + "%", subject, same) <==> SamePrefix(value, subject, same)
  {
    ChainedIsOnePass(value);
    LikePeels(value, "%", subject, same);
    if |value| <= |subject| {
      PercentMatchesAll(subject[|value|..], same);
    }
  }

  /** Two values with one escaped form are one value. */
  lemma EscapeInjective(a: string, b: string)
    requires EscapeLikePattern(a) == EscapeLikePattern(b)
    ensures a == b
  {
    var same := (x: char, y: char) => x == y;
    EscapedMatchesExactly(a, a, same);
    EscapedMatchesExactly(b, a, same);
  }
}
