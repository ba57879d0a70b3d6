/**
 * String operations the source gets from JavaScript: `split(' ')`, the tag-stripping
 * replace `/<[^>]*>?/gm`, the `\s` class of regular expressions, `toLowerCase` and
 * `toUpperCase` (on ASCII letters) and the truncating `%` operator.
 */
module Text {

  /** The characters `\s` matches in a JavaScript regular expression. */
  predicate IsJsSpace(c: char) {
    || c == '\t' || c == '\n' || c == '\U{000B}' || c == '\U{000C}' || c == '\r' || c == ' '
    || c == '\U{00A0}' || c == '\U{1680}' || ('\U{2000}' <= c <= '\U{200A}')
    || c == '\U{2028}' || c == '\U{2029}' || c == '\U{202F}' || c == '\U{205F}'
    || c == '\U{3000}' || c == '\U{FEFF}'
  }

  function LowerChar(c: char): char {
    if 'A' <= c <= 'Z' then (c as int + 32) as char else c
  }

  function UpperChar(c: char): char {
    if 'a' <= c <= 'z' then (c as int - 32) as char else c
  }

  /** `s.toLowerCase()` restricted to ASCII letters. */
  function Lower(s: string): string {
    seq(|s|, i requires 0 <= i < |s| => LowerChar(s[i]))
  }

  /** `s.toUpperCase()` restricted to ASCII letters. */
  function Upper(s: string): string {
    seq(|s|, i requires 0 <= i < |s| => UpperChar(s[i]))
  }

  /** The concatenation of a list of strings (`parts.join("")`). */
  function Concat(parts: seq<string>): string {
    if parts == [] then "" else parts[0] + Concat(parts[1..])
  }

  lemma {:induction false} ConcatAppend(a: seq<string>, b: seq<string>)
    ensures Concat(a + b) == Concat(a) + Concat(b)
  {
    if a != [] {
      assert (a + b)[1..] == a[1..] + b;
      ConcatAppend(a[1..], b);
    } else {
      assert a + b == b;
    }
  }

  /** `s.split(sep)` for a one-character separator: every occurrence splits, so there is always one more part than separators. */
  function Split(s: string, sep: char): (parts: seq<string>)
    ensures |parts| >= 1
    decreases |s|
  {
    if s == [] then [""]
    else if s[0] == sep then [""] + Split(s[1..], sep)
    else
      var rest := Split(s[1..], sep);
      [[s[0]] + rest[0]] + rest[1..]
  }

  /** `parts.join(sep)`. */
  function Join(parts: seq<string>, sep: char): string
  {
    if parts == [] then ""
    else if |parts| == 1 then parts[0]
    else parts[0] + [sep] + Join(parts[1..], sep)
  }

  /** Splitting and joining again gives the original string back. */
  lemma {:induction false} JoinSplit(s: string, sep: char)
    ensures Join(Split(s, sep), sep) == s
    decreases |s|
  {
    if s == [] {
    } else if s[0] == sep {
      JoinSplit(s[1..], sep);
      assert s == [sep] + s[1..];
    } else {
      var rest := Split(s[1..], sep);
      JoinSplit(s[1..], sep);
      if |rest| == 1 {
        assert s == [s[0]] + s[1..];
      } else {
        assert Join(rest, sep) == rest[0] + [sep] + Join(rest[1..], sep);
        assert s == [s[0]] + s[1..];
      }
    }
  }

  /** No part of a split contains the separator. */
  lemma {:induction false} SplitPartsLackSeparator(s: string, sep: char)
    ensures forall k :: 0 <= k < |Split(s, sep)| ==> sep !in Split(s, sep)[k]
    decreases |s|
  {
    if s != [] {
      SplitPartsLackSeparator(s[1..], sep);
    }
  }

  /** A string without the separator is one part. */
  lemma {:induction false} SplitWithoutSeparator(s: string, sep: char)
    requires sep !in s
    ensures Split(s, sep) == [s]
    decreases |s|
  {
    if s != [] {
      assert s[1..] == s[1..] && forall c :: c in s[1..] ==> c in s;
      SplitWithoutSeparator(s[1..], sep);
      assert [s[0]] + s[1..] == s;
    }
  }

  /** The first separator ends the first part. */
  lemma {:induction false} SplitAtFirstSeparator(a: string, b: string, sep: char)
    requires sep !in a
    ensures Split(a + [sep] + b, sep) == [a] + Split(b, sep)
    decreases |a|
  {
    var s := a + [sep] + b;
    if a == [] {
      assert s[1..] == b;
    } else {
      assert s[1..] == a[1..] + [sep] + b;
      assert forall c :: c in a[1..] ==> c in a;
      SplitAtFirstSeparator(a[1..], b, sep);
      assert [a[0]] + a[1..] == a;
    }
  }

  /** Every character of a part is a character of the split string. */
  lemma {:induction false} SplitPartsWithin(s: string, sep: char)
    ensures forall k, c :: 0 <= k < |Split(s, sep)| && c in Split(s, sep)[k] ==> c in s
    decreases |s|
  {
    if s != [] {
      SplitPartsWithin(s[1..], sep);
      assert forall c :: c in s[1..] ==> c in s;
    }
  }

  /** The rest of a string after an opening `<`: everything up to and including the first `>`, or all of it. */
  function SkipTag(s: string): (rest: string)
    ensures |rest| <= |s| && rest == s[|s| - |rest|..]
  {
    if s == [] then []
    else if s[0] == '>' then s[1..]
    else SkipTag(s[1..])
  }

  /**
   * `s.replace(/<[^>]*>?/gm, '')`: every `<` starts a match that runs to the next `>` inclusive,
   * or to the end of the string when there is none.
   */
  function StripTags(s: string): string
    decreases |s|
  {
    if s == [] then []
    else if s[0] == '<' then StripTags(SkipTag(s[1..]))
    else [s[0]] + StripTags(s[1..])
  }

  /** Stripping leaves no `<`, and never adds characters. */
  lemma {:induction false} StripTagsRemovesOpenings(s: string)
    ensures '<' !in StripTags(s)
    ensures |StripTags(s)| <= |s|
    decreases |s|
  {
    if s == [] {
    } else if s[0] == '<' {
      StripTagsRemovesOpenings(SkipTag(s[1..]));
    } else {
      StripTagsRemovesOpenings(s[1..]);
    }
  }

  /** Stripping only removes characters: whatever remains was in the input. */
  lemma {:induction false} StripTagsKeepsOwnChars(s: string)
    ensures forall c :: c in StripTags(s) ==> c in s
    decreases |s|
  {
    if s == [] {
    } else if s[0] == '<' {
      var rest := SkipTag(s[1..]);
      StripTagsKeepsOwnChars(rest);
      assert forall c :: c in rest ==> c in s[1..];
    } else {
      StripTagsKeepsOwnChars(s[1..]);
    }
  }

  /** A string without `<` is left as it is. */
  lemma {:induction false} StripTagsKeepsPlainText(s: string)
    requires '<' !in s
    ensures StripTags(s) == s
    decreases |s|
  {
    if s != [] {
      assert s[0] in s;
      assert forall c :: c in s[1..] ==> c in s;
      StripTagsKeepsPlainText(s[1..]);
    }
  }

  /** A prefix without `<` passes through untouched. */
  lemma {:induction false} StripTagsPlainPrefix(a: string, b: string)
    requires '<' !in a
    ensures StripTags(a + b) == a + StripTags(b)
    decreases |a|
  {
    if a != [] {
      assert (a + b)[0] == a[0] && (a + b)[1..] == a[1..] + b;
      assert forall c :: c in a[1..] ==> c in a;
      StripTagsPlainPrefix(a[1..], b);
      assert [a[0]] + a[1..] == a;
    } else {
      assert a + b == b;
    }
  }

  /** A tag that is never closed swallows the rest of the string. */
  lemma {:induction false} SkipTagUnclosed(s: string)
    requires '>' !in s
    ensures SkipTag(s) == []
  {
    if s != [] {
      assert forall c :: c in s[1..] ==> c in s;
      SkipTagUnclosed(s[1..]);
    }
  }

  /** A tag runs through its first `>` and no further. */
  lemma {:induction false} SkipTagThroughClose(a: string, b: string)
    requires '>' !in a
    ensures SkipTag(a + ['>'] + b) == b
  {
    if a == [] {
      assert a + ['>'] + b == ['>'] + b;
    } else {
      assert (a + ['>'] + b)[0] == a[0];
      assert (a + ['>'] + b)[1..] == a[1..] + ['>'] + b;
      assert forall c :: c in a[1..] ==> c in a;
      SkipTagThroughClose(a[1..], b);
    }
  }

  /** A whole tag at the front is removed and stripping goes on after it. */
  lemma StripTagsOfTag(inner: string, b: string)
    requires '>' !in inner
    ensures StripTags(['<'] + inner + ['>'] + b) == StripTags(b)
  {
    var s := ['<'] + inner + ['>'] + b;
    assert s[0] == '<' && s[1..] == inner + ['>'] + b;
    SkipTagThroughClose(inner, b);
  }

  /** An opening `<` that is never closed removes everything after it. */
  lemma StripTagsOfUnclosed(inner: string)
    requires '>' !in inner
    ensures StripTags(['<'] + inner) == []
  {
    var s := ['<'] + inner;
    assert s[0] == '<' && s[1..] == inner;
    SkipTagUnclosed(inner);
  }

  /** Stripping twice is stripping once. */
  lemma StripTagsIdempotent(s: string)
    ensures StripTags(StripTags(s)) == StripTags(s)
  {
    StripTagsRemovesOpenings(s);
    StripTagsKeepsPlainText(StripTags(s));
  }

  /** JavaScript's `a % n` for a positive modulus: the result takes the sign of `a`. */
  function JsRemainder(a: int, n: nat): (r: int)
    requires n > 0
    ensures a >= 0 ==> 0 <= r < n
    ensures a < 0 ==> -(n as int) < r <= 0
    ensures (a - r) % n == 0
  {
    if a >= 0 then
      RemainderLeavesMultiple(a, n);
      a % n
    else
      RemainderLeavesMultiple(-a, n);
      NegatedMultiple(-a - (-a) % n, n);
      -((-a) % n)
  }

  /** Taking away the remainder leaves a multiple. */
  lemma RemainderLeavesMultiple(a: int, n: nat)
    requires n > 0
    ensures (a - a % n) % n == 0
  {
    var k := a / n;
    assert a - a % n == n * k;
    MultipleHasNoRemainder(n, k);
  }

  /** The negation of a multiple is a multiple. */
  lemma NegatedMultiple(x: int, n: nat)
    requires n > 0 && x % n == 0
    ensures (-x) % n == 0
  {
    var k := x / n;
    assert x == n * k;
    assert -x == n * -k;
    MultipleHasNoRemainder(n, -k);
  }

  /** A multiple of `n` leaves no remainder. */
  lemma MultipleHasNoRemainder(n: nat, q: int)
    requires n > 0
    ensures (n * q) % n == 0
  {
    var x := n * q;
    var d := q - x / n;
    assert x % n == n * d by {
      assert x == n * (x / n) + x % n;
    }
    if d >= 1 {
      ProductAtLeastFactor(n, d);
    } else if d <= -1 {
      ProductAtMostNegatedFactor(n, d);
    }
  }

  lemma {:induction false} ProductAtMostNegatedFactor(n: nat, d: int)
    requires d <= -1
    ensures n * d <= -(n as int)
    decreases -d
  {
    if d < -1 {
      ProductAtMostNegatedFactor(n, d + 1);
      assert n * d == n * (d + 1) - n;
    }
  }

  lemma {:induction false} ProductAtLeastFactor(n: nat, d: int)
    requires d >= 1
    ensures n * d >= n
    decreases d
  {
    if d > 1 {
      ProductAtLeastFactor(n, d - 1);
      assert n * d == n * (d - 1) + n;
    }
  }
}
