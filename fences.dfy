/**
 * The clean-up applied to the generator's raw reply before `JSON.parse` (App.tsx):
 * `.replace(/^```json\s*\/i, "").replace(/^```\s*\/i, "").replace(/\s*```$/, "")`.
 */
module Fences {
  import opened Text

  const Fence: string := "```"

  predicate StartsWithFence(s: string) {
    |s| >= 3 && s[..3] == Fence
  }

  predicate EndsWithFence(s: string) {
    |s| >= 3 && s[|s| - 3..] == Fence
  }

  /** `\s*` at the start of a string: the string without its leading white space. */
  function DropLeadingSpaces(s: string): (r: string)
    ensures |r| <= |s| && r == s[|s| - |r|..]
    ensures r == [] || !IsJsSpace(r[0])
    ensures forall i :: 0 <= i < |s| - |r| ==> IsJsSpace(s[i])
  {
    if s != [] && IsJsSpace(s[0]) then DropLeadingSpaces(s[1..]) else s
  }

  /** `\s*` before the end of a string: the string without its trailing white space. */
  function DropTrailingSpaces(s: string): (r: string)
    ensures |r| <= |s| && r == s[..|r|]
    ensures r == [] || !IsJsSpace(r[|r| - 1])
    ensures forall i :: |r| <= i < |s| ==> IsJsSpace(s[i])
  {
    if s != [] && IsJsSpace(s[|s| - 1]) then DropTrailingSpaces(s[..|s| - 1]) else s
  }

  /** `/^```json\s*\/i`: an opening fence tagged `json` in any case, and the white space after it. */
  function DropJsonOpening(s: string): string {
    if |s| >= 7 && s[..3] == Fence && Lower(s[3..7]) == "json" then DropLeadingSpaces(s[7..]) else s
  }

  /** `/^```\s*\/`: a bare opening fence and the white space after it. */
  function DropOpening(s: string): string {
    if StartsWithFence(s) then DropLeadingSpaces(s[3..]) else s
  }

  /** `/\s*```$/`: a closing fence and the white space before it. */
  function DropClosing(s: string): string {
    if EndsWithFence(s) then DropTrailingSpaces(s[..|s| - 3]) else s
  }

  /** The three replacements, in the source's order. */
  function StripFences(raw: string): string {
    DropClosing(DropOpening(DropJsonOpening(raw)))
  }

  /** A reply without fences reaches the parser unchanged. */
  lemma StripFencesKeepsUnfenced(s: string)
    requires !StartsWithFence(s) && !EndsWithFence(s)
    ensures StripFences(s) == s
  {
  }

  lemma LeadingSkipsNewline(t: string)
    ensures DropLeadingSpaces("\n" + t) == DropLeadingSpaces(t)
  {
    assert ("\n" + t)[1..] == t;
  }

  lemma TrailingSkipsNewline(b: string)
    ensures DropTrailingSpaces(b + "\n") == DropTrailingSpaces(b)
  {
    assert (b + "\n")[..|b|] == b;
  }

  predicate CleanBody(body: string) {
    body != [] && !IsJsSpace(body[0]) && !IsJsSpace(body[|body| - 1]) && body[0] != '`'
  }

  lemma BodyAfterOpeningLine(body: string)
    requires CleanBody(body)
    ensures DropLeadingSpaces("\n" + body + "\n```") == body + "\n```"
  {
    var t := body + "\n```";
    assert "\n" + body + "\n```" == "\n" + t;
    LeadingSkipsNewline(t);
    assert t[0] == body[0];
  }

  lemma BodyHasNoOpening(body: string)
    requires CleanBody(body)
    ensures DropOpening(body + "\n```") == body + "\n```"
  {
    var t := body + "\n```";
    assert t[..3][0] == body[0] != Fence[0];
    assert !StartsWithFence(t);
  }

  lemma BodyClosing(body: string)
    requires CleanBody(body)
    ensures DropClosing(body + "\n```") == body
  {
    var t := body + "\n```";
    assert t[|t| - 3..] == Fence;
    assert t[..|t| - 3] == body + "\n";
    TrailingSkipsNewline(body);
  }

  /** A body wrapped as a `json` code block comes back exactly, when it has no surrounding white space and does not start with a backtick. */
  lemma StripFencesOfJsonBlock(body: string)
    requires CleanBody(body)
    ensures StripFences("```json\n" + body + "\n```") == body
  {
    var s := "```json\n" + body + "\n```";
    assert s == "```json" + ("\n" + body + "\n```");
    TaggedOpening("\n" + body + "\n```");
    BodyAfterOpeningLine(body);
    BodyHasNoOpening(body);
    BodyClosing(body);
  }

  lemma TaggedOpening(rest: string)
    ensures DropJsonOpening("```json" + rest) == DropLeadingSpaces(rest)
  {
    var s := "```json" + rest;
    assert s[..3] == Fence;
    assert s[3..7] == "json";
    assert Lower("json") == "json";
    assert s[7..] == rest;
  }

  lemma UntaggedOpening(s: string)
    requires |s| >= 4 && s[3] == '\n'
    ensures DropJsonOpening(s) == s
  {
    if |s| >= 7 {
      var tag := s[3..7];
      assert tag[0] == '\n';
      assert Lower(tag)[0] == '\n';
    }
  }

  /** The same for a code block without a language tag. */
  lemma StripFencesOfBareBlock(body: string)
    requires CleanBody(body)
    ensures StripFences("```\n" + body + "\n```") == body
  {
    var s := "```\n" + body + "\n```";
    assert s[3] == '\n';
    UntaggedOpening(s);
    assert s[..3] == Fence;
    assert s[3..] == "\n" + body + "\n```";
    BodyAfterOpeningLine(body);
    BodyHasNoOpening(body);
    BodyClosing(body);
  }

  /** An empty reply stays empty, so `JSON.parse` sees "". */
  lemma StripFencesOfEmpty()
    ensures StripFences("") == ""
  {
  }
}
