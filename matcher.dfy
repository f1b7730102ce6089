/** Deciding whether a build answers the user's query: a semantic-version range or a prefix of
    a git revision (`gitCheck` and the filter rule of `parseBuildList` and `findInstalled`). */
module Matcher {
  import opened Wrappers
  import opened Js
  import opened Text
  import opened Foreign

  /** `gitCheck(input, revision)`: a truthy input whose `length` exceeds 1 and that
      `revision` starts with. */
  function GitCheck(input: Value, revision: string): bool
  {
    var len := Length(input);
    if Truthy(input) && len.Some? && len.value > 1 && IndexOf(revision, input.s) == 0 then true
    else false
  }

  /** The hash-prefix rule: true exactly for a string of at least two characters that is a
      prefix of the revision; a falsy, one-character or non-string input gives false. */
  lemma GitCheckIsPrefix(input: Value, revision: string)
    ensures GitCheck(input, revision) <==> input.Str? && |input.s| > 1 && input.s <= revision
  {
    if input.Str? {
      IndexOfZeroIffPrefix(revision, input.s);
    }
  }

  /** The cases the test suite checks. */
  lemma GitCheckExamples()
    ensures GitCheck(Str("e721"), "e721f1820f65368794aee29e2da8ebc03de804fd")
    ensures !GitCheck(Str("e2"), "e721f1820f65368794aee29e2da8ebc03de804fd")
    ensures GitCheck(Str("e2"), "e2a219dceb3026e73be3afab4591aa3ba627d58b")
    ensures !GitCheck(Bool(false), "e721f1820f65368794aee29e2da8ebc03de804fd")
    ensures !GitCheck(Str("1"), "e721f1820f65368794aee29e2da8ebc03de804fd")
    ensures !GitCheck(Obj, "e721f1820f65368794aee29e2da8ebc03de804fd")
  {
    GitCheckIsPrefix(Str("e721"), "e721f1820f65368794aee29e2da8ebc03de804fd");
    GitCheckIsPrefix(Str("e2"), "e721f1820f65368794aee29e2da8ebc03de804fd");
    assert "e721f1820f65368794aee29e2da8ebc03de804fd"[1] != "e2"[1];
    GitCheckIsPrefix(Str("e2"), "e2a219dceb3026e73be3afab4591aa3ba627d58b");
  }

  /** The query rule: with no (falsy) query every build passes; otherwise the build passes when
      its version satisfies the query as a range or the query is a hash prefix of `revision`. */
  predicate Selects(host: Host, input: Value, version: string, revision: string)
  {
    var satisfied := Truthy(input) && (host.satisfies(version, input) || GitCheck(input, revision));
    !Truthy(input) || (Truthy(input) && satisfied)
  }

  /** The query rule spelled out with the hash-prefix rule unfolded. */
  lemma SelectsIff(host: Host, input: Value, version: string, revision: string)
    ensures Selects(host, input, version, revision) <==>
      || !Truthy(input)
      || host.satisfies(version, input)
      || (input.Str? && |input.s| > 1 && input.s <= revision)
  {
    GitCheckIsPrefix(input, revision);
  }
}
