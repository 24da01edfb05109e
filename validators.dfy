/** The tag slug validator: a Python `re.match` of `^[-a-zA-Z0-9_]+$`,
    raising a validation error on mismatch and returning the value otherwise. */
module Validators {
  import opened Seqs

  datatype ValidationError = InvalidSlug

  /** A character of the class `[-a-zA-Z0-9_]`. */
  predicate IsSlugChar(c: char)
  {
    c == '-' || c == '_' || ('a' <= c <= 'z') || ('A' <= c <= 'Z') || ('0' <= c <= '9')
  }

  /** A non-empty string made of slug characters only. */
  ghost predicate IsSlugBody(s: string)
  {
    |s| >= 1 && forall i :: 0 <= i < |s| ==> IsSlugChar(s[i])
  }

  /** How far the greedy `[-a-zA-Z0-9_]+` runs from the start of `s`. */
  function SlugRun(s: string): (k: nat)
    ensures k <= |s|
    ensures forall i :: 0 <= i < k ==> IsSlugChar(s[i])
    ensures k < |s| ==> !IsSlugChar(s[k])
  {
    if s == [] || !IsSlugChar(s[0]) then 0 else 1 + SlugRun(s[1..])
  }

  /** The match of the anchored pattern: the run is non-empty and `$` holds
      after it, at the very end or just before a final newline (Python's
      `$` without MULTILINE). No shorter run can succeed, because `$`
      never holds in front of a slug character. */
  predicate PatternMatches(s: string)
  {
    var k := SlugRun(s);
    k >= 1 && (k == |s| || (k == |s| - 1 && s[k] == '\n'))
  }

  /** `slug_validation`: the value itself when it matches, an error
      otherwise. Accepted are exactly the slug bodies, with or without one
      trailing newline. */
  function SlugValidation(value: string): (r: Result<string, ValidationError>)
    ensures r.Ok? ==> r.value == value
    ensures r.Ok? <==>
      (IsSlugBody(value) ||
       (|value| >= 2 && value[|value| - 1] == '\n' && IsSlugBody(value[..|value| - 1])))
    ensures r.Err? ==> r.error == InvalidSlug
  {
    PatternMatchesExactly(value);
    if PatternMatches(value) then Ok(value) else Err(InvalidSlug)
  }

  /** The greedy scan succeeds exactly on the strings the pattern describes. */
  lemma PatternMatchesExactly(value: string)
    ensures PatternMatches(value) <==>
      (IsSlugBody(value) ||
       (|value| >= 2 && value[|value| - 1] == '\n' && IsSlugBody(value[..|value| - 1])))
  {
    var n := |value|;
    if n >= 2 && value[n - 1] == '\n' && IsSlugBody(value[..n - 1]) {
      assert forall i :: 0 <= i < n - 1 ==> value[i] == value[..n - 1][i];
      assert SlugRun(value) == n - 1;
    }
    if IsSlugBody(value) {
      assert SlugRun(value) == n;
    }
  }

  /** The value a successful validation returns validates again. */
  lemma SlugValidationIdempotent(value: string)
    requires SlugValidation(value).Ok?
    ensures SlugValidation(SlugValidation(value).value) == SlugValidation(value)
  {
  }

  /** The empty string is rejected: the `+` needs one character. */
  lemma EmptySlugRejected()
    ensures SlugValidation("") == Err(InvalidSlug)
  {
  }

  /** Accepted: slug characters only, and the same with one final newline. */
  lemma SlugExamples()
    ensures SlugValidation("my-tag_1").Ok?
    ensures SlugValidation("breakfast\n") == Ok("breakfast\n")
  {
    assert IsSlugBody("my-tag_1");
    assert "breakfast\n"[..9] == "breakfast";
    assert IsSlugBody("breakfast");
  }

  /** Refused: a space, and two final newlines. */
  lemma SlugRejectedExamples()
    ensures SlugValidation("my tag!").Err?
    ensures SlugValidation("breakfast\n\n").Err?
  {
    assert !IsSlugChar(' ') && "my tag!"[2] == ' ';
    assert !IsSlugChar('\n') && "breakfast\n\n"[9] == '\n';
  }
}
