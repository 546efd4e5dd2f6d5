/**
 The comparison helpers of test/util/cmp.go: `Finds` (every source is matched
 by some needle), `Find` (one needle, one source) and `Equal`.

 Regular-expression semantics are abstracted: a `Regexp` says which
 patterns compile and whether a compiled pattern matches somewhere in a
 string. `t.Fatalf` is the `Fatal` verdict, which names the offending source
 by its index.
 */
module Cmp {
  import opened Optional

  /** The regular-expression engine: which patterns compile, and whether a
      pattern matches a substring of a string. */
  datatype Regexp = Regexp(compiles: string -> bool, matchesIn: (string, string) -> bool)

  /** The pair `regexp.MatchString` returns: whether it matched, and whether
      the pattern failed to compile (in which case it did not match). */
  datatype MatchResult = MatchResult(matched: bool, compileError: bool)

  function MatchString(re: Regexp, pattern: string, s: string): MatchResult
  {
    if re.compiles(pattern) then MatchResult(re.matchesIn(pattern, s), false)
    else MatchResult(false, true)
  }

  /** The match as both helpers use it: the error is discarded. */
  predicate Matches(re: Regexp, needle: string, source: string)
  {
    MatchString(re, needle, source).matched
  }

  /** A needle that does not compile matches nothing. */
  lemma CompileErrorIsNoMatch(re: Regexp, needle: string, source: string)
    requires !re.compiles(needle)
    ensures !Matches(re, needle, source)
  {
  }

  /** Some needle matches the source. */
  ghost predicate Covered(re: Regexp, needles: seq<string>, source: string)
  {
    exists j :: 0 <= j < |needles| && Matches(re, needles[j], source)
  }

  /** The inner loop over the needles, from index `i`: the index of the first
      matching needle, where the loop breaks, or `None`. */
  function FirstMatch(re: Regexp, needles: seq<string>, source: string, i: nat): (r: Option<nat>)
    requires i <= |needles|
    decreases |needles| - i
    ensures r.Some? ==>
      && i <= r.value < |needles|
      && Matches(re, needles[r.value], source)
      && forall j :: i <= j < r.value ==> !Matches(re, needles[j], source)
    ensures r.None? ==> forall j :: i <= j < |needles| ==> !Matches(re, needles[j], source)
  {
    if i == |needles| then None
    else if Matches(re, needles[i], source) then Some(i)
    else FirstMatch(re, needles, source, i + 1)
  }

  /** The value of `found` after the inner loop. */
  function Found(re: Regexp, needles: seq<string>, source: string): (found: bool)
    ensures found <==> Covered(re, needles, source)
  {
    FirstMatch(re, needles, source, 0).Some?
  }

  /** `Pass` when the helper returns normally, `Fatal(j)` when it calls
      `t.Fatalf` about the source at index `j`. */
  datatype Verdict = Pass | Fatal(source: nat)

  /** The outer loop of `Finds`, from source `s` on. */
  function FindsFrom(re: Regexp, needles: seq<string>, sources: seq<string>, s: nat): (v: Verdict)
    requires s <= |sources|
    decreases |sources| - s
    ensures v.Pass? <==> forall j :: s <= j < |sources| ==> Covered(re, needles, sources[j])
    ensures v.Fatal? ==>
      && s <= v.source < |sources|
      && !Covered(re, needles, sources[v.source])
      && forall j :: s <= j < v.source ==> Covered(re, needles, sources[j])
  {
    if s == |sources| then Pass
    else if !Found(re, needles, sources[s]) then Fatal(s)
    else FindsFrom(re, needles, sources, s + 1)
  }

  /** `Finds`: passes iff every source is matched by some needle, and
      otherwise fails at the first source, in order, that no needle matches. */
  function Finds(re: Regexp, needles: seq<string>, sources: seq<string>): (v: Verdict)
    ensures v.Pass? <==> forall j :: 0 <= j < |sources| ==> Covered(re, needles, sources[j])
    ensures v.Fatal? ==>
      && v.source < |sources|
      && !Covered(re, needles, sources[v.source])
      && forall j :: 0 <= j < v.source ==> Covered(re, needles, sources[j])
  {
    FindsFrom(re, needles, sources, 0)
  }

  /** `Find`: one needle against one source. */
  function Find(re: Regexp, needle: string, source: string): (v: Verdict)
    ensures v.Fatal? <==> !Matches(re, needle, source)
    ensures v.Fatal? ==> v.source == 0
  {
    var matched := MatchString(re, needle, source).matched;
    if !matched then Fatal(0) else Pass
  }

  /** `Find` is `Finds` with one needle and one source. */
  lemma FindIsFinds(re: Regexp, needle: string, source: string)
    ensures Find(re, needle, source) == Finds(re, [needle], [source])
  {
  }

  /** With no sources, `Finds` passes whatever the needles. */
  lemma FindsNoSources(re: Regexp, needles: seq<string>)
    ensures Finds(re, needles, []) == Pass
  {
  }

  /** With no needles, `Finds` fails at the first source. */
  lemma FindsNoNeedles(re: Regexp, sources: seq<string>)
    requires |sources| > 0
    ensures Finds(re, [], sources) == Fatal(0)
  {
  }

  /** Two needle lists that match the same sources give the same verdict. */
  lemma SameCoverSameVerdict(re: Regexp, n1: seq<string>, n2: seq<string>, sources: seq<string>)
    requires forall j :: 0 <= j < |sources| ==> (Covered(re, n1, sources[j]) <==> Covered(re, n2, sources[j]))
    ensures Finds(re, n1, sources) == Finds(re, n2, sources)
  {
  }

  /** Whether a source is covered depends only on which needles there are. */
  lemma CoveredBySameNeedles(re: Regexp, n1: seq<string>, n2: seq<string>, source: string)
    requires forall x :: x in n1 <==> x in n2
    ensures Covered(re, n1, source) <==> Covered(re, n2, source)
  {
    if Covered(re, n1, source) {
      var j :| 0 <= j < |n1| && Matches(re, n1[j], source);
      assert n1[j] in n2;
      var i :| 0 <= i < |n2| && n2[i] == n1[j];
    }
    if Covered(re, n2, source) {
      var j :| 0 <= j < |n2| && Matches(re, n2[j], source);
      assert n2[j] in n1;
      var i :| 0 <= i < |n1| && n1[i] == n2[j];
    }
  }

  /** The order of the needles does not affect the verdict. */
  lemma NeedleOrderIrrelevant(re: Regexp, n1: seq<string>, n2: seq<string>, sources: seq<string>)
    requires multiset(n1) == multiset(n2)
    ensures Finds(re, n1, sources) == Finds(re, n2, sources)
  {
    forall x
      ensures x in n1 <==> x in n2
    {
      assert x in n1 <==> x in multiset(n1);
      assert x in n2 <==> x in multiset(n2);
    }
    forall j | 0 <= j < |sources|
      ensures Covered(re, n1, sources[j]) <==> Covered(re, n2, sources[j])
    {
      CoveredBySameNeedles(re, n1, n2, sources[j]);
    }
    SameCoverSameVerdict(re, n1, n2, sources);
  }

  /** Adding needles never turns a pass into a failure. */
  lemma MoreNeedlesStillPass(re: Regexp, n1: seq<string>, n2: seq<string>, sources: seq<string>)
    requires Finds(re, n1, sources) == Pass
    ensures Finds(re, n1 + n2, sources) == Pass
  {
    forall j | 0 <= j < |sources|
      ensures Covered(re, n1 + n2, sources[j])
    {
      assert Covered(re, n1, sources[j]);
      var i :| 0 <= i < |n1| && Matches(re, n1[i], sources[j]);
      assert (n1 + n2)[i] == n1[i];
    }
  }

  /** The value `Equal` compares: a string or an int. */
  datatype Value = Str(s: string) | Int(i: int)

  /** `Equal`: whether `t.Errorf` reports a difference (the test goes on). A
      string never equals an int. */
  function Equal(expected: Value, actual: Value): (reported: bool)
    ensures reported <==> expected != actual
  {
    match (expected, actual)
    case (Str(a), Str(b)) => a != b
    case (Int(a), Int(b)) => a != b
    case _ => true
  }
}
