/**
 * The exclusion decision that ConditionStatisticsBuilder, TagStatisticsBuilder and
 * ZeroCallStatisticsBuilder each carry a copy of (private isExcluded). It is
 * defined once here and used by all three builder models.
 */
module Exclusion {
  import opened Wrappers
  import opened JavaStrings
  import opened Operations
  import opened Sequences

  /**
   * AntPathMatcher.match(pattern, path). Spring's matcher is not part of this
   * model, so every decision is made relative to an arbitrary matcher.
   */
  type PathMatcher = (string, string) -> bool

  /** A configured exclusion string after trimming and splitting. */
  datatype Pattern =
    | MethodAndPath(methodName: string, path: string)  // "GET /api/users/*"
    | PathOnly(path: string)                        // "/api/users/*", any method

  /**
   * Reading one configured string: trim it, split it at the first run of \s;
   * two parts give an upper-cased method and a path pattern, one part a
   * path-only pattern.
   */
  function ParsePattern(raw: string): (p: Pattern)
    ensures p.PathOnly? ==> p.path == Trim(raw)
  {
    var parts := SplitAtFirstSpaceRun(Trim(raw));
    if |parts| == 2 then MethodAndPath(ToUpper(parts[0]), parts[1])
    else PathOnly(parts[0])
  }

  /**
   * A configured string is method-qualified exactly when its trimmed text holds
   * a \s character; both halves are then non-empty, the method has no \s in
   * it and the path does not start with one.
   */
  lemma ParsePatternShape(raw: string)
    ensures var p := ParsePattern(raw);
      p.MethodAndPath? <==> exists k :: 0 <= k < |Trim(raw)| && IsRegexSpace(Trim(raw)[k])
    ensures var p := ParsePattern(raw);
      p.MethodAndPath? ==> p.methodName != [] && p.path != [] && !IsRegexSpace(p.path[0])
    ensures var p := ParsePattern(raw);
      p.MethodAndPath? ==> forall k :: 0 <= k < |p.methodName| ==> !IsRegexSpace(p.methodName[k])
  {
    var s := Trim(raw);
    var parts := SplitAtFirstSpaceRun(s);
    SplitWholeIffNoSpace(s);
    SplitOfTrimmedHasNonEmptyParts(raw);
    if |parts| == 2 {
      SplitRoundTrip(s);
      var m := ToUpper(parts[0]);
      forall k | 0 <= k < |m|
        ensures !IsRegexSpace(m[k])
      {
        assert m[k] == UpperChar(parts[0][k]);
      }
    }
  }

  /** Whether one pattern excludes the operation. */
  predicate Matches(p: Pattern, matcher: PathMatcher, op: OperationKey)
    ensures Matches(p, matcher, op) ==> matcher(p.path, op.path)
  {
    match p
    case MethodAndPath(methodName, path) => methodName == op.httpMethod.Name() && matcher(path, op.path)
    case PathOnly(path) => matcher(path, op.path)
  }

  /** Every configured string read as a pattern, in configuration order. */
  function ParseAll(raw: seq<string>): (ps: seq<Pattern>)
    ensures |ps| == |raw|
    ensures forall i :: 0 <= i < |raw| ==> ps[i] == ParsePattern(raw[i])
  {
    MapAll(ParsePattern, raw)
  }

  /** The position of the first pattern that excludes op, if any. */
  function FirstMatch(patterns: seq<Pattern>, matcher: PathMatcher, op: OperationKey): (r: Option<nat>)
    ensures r.Some? ==> r.value < |patterns| && Matches(patterns[r.value], matcher, op)
    ensures r.Some? ==> forall j :: 0 <= j < r.value ==> !Matches(patterns[j], matcher, op)
    ensures r.None? <==> forall j :: 0 <= j < |patterns| ==> !Matches(patterns[j], matcher, op)
  {
    if patterns == [] then None
    else if Matches(patterns[0], matcher, op) then Some(0)
    else
      match FirstMatch(patterns[1..], matcher, op)
      case None => None
      case Some(i) => Some(i + 1)
  }

  /**
   * The exclusion policy of one builder: the configured pattern list (null in
   * the source when the configuration leaves it unset) and the path matcher.
   */
  datatype Policy = Policy(patterns: Option<seq<string>>, matcher: PathMatcher)

  /** isExcluded: some configured pattern excludes op. */
  predicate Excluded(policy: Policy, op: OperationKey)
    ensures Excluded(policy, op) ==> policy.patterns.Some? && policy.patterns.value != []
  {
    policy.patterns.Some? && FirstMatch(ParseAll(policy.patterns.value), policy.matcher, op).Some?
  }

  /**
   * isExcluded as the builders run it: a scan of the pattern list that stops at
   * the first pattern that excludes the operation.
   */
  method IsExcluded(policy: Policy, op: OperationKey) returns (excluded: bool)
    ensures excluded == Excluded(policy, op)
  {
    if policy.patterns.None? || policy.patterns.value == [] {
      return false;
    }
    var patterns := policy.patterns.value;
    ghost var parsed := ParseAll(patterns);
    var i := 0;
    while i < |patterns|
      invariant 0 <= i <= |patterns|
      invariant forall j :: 0 <= j < i ==> !Matches(parsed[j], policy.matcher, op)
    {
      var pattern := ParsePattern(patterns[i]);
      if Matches(pattern, policy.matcher, op) {
        return true;
      }
      NoMatchYet(parsed, i, policy.matcher, op);
      i := i + 1;
    }
    return false;
  }

  /** An operation is excluded exactly when some configured string, read as a pattern, matches it. */
  lemma ExcludedIffSomePatternMatches(policy: Policy, op: OperationKey)
    ensures Excluded(policy, op) <==> (policy.patterns.Some? &&
      exists i :: 0 <= i < |policy.patterns.value| && Matches(ParsePattern(policy.patterns.value[i]), policy.matcher, op))
  {
    if policy.patterns.Some? {
      var raw := policy.patterns.value;
      var parsed := ParseAll(raw);
      var r := FirstMatch(parsed, policy.matcher, op);
      if r.Some? {
        assert parsed[r.value] == ParsePattern(raw[r.value]);
      } else {
        forall i | 0 <= i < |raw| ensures !Matches(ParsePattern(raw[i]), policy.matcher, op) {
          assert parsed[i] == ParsePattern(raw[i]);
        }
      }
    }
  }

  /** One more pattern that does not exclude op, after none that did. */
  lemma NoMatchYet(parsed: seq<Pattern>, i: nat, matcher: PathMatcher, op: OperationKey)
    requires i < |parsed|
    requires forall j :: 0 <= j < i ==> !Matches(parsed[j], matcher, op)
    requires !Matches(parsed[i], matcher, op)
    ensures forall j :: 0 <= j < i + 1 ==> !Matches(parsed[j], matcher, op)
  {
  }

  /** A null or empty pattern list excludes nothing. */
  lemma NoPatternsExcludeNothing(matcher: PathMatcher, op: OperationKey)
    ensures !Excluded(Policy(None, matcher), op)
    ensures !Excluded(Policy(Some([]), matcher), op)
  {
  }

  /**
   * A method-qualified pattern excludes only operations whose method name is
   * the pattern's method upper-cased, and then exactly when its path part matches.
   */
  lemma MethodPatternNeedsSameMethod(raw: string, matcher: PathMatcher, op: OperationKey)
    requires ParsePattern(raw).MethodAndPath?
    ensures Matches(ParsePattern(raw), matcher, op) <==>
      ParsePattern(raw).methodName == op.httpMethod.Name() && matcher(ParsePattern(raw).path, op.path)
  {
  }

  /** A path-only pattern decides by path alone: two operations on one path fare alike. */
  lemma PathPatternIgnoresMethod(raw: string, matcher: PathMatcher, op1: OperationKey, op2: OperationKey)
    requires ParsePattern(raw).PathOnly?
    requires op1.path == op2.path
    ensures Matches(ParsePattern(raw), matcher, op1) == Matches(ParsePattern(raw), matcher, op2)
  {
  }

  /** Surrounding whitespace in a configured string does not change its meaning. */
  lemma ParseIgnoresOuterWhitespace(raw: string)
    ensures ParsePattern(Trim(raw)) == ParsePattern(raw)
  {
    TrimIdempotent(raw);
  }

  /** Exclusion is decided by the first matching pattern: later patterns are not consulted. */
  lemma {:induction false} FirstMatchDecides(patterns: seq<Pattern>, more: seq<Pattern>, matcher: PathMatcher, op: OperationKey)
    requires FirstMatch(patterns, matcher, op).Some?
    ensures FirstMatch(patterns + more, matcher, op) == FirstMatch(patterns, matcher, op)
  {
    if !Matches(patterns[0], matcher, op) {
      assert (patterns + more)[1..] == patterns[1..] + more;
      FirstMatchDecides(patterns[1..], more, matcher, op);
    }
  }

  /** Appending patterns never un-excludes an operation; it adds exactly what the new patterns exclude. */
  lemma ExcludedAppend(patterns: seq<string>, more: seq<string>, matcher: PathMatcher, op: OperationKey)
    ensures Excluded(Policy(Some(patterns + more), matcher), op) <==>
      Excluded(Policy(Some(patterns), matcher), op) || Excluded(Policy(Some(more), matcher), op)
  {
    var p, m, all := ParseAll(patterns), ParseAll(more), ParseAll(patterns + more);
    ParseAllAppend(patterns, more);
    FirstMatchAppend(p, m, matcher, op);
  }

  /** Reading a concatenated list reads each part. */
  lemma ParseAllAppend(a: seq<string>, b: seq<string>)
    ensures ParseAll(a + b) == ParseAll(a) + ParseAll(b)
  {
    MapAllAppend(ParsePattern, a, b);
  }

  /** Some pattern of a concatenation matches exactly when some pattern of either part does. */
  lemma FirstMatchAppend(p: seq<Pattern>, m: seq<Pattern>, matcher: PathMatcher, op: OperationKey)
    ensures FirstMatch(p + m, matcher, op).Some? <==>
      FirstMatch(p, matcher, op).Some? || FirstMatch(m, matcher, op).Some?
  {
    var all := p + m;
    if FirstMatch(p, matcher, op).Some? {
      FirstMatchDecides(p, m, matcher, op);
    } else if FirstMatch(m, matcher, op).Some? {
      var i := FirstMatch(m, matcher, op).value;
      assert all[|p| + i] == m[i];
    } else {
      forall j | 0 <= j < |all|
        ensures !Matches(all[j], matcher, op)
      {
        if j < |p| { assert all[j] == p[j]; } else { assert all[j] == m[j - |p|]; }
      }
    }
  }
}
