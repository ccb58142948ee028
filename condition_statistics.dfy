/**
 * ConditionStatisticsBuilder: for every operation the exclusion policy keeps,
 * add its condition counts to the global totals, file it under its coverage
 * state, and count it when it is deprecated.
 */
module ConditionStatistics {
  import opened Wrappers
  import opened Operations
  import opened Exclusion
  import opened CoverageResults

  /** The builder's accumulated fields: the classification map and the counter. */
  datatype ConditionStats = ConditionStats(operations: CoverageOperationMap, counter: ConditionCounter)

  const Fresh := ConditionStats(NoOperations, NoConditions)

  /** The effect of buildOperation on the accumulated fields. */
  function Step(s: ConditionStats, policy: Policy, e: Entry): (r: ConditionStats)
    ensures Excluded(policy, e.key) ==> r == s
    ensures !Excluded(policy, e.key) ==> forall state ::
      Bucket(r.operations, state) == Bucket(s.operations, state) + (if state == e.result.state then {e.key} else {})
    ensures !Excluded(policy, e.key) ==>
      && r.counter.all == s.counter.all + e.result.allConditionCount
      && r.counter.covered == s.counter.covered + e.result.coveredConditionCount
    ensures var counted := !Excluded(policy, e.key) && e.result.deprecated;
      && r.operations.deprecated == s.operations.deprecated + (if counted then {e.key} else {})
      && r.counter.deprecated == s.counter.deprecated + (if counted then 1 else 0)
    ensures var counted := !Excluded(policy, e.key) && e.result.deprecated && e.result.state == EMPTY;
      r.counter.deprecatedAndEmpty == s.counter.deprecatedAndEmpty + (if counted then 1 else 0)
  {
    if Excluded(policy, e.key) then s
    else
      var res := e.result;
      var c := s.counter.(all := s.counter.all + res.allConditionCount,
                          covered := s.counter.covered + res.coveredConditionCount);
      var o := s.operations;
      var m := match res.state
        case PARTY => o.(party := o.party + {e.key})
        case EMPTY => o.(empty := o.empty + {e.key})
        case FULL => o.(full := o.full + {e.key});
      if res.deprecated then
        ConditionStats(
          m.(deprecated := m.deprecated + {e.key}),
          c.(deprecated := c.deprecated + 1,
             deprecatedAndEmpty := if res.state == EMPTY then c.deprecatedAndEmpty + 1 else c.deprecatedAndEmpty))
      else ConditionStats(m, c)
  }

  /** buildOperation applied to each entry in turn. */
  function Fold(s: ConditionStats, policy: Policy, ops: seq<Entry>): (r: ConditionStats)
    ensures s.operations.full <= r.operations.full && s.operations.party <= r.operations.party
    ensures s.operations.empty <= r.operations.empty && s.operations.deprecated <= r.operations.deprecated
    ensures s.counter.all <= r.counter.all && s.counter.covered <= r.counter.covered
    ensures s.counter.deprecated <= r.counter.deprecated && s.counter.deprecatedAndEmpty <= r.counter.deprecatedAndEmpty
    decreases |ops|
  {
    if ops == [] then s else Step(Fold(s, policy, ops[..|ops| - 1]), policy, ops[|ops| - 1])
  }

  /** The keys of the entries the policy keeps whose state is the given one. */
  ghost function KeptInState(policy: Policy, ops: seq<Entry>, state: CoverageState): set<OperationKey> {
    KeysWhere(ops, (e: Entry) => !Excluded(policy, e.key) && e.result.state == state)
  }

  /** The keys of the deprecated entries the policy keeps. */
  ghost function KeptDeprecated(policy: Policy, ops: seq<Entry>): set<OperationKey> {
    KeysWhere(ops, (e: Entry) => !Excluded(policy, e.key) && e.result.deprecated)
  }

  /** The keys of the entries the policy keeps. */
  ghost function Kept(policy: Policy, ops: seq<Entry>): set<OperationKey> {
    KeysWhere(ops, (e: Entry) => !Excluded(policy, e.key))
  }

  /** Each bucket grows by exactly the kept operations of its state, and nothing else. */
  lemma {:induction false} FoldBuckets(s: ConditionStats, policy: Policy, ops: seq<Entry>)
    ensures forall state :: Bucket(Fold(s, policy, ops).operations, state) == Bucket(s.operations, state) + KeptInState(policy, ops, state)
    ensures Fold(s, policy, ops).operations.deprecated == s.operations.deprecated + KeptDeprecated(policy, ops)
    decreases |ops|
  {
    if ops != [] {
      var n := |ops| - 1;
      FoldBuckets(s, policy, ops[..n]);
      forall state
        ensures Bucket(Fold(s, policy, ops).operations, state) == Bucket(s.operations, state) + KeptInState(policy, ops, state)
      {
        KeysWhereSnoc(ops, (e: Entry) => !Excluded(policy, e.key) && e.result.state == state);
      }
      KeysWhereSnoc(ops, (e: Entry) => !Excluded(policy, e.key) && e.result.deprecated);
    }
  }

  /**
   * From a fresh builder over distinct keys, every kept operation lands in
   * exactly one of FULL, PARTY and EMPTY (the one of its state) and excluded
   * operations land in none.
   */
  lemma StateBucketsPartitionKept(policy: Policy, ops: seq<Entry>)
    requires DistinctKeys(ops)
    ensures var m := Fold(Fresh, policy, ops).operations;
      && m.full + m.party + m.empty == Kept(policy, ops)
      && m.full !! m.party && m.full !! m.empty && m.party !! m.empty
    ensures forall i :: 0 <= i < |ops| && !Excluded(policy, ops[i].key) ==>
      ops[i].key in Bucket(Fold(Fresh, policy, ops).operations, ops[i].result.state)
  {
    FoldBuckets(Fresh, policy, ops);
    var m := Fold(Fresh, policy, ops).operations;
    assert Bucket(m, FULL) == KeptInState(policy, ops, FULL);
    assert Bucket(m, PARTY) == KeptInState(policy, ops, PARTY);
    assert Bucket(m, EMPTY) == KeptInState(policy, ops, EMPTY);
    KeptIsUnionOfStates(policy, ops);
    KeptInStatesDisjoint(policy, ops, FULL, PARTY);
    KeptInStatesDisjoint(policy, ops, FULL, EMPTY);
    KeptInStatesDisjoint(policy, ops, PARTY, EMPTY);
  }

  /** The kept operations are those kept in FULL, PARTY or EMPTY, each under its own state. */
  lemma KeptIsUnionOfStates(policy: Policy, ops: seq<Entry>)
    ensures Kept(policy, ops) ==
      KeptInState(policy, ops, FULL) + KeptInState(policy, ops, PARTY) + KeptInState(policy, ops, EMPTY)
    ensures forall i :: 0 <= i < |ops| && !Excluded(policy, ops[i].key) ==>
      ops[i].key in KeptInState(policy, ops, ops[i].result.state)
  {
    forall k | k in Kept(policy, ops)
      ensures k in KeptInState(policy, ops, FULL) + KeptInState(policy, ops, PARTY) + KeptInState(policy, ops, EMPTY)
    {
      var i :| 0 <= i < |ops| && !Excluded(policy, ops[i].key) && ops[i].key == k;
      assert k in KeptInState(policy, ops, ops[i].result.state);
    }
  }

  /** Over distinct keys, no kept operation is in two states. */
  lemma KeptInStatesDisjoint(policy: Policy, ops: seq<Entry>, s1: CoverageState, s2: CoverageState)
    requires DistinctKeys(ops) && s1 != s2
    ensures KeptInState(policy, ops, s1) !! KeptInState(policy, ops, s2)
  {
    forall k | k in KeptInState(policy, ops, s1) ensures k !in KeptInState(policy, ops, s2) {
      var i :| 0 <= i < |ops| && !Excluded(policy, ops[i].key) && ops[i].result.state == s1 && ops[i].key == k;
      forall j | 0 <= j < |ops| && ops[j].key == k ensures ops[j].result.state == s1 {
        assert i == j;
      }
    }
  }

  /** The deprecated-and-empty counter never overtakes the deprecated counter. */
  lemma {:induction false} DeprecatedAndEmptyBounded(s: ConditionStats, policy: Policy, ops: seq<Entry>)
    requires s.counter.deprecatedAndEmpty <= s.counter.deprecated
    ensures Fold(s, policy, ops).counter.deprecatedAndEmpty <= Fold(s, policy, ops).counter.deprecated
    decreases |ops|
  {
    if ops != [] {
      DeprecatedAndEmptyBounded(s, policy, ops[..|ops| - 1]);
    }
  }

  /**
   * When every operation has no more covered conditions than conditions, the
   * covered total never exceeds the condition total.
   */
  lemma {:induction false} CoveredBoundedByAll(s: ConditionStats, policy: Policy, ops: seq<Entry>)
    requires s.counter.covered <= s.counter.all
    requires forall i :: 0 <= i < |ops| ==> ops[i].result.coveredConditionCount <= ops[i].result.allConditionCount
    ensures Fold(s, policy, ops).counter.covered <= Fold(s, policy, ops).counter.all
    decreases |ops|
  {
    if ops != [] {
      CoveredBoundedByAll(s, policy, ops[..|ops| - 1]);
    }
  }

  /** The sum of allConditionCount over the entries the policy keeps. */
  function KeptConditions(policy: Policy, ops: seq<Entry>): nat
    decreases |ops|
  {
    if ops == [] then 0
    else
      var e := ops[|ops| - 1];
      KeptConditions(policy, ops[..|ops| - 1]) + (if Excluded(policy, e.key) then 0 else e.result.allConditionCount)
  }

  /** The sum of coveredConditionCount over the entries the policy keeps. */
  function KeptCovered(policy: Policy, ops: seq<Entry>): nat
    decreases |ops|
  {
    if ops == [] then 0
    else
      var e := ops[|ops| - 1];
      KeptCovered(policy, ops[..|ops| - 1]) + (if Excluded(policy, e.key) then 0 else e.result.coveredConditionCount)
  }

  /**
   * After a run the condition totals are the starting totals plus the counts
   * of exactly the kept operations: an excluded operation adds nothing.
   */
  lemma {:induction false} FoldConditionTotals(s: ConditionStats, policy: Policy, ops: seq<Entry>)
    ensures Fold(s, policy, ops).counter.all == s.counter.all + KeptConditions(policy, ops)
    ensures Fold(s, policy, ops).counter.covered == s.counter.covered + KeptCovered(policy, ops)
    decreases |ops|
  {
    if ops != [] {
      FoldConditionTotals(s, policy, ops[..|ops| - 1]);
    }
  }

  /** The deprecated counters agree with the sets they count. */
  ghost predicate CountersMatchSets(s: ConditionStats) {
    && s.counter.deprecated == |s.operations.deprecated|
    && s.counter.deprecatedAndEmpty == |s.operations.deprecated * s.operations.empty|
  }

  /** One step over an operation not yet recorded keeps the counters in step with the sets. */
  lemma StepKeepsCountersMatchingSets(s: ConditionStats, policy: Policy, e: Entry)
    requires CountersMatchSets(s)
    requires e.key !in s.operations.deprecated && e.key !in s.operations.empty
    ensures CountersMatchSets(Step(s, policy, e))
  {
    var r := Step(s, policy, e);
    var kept := !Excluded(policy, e.key);
    assert Bucket(s.operations, EMPTY) == s.operations.empty;
    assert Bucket(r.operations, EMPTY) == r.operations.empty;
    AddToBoth(s.operations.deprecated, s.operations.empty, e.key,
      kept && e.result.deprecated, kept && e.result.state == EMPTY);
  }

  /** Adding a new element to either of two sets adds to their intersection only when it joins both. */
  lemma AddToBoth<T>(a: set<T>, b: set<T>, x: T, toA: bool, toB: bool)
    requires x !in a && x !in b
    ensures |(a + (if toA then {x} else {})) * (b + (if toB then {x} else {}))| == |a * b| + (if toA && toB then 1 else 0)
  {
    var a', b' := a + (if toA then {x} else {}), b + (if toB then {x} else {});
    if toA && toB {
      assert a' * b' == a * b + {x};
    } else {
      assert a' * b' == a * b;
    }
  }

  /**
   * From a fresh builder over distinct keys, the deprecated counter counts the
   * deprecated set and the deprecated-and-empty counter counts the deprecated
   * operations in the EMPTY bucket.
   */
  lemma {:induction false} DeprecatedCountersCountSets(policy: Policy, ops: seq<Entry>)
    requires DistinctKeys(ops)
    ensures CountersMatchSets(Fold(Fresh, policy, ops))
    decreases |ops|
  {
    if ops != [] {
      var n := |ops| - 1;
      var e := ops[n];
      var prefix := ops[..n];
      DistinctPrefix(ops);
      DeprecatedCountersCountSets(policy, prefix);
      NotYetFiled(policy, prefix, e.key);
      StepKeepsCountersMatchingSets(Fold(Fresh, policy, prefix), policy, e);
    }
  }

  /** A key no entry carries is in neither the deprecated set nor the EMPTY bucket of a fresh fold. */
  lemma NotYetFiled(policy: Policy, ops: seq<Entry>, k: OperationKey)
    requires forall i :: 0 <= i < |ops| ==> ops[i].key != k
    ensures k !in Fold(Fresh, policy, ops).operations.deprecated
    ensures k !in Fold(Fresh, policy, ops).operations.empty
  {
    var m := Fold(Fresh, policy, ops).operations;
    FoldBuckets(Fresh, policy, ops);
    KeysWhereOnlyCarried(ops, (x: Entry) => !Excluded(policy, x.key) && x.result.deprecated, k);
    KeysWhereOnlyCarried(ops, (x: Entry) => !Excluded(policy, x.key) && x.result.state == EMPTY, k);
    assert Bucket(m, EMPTY) == m.empty;
  }

  /** ConditionStatisticsBuilder: the accumulated statistics and the configured patterns. */
  class ConditionStatisticsBuilder {
    /** The shared AntPathMatcher. */
    const matcher: PathMatcher
    var excludedOperations: Option<seq<string>>
    var coverageOperationMap: CoverageOperationMap
    var conditionCounter: ConditionCounter

    constructor (matcher: PathMatcher)
      ensures this.matcher == matcher && excludedOperations == None
      ensures Stats() == Fresh
    {
      this.matcher := matcher;
      excludedOperations := None;
      coverageOperationMap := NoOperations;
      conditionCounter := NoConditions;
    }

    function Stats(): ConditionStats
      reads this
    {
      ConditionStats(coverageOperationMap, conditionCounter)
    }

    function CurrentPolicy(): Policy
      reads this
    {
      Policy(excludedOperations, matcher)
    }

    /**
     * build: take the configured patterns, then (as the base class does) call
     * buildOperation once per operation in order and buildResult at the end.
     */
    method Build(results: Results, configured: Option<seq<string>>, operations: seq<Entry>)
      modifies this, results`coverageOperationMap, results`conditionCounter
      ensures excludedOperations == configured
      ensures Stats() == Fold(old(Stats()), Policy(configured, matcher), operations)
      ensures results.coverageOperationMap == coverageOperationMap
      ensures results.conditionCounter == conditionCounter
    {
      excludedOperations := configured;
      ghost var start := Stats();
      for i := 0 to |operations|
        invariant excludedOperations == configured
        invariant Stats() == Fold(start, CurrentPolicy(), operations[..i])
      {
        assert operations[..i + 1][..i] == operations[..i];
        BuildOperation(operations[i].key, operations[i].result);
      }
      assert operations[..|operations|] == operations;
      BuildResult(results);
    }

    /** buildOperation: fold one operation into the statistics unless it is excluded. */
    method BuildOperation(operation: OperationKey, operationResult: OperationResult)
      modifies this`coverageOperationMap, this`conditionCounter
      ensures Stats() == Step(old(Stats()), CurrentPolicy(), Entry(operation, operationResult))
    {
      var excluded := IsExcluded(CurrentPolicy(), operation);
      if excluded {
        return;
      }
      conditionCounter := conditionCounter.(all := conditionCounter.all + operationResult.allConditionCount);
      conditionCounter := conditionCounter.(covered := conditionCounter.covered + operationResult.coveredConditionCount);
      match operationResult.state {
        case PARTY => coverageOperationMap := coverageOperationMap.(party := coverageOperationMap.party + {operation});
        case EMPTY => coverageOperationMap := coverageOperationMap.(empty := coverageOperationMap.empty + {operation});
        case FULL => coverageOperationMap := coverageOperationMap.(full := coverageOperationMap.full + {operation});
      }
      if operationResult.deprecated {
        coverageOperationMap := coverageOperationMap.(deprecated := coverageOperationMap.deprecated + {operation});
        conditionCounter := conditionCounter.(deprecated := conditionCounter.deprecated + 1);
        if operationResult.state == EMPTY {
          conditionCounter := conditionCounter.(deprecatedAndEmpty := conditionCounter.deprecatedAndEmpty + 1);
        }
      }
    }

    /** buildResult: publish the classification map and the counter, and nothing else. */
    method BuildResult(results: Results)
      modifies results`coverageOperationMap, results`conditionCounter
      ensures results.coverageOperationMap == coverageOperationMap
      ensures results.conditionCounter == conditionCounter
    {
      results.coverageOperationMap := coverageOperationMap;
      results.conditionCounter := conditionCounter;
    }
  }
}
