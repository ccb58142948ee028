/**
 * ZeroCallStatisticsBuilder: every operation no trace called goes either to
 * the zero-call set or, when the exclusion policy matches it, to the excluded
 * set, whose additions are also counted.
 */
module ZeroCallStatistics {
  import opened Wrappers
  import opened Operations
  import opened Exclusion
  import opened CoverageResults

  /** The builder's accumulated fields. */
  datatype ZeroCallStats = ZeroCallStats(zeroCall: set<OperationKey>, excludedKeys: set<OperationKey>, excludedCount: nat)

  const Fresh := ZeroCallStats({}, {}, 0)

  /** The effect of buildOperation on the accumulated fields. */
  function Step(s: ZeroCallStats, policy: Policy, e: Entry): (r: ZeroCallStats)
    ensures e.result.processCount != 0 ==> r == s
    ensures r.excludedCount == s.excludedCount + (if e.result.processCount == 0 && Excluded(policy, e.key) then 1 else 0)
    ensures Excluded(policy, e.key) ==> r.zeroCall == s.zeroCall
    ensures !Excluded(policy, e.key) ==> r.excludedKeys == s.excludedKeys
    ensures e.result.processCount == 0 && Excluded(policy, e.key) ==> r.excludedKeys == s.excludedKeys + {e.key}
    ensures e.result.processCount == 0 && !Excluded(policy, e.key) ==> r.zeroCall == s.zeroCall + {e.key}
  {
    if e.result.processCount != 0 then s
    else if Excluded(policy, e.key) then s.(excludedKeys := s.excludedKeys + {e.key}, excludedCount := s.excludedCount + 1)
    else s.(zeroCall := s.zeroCall + {e.key})
  }

  /**
   * An uncalled operation not yet filed lands in exactly one of the two sets:
   * the excluded set when the policy excludes it, the zero-call set otherwise.
   */
  lemma StepFilesUncalled(s: ZeroCallStats, policy: Policy, e: Entry)
    requires e.result.processCount == 0
    requires e.key !in s.zeroCall + s.excludedKeys
    ensures var r := Step(s, policy, e);
      && r.zeroCall + r.excludedKeys == s.zeroCall + s.excludedKeys + {e.key}
      && (e.key in r.excludedKeys <==> Excluded(policy, e.key))
      && (e.key in r.zeroCall <==> !Excluded(policy, e.key))
  {
  }

  /** buildOperation applied to each entry in turn. */
  function Fold(s: ZeroCallStats, policy: Policy, ops: seq<Entry>): (r: ZeroCallStats)
    ensures s.zeroCall <= r.zeroCall && s.excludedKeys <= r.excludedKeys && s.excludedCount <= r.excludedCount
    decreases |ops|
  {
    if ops == [] then s else Step(Fold(s, policy, ops[..|ops| - 1]), policy, ops[|ops| - 1])
  }

  /** Entries no trace called that the policy keeps. */
  function UncalledKept(policy: Policy): Entry -> bool {
    (e: Entry) => e.result.processCount == 0 && !Excluded(policy, e.key)
  }

  /** Entries no trace called that the policy excludes. */
  function UncalledExcluded(policy: Policy): Entry -> bool {
    (e: Entry) => e.result.processCount == 0 && Excluded(policy, e.key)
  }

  /** Entries no trace called. */
  function Uncalled(): Entry -> bool {
    (e: Entry) => e.result.processCount == 0
  }

  /**
   * After the fold, the zero-call set gained exactly the uncalled kept
   * operations, the excluded set exactly the uncalled excluded ones, and the
   * counter one per uncalled excluded entry.
   */
  lemma {:induction false} FoldSelects(s: ZeroCallStats, policy: Policy, ops: seq<Entry>)
    ensures Fold(s, policy, ops).zeroCall == s.zeroCall + KeysWhere(ops, UncalledKept(policy))
    ensures Fold(s, policy, ops).excludedKeys == s.excludedKeys + KeysWhere(ops, UncalledExcluded(policy))
    ensures Fold(s, policy, ops).excludedCount == s.excludedCount + CountWhere(ops, UncalledExcluded(policy))
    decreases |ops|
  {
    FoldZeroCall(s, policy, ops);
    FoldExcludedKeys(s, policy, ops);
    FoldExcludedCount(s, policy, ops);
  }

  lemma {:induction false} FoldZeroCall(s: ZeroCallStats, policy: Policy, ops: seq<Entry>)
    ensures Fold(s, policy, ops).zeroCall == s.zeroCall + KeysWhere(ops, UncalledKept(policy))
    decreases |ops|
  {
    if ops != [] {
      FoldZeroCall(s, policy, ops[..|ops| - 1]);
      KeysWhereSnoc(ops, UncalledKept(policy));
    }
  }

  lemma {:induction false} FoldExcludedKeys(s: ZeroCallStats, policy: Policy, ops: seq<Entry>)
    ensures Fold(s, policy, ops).excludedKeys == s.excludedKeys + KeysWhere(ops, UncalledExcluded(policy))
    decreases |ops|
  {
    if ops != [] {
      FoldExcludedKeys(s, policy, ops[..|ops| - 1]);
      KeysWhereSnoc(ops, UncalledExcluded(policy));
    }
  }

  lemma {:induction false} FoldExcludedCount(s: ZeroCallStats, policy: Policy, ops: seq<Entry>)
    ensures Fold(s, policy, ops).excludedCount == s.excludedCount + CountWhere(ops, UncalledExcluded(policy))
    decreases |ops|
  {
    if ops != [] {
      FoldExcludedCount(s, policy, ops[..|ops| - 1]);
    }
  }

  /**
   * From a fresh builder, the zero-call and excluded sets are disjoint and
   * together hold exactly the uncalled operations; no key can land in both
   * because exclusion depends on the key alone.
   */
  lemma UncalledPartitioned(policy: Policy, ops: seq<Entry>)
    ensures var r := Fold(Fresh, policy, ops);
      && r.zeroCall !! r.excludedKeys
      && r.zeroCall + r.excludedKeys == KeysWhere(ops, Uncalled())
  {
    FoldSelects(Fresh, policy, ops);
    var r := Fold(Fresh, policy, ops);
    forall k | k in r.zeroCall ensures k !in r.excludedKeys {
      var i :| 0 <= i < |ops| && UncalledKept(policy)(ops[i]) && ops[i].key == k;
    }
    forall k | k in KeysWhere(ops, Uncalled()) ensures k in r.zeroCall + r.excludedKeys {
      var i :| 0 <= i < |ops| && Uncalled()(ops[i]) && ops[i].key == k;
      if Excluded(policy, k) {
        assert UncalledExcluded(policy)(ops[i]);
      } else {
        assert UncalledKept(policy)(ops[i]);
      }
    }
  }

  /**
   * From a fresh builder over distinct keys, excludedCount is the size of the
   * excluded set, and the two sets together are as large as the number of
   * uncalled entries.
   */
  lemma UncalledCounted(policy: Policy, ops: seq<Entry>)
    requires DistinctKeys(ops)
    ensures var r := Fold(Fresh, policy, ops);
      && r.excludedCount == |r.excludedKeys|
      && |r.zeroCall| + |r.excludedKeys| == CountWhere(ops, Uncalled())
  {
    FoldSelects(Fresh, policy, ops);
    UncalledPartitioned(policy, ops);
    KeysWhereCount(ops, UncalledExcluded(policy));
    KeysWhereCount(ops, Uncalled());
    var r := Fold(Fresh, policy, ops);
    assert |r.zeroCall + r.excludedKeys| == |r.zeroCall| + |r.excludedKeys|;
  }

  /** With no patterns configured, every uncalled operation is a zero-call one and nothing is excluded. */
  lemma NoPatternsExcludeNone(patterns: Option<seq<string>>, matcher: PathMatcher, ops: seq<Entry>)
    requires patterns == None || patterns == Some([])
    ensures var r := Fold(Fresh, Policy(patterns, matcher), ops);
      && r.excludedCount == 0 && r.excludedKeys == {}
      && r.zeroCall == KeysWhere(ops, Uncalled())
  {
    var policy := Policy(patterns, matcher);
    FoldSelects(Fresh, policy, ops);
    UncalledPartitioned(policy, ops);
    forall k ensures !Excluded(policy, k) {
      NoPatternsExcludeNothing(matcher, k);
    }
    NoneExcludedCountsZero(policy, ops);
  }

  lemma {:induction false} NoneExcludedCountsZero(policy: Policy, ops: seq<Entry>)
    requires forall k :: !Excluded(policy, k)
    ensures CountWhere(ops, UncalledExcluded(policy)) == 0
    ensures KeysWhere(ops, UncalledExcluded(policy)) == {}
    decreases |ops|
  {
    if ops != [] {
      NoneExcludedCountsZero(policy, ops[..|ops| - 1]);
      KeysWhereSnoc(ops, UncalledExcluded(policy));
    }
  }

  /** ZeroCallStatisticsBuilder: the two key sets, the counter and the configured patterns. */
  class ZeroCallStatisticsBuilder {
    /** The shared AntPathMatcher. */
    const matcher: PathMatcher
    var zeroCall: set<OperationKey>
    var excludedOperationKeys: set<OperationKey>
    var excludedOperations: Option<seq<string>>
    var excludedCount: nat

    constructor (matcher: PathMatcher)
      ensures this.matcher == matcher && excludedOperations == None
      ensures Stats() == Fresh
    {
      this.matcher := matcher;
      zeroCall := {};
      excludedOperationKeys := {};
      excludedOperations := None;
      excludedCount := 0;
    }

    function Stats(): ZeroCallStats
      reads this
    {
      ZeroCallStats(zeroCall, excludedOperationKeys, excludedCount)
    }

    function CurrentPolicy(): Policy
      reads this
    {
      Policy(excludedOperations, matcher)
    }

    /**
     * build: take the configured patterns, then (as the base class does) call
     * buildOperation once per operation in order and buildResult at the end.
     */
    method Build(results: Results, configured: Option<seq<string>>, operations: seq<Entry>)
      modifies this, results`zeroCall, results`excludedOperations, results`excludedOperationsCount
      ensures excludedOperations == configured
      ensures Stats() == Fold(old(Stats()), Policy(configured, matcher), operations)
      ensures results.zeroCall == zeroCall && results.excludedOperations == excludedOperationKeys
      ensures results.excludedOperationsCount == excludedCount
    {
      excludedOperations := configured;
      ghost var start := Stats();
      for i := 0 to |operations|
        invariant excludedOperations == configured
        invariant Stats() == Fold(start, CurrentPolicy(), operations[..i])
      {
        assert operations[..i + 1][..i] == operations[..i];
        BuildOperation(operations[i].key, operations[i].result);
      }
      assert operations[..|operations|] == operations;
      BuildResult(results);
    }

    /** buildOperation: file an uncalled operation as zero-call or excluded. */
    method BuildOperation(operation: OperationKey, operationResult: OperationResult)
      modifies this`zeroCall, this`excludedOperationKeys, this`excludedCount
      ensures Stats() == Step(old(Stats()), CurrentPolicy(), Entry(operation, operationResult))
    {
      if operationResult.processCount != 0 {
        return;
      }
      var excluded := IsExcluded(CurrentPolicy(), operation);
      if excluded {
        excludedCount := excludedCount + 1;
        excludedOperationKeys := excludedOperationKeys + {operation};
      } else {
        zeroCall := zeroCall + {operation};
      }
    }

    /** buildResult: publish the zero-call set, the excluded set and the count, and nothing else. */
    method BuildResult(results: Results)
      modifies results`zeroCall, results`excludedOperations, results`excludedOperationsCount
      ensures results.zeroCall == zeroCall && results.excludedOperations == excludedOperationKeys
      ensures results.excludedOperationsCount == excludedCount
    {
      results.zeroCall := zeroCall;
      results.excludedOperations := excludedOperationKeys;
      results.excludedOperationsCount := excludedCount;
    }
  }
}
