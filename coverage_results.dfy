/**
 * The result values the post-builders fill in. CoverageOperationMap,
 * ConditionCounter, CoverageCounter, TagCoverage and Results are not part of
 * this model's source files: counters are integers that only grow and the
 * classification buckets are sets of operations.
 */
module CoverageResults {
  import opened Operations

  /** Operations by classification; deprecated is an overlay on the three state buckets. */
  datatype CoverageOperationMap = CoverageOperationMap(
    full: set<OperationKey>,
    party: set<OperationKey>,
    empty: set<OperationKey>,
    deprecated: set<OperationKey>)

  const NoOperations := CoverageOperationMap({}, {}, {}, {})

  /** The state bucket of a classification map that holds operations in the given state. */
  function Bucket(m: CoverageOperationMap, state: CoverageState): set<OperationKey> {
    match state
    case FULL => m.full
    case PARTY => m.party
    case EMPTY => m.empty
  }

  /** Global condition totals and deprecation counts. */
  datatype ConditionCounter = ConditionCounter(
    all: nat,
    covered: nat,
    deprecated: nat,
    deprecatedAndEmpty: nat)

  const NoConditions := ConditionCounter(0, 0, 0, 0)

  /** Counts of operations or tags per coverage state. */
  datatype CoverageCounter = CoverageCounter(full: nat, party: nat, empty: nat) {
    /** incrementByState: one more in the bucket of the given state. */
    function IncrementByState(state: CoverageState): (c: CoverageCounter)
      ensures c.full + c.party + c.empty == full + party + empty + 1
      ensures state == FULL ==> c == this.(full := full + 1)
      ensures state == PARTY ==> c == this.(party := party + 1)
      ensures state == EMPTY ==> c == this.(empty := empty + 1)
    {
      match state
      case FULL => this.(full := full + 1)
      case PARTY => this.(party := party + 1)
      case EMPTY => this.(empty := empty + 1)
    }

    function Total(): nat {
      full + party + empty
    }

    /** Field-wise sum of two counters. */
    function Plus(other: CoverageCounter): CoverageCounter {
      CoverageCounter(full + other.full, party + other.party, empty + other.empty)
    }
  }

  const NoStates := CoverageCounter(0, 0, 0)

  /** The aggregated counts of one tag: calls, operations per state, and conditions. */
  datatype TagTotals = TagTotals(
    callCount: nat,
    stateCounter: CoverageCounter,
    allConditionCount: nat,
    coveredConditionCount: nat)

  const NoTotals := TagTotals(0, NoStates, 0, 0)

  /** The rollup of one declared tag: its member operations, its totals and its derived state. */
  datatype TagCoverage = TagCoverage(
    name: string,
    operations: set<OperationKey>,
    totals: TagTotals,
    state: CoverageState)

  /**
   * The parts of TagCoverage whose code is not part of this model: the state a
   * fresh TagCoverage starts in and the rule updateState applies to the totals.
   */
  datatype TagRules = TagRules(initialState: CoverageState, updateState: TagTotals -> CoverageState)

  /** The aggregate a run produces; each post-builder publishes into its own fields. */
  class Results {
    var coverageOperationMap: CoverageOperationMap
    var conditionCounter: ConditionCounter
    var tagCoverageMap: map<string, TagCoverage>
    var tagCounter: CoverageCounter
    var zeroCall: set<OperationKey>
    var excludedOperations: set<OperationKey>
    var excludedOperationsCount: int

    constructor ()
      ensures coverageOperationMap == NoOperations && conditionCounter == NoConditions
      ensures tagCoverageMap == map[] && tagCounter == NoStates
      ensures zeroCall == {} && excludedOperations == {} && excludedOperationsCount == 0
    {
      coverageOperationMap := NoOperations;
      conditionCounter := NoConditions;
      tagCoverageMap := map[];
      tagCounter := NoStates;
      zeroCall := {};
      excludedOperations := {};
      excludedOperationsCount := 0;
    }
  }
}
