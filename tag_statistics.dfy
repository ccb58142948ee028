/**
 * TagStatisticsBuilder: configure creates one TagCoverage per tag the
 * document declares and attaches to it the operations that list it; the
 * build pass folds every kept operation into each declared tag it lists;
 * buildResult counts the tags by state.
 */
module TagStatistics {
  import opened Wrappers
  import opened Operations
  import opened Exclusion
  import opened CoverageResults

  /** The names of the document-level tags; a document without a tag list declares none. */
  function TagNames(declared: Option<seq<string>>): seq<string> {
    if declared.Some? then declared.value else []
  }

  /** No name occurs twice: the condition under which Collectors.toMap does not throw. */
  predicate NoDuplicates(names: seq<string>) {
    forall i, j :: 0 <= i < j < |names| ==> names[i] != names[j]
  }

  /** A TagCoverage as its constructor leaves it. */
  function FreshTag(name: string, rules: TagRules): TagCoverage {
    TagCoverage(name, {}, NoTotals, rules.initialState)
  }

  /** operationToTag: the operations whose tag list is present, with that list. */
  function TaggedOperations(operationTags: map<OperationKey, Option<seq<string>>>): map<OperationKey, seq<string>> {
    map k | k in operationTags && operationTags[k].Some? :: operationTags[k].value
  }

  /** The operations among done whose tag list names the tag. */
  function MembersAmong(tagged: map<OperationKey, seq<string>>, done: set<OperationKey>, tag: string): set<OperationKey> {
    set k | k in done && k in tagged && tag in tagged[k]
  }

  /** Taking one more operation into account adds it to exactly the tags it lists. */
  lemma MembersAmongAdd(tagged: map<OperationKey, seq<string>>, done: set<OperationKey>, k: OperationKey)
    requires k in tagged
    ensures forall t :: MembersAmong(tagged, done + {k}, t) == MembersAmong(tagged, done, t) + (if t in tagged[k] then {k} else {})
  {
  }

  /** The tag map configure leaves behind. */
  function ConfiguredTags(names: seq<string>, tagged: map<OperationKey, seq<string>>, rules: TagRules): map<string, TagCoverage> {
    map t | t in names :: FreshTag(t, rules).(operations := MembersAmong(tagged, tagged.Keys, t))
  }

  /**
   * configure creates exactly one TagCoverage per declared tag name (none
   * when the document has no tag list); each holds the operations that list
   * it and no others; operations without a tag list belong to no tag; a name
   * the document does not declare gets no entry.
   */
  lemma ConfiguredTagsShape(declared: Option<seq<string>>, operationTags: map<OperationKey, Option<seq<string>>>, rules: TagRules)
    requires NoDuplicates(TagNames(declared))
    ensures var m := ConfiguredTags(TagNames(declared), TaggedOperations(operationTags), rules);
      && |m| == |TagNames(declared)|
      && (declared == None ==> m == map[])
      && (forall t :: t in m <==> t in TagNames(declared))
      && (forall t, k :: t in m ==> (k in m[t].operations <==>
            k in operationTags && operationTags[k].Some? && t in operationTags[k].value))
      && (forall t :: t in m ==> m[t].name == t && m[t].totals == NoTotals && m[t].state == rules.initialState)
  {
    var names := TagNames(declared);
    var m := ConfiguredTags(names, TaggedOperations(operationTags), rules);
    DistinctCardinality(names);
  }

  /** A list without duplicates has as many distinct elements as entries. */
  lemma {:induction false} DistinctCardinality(names: seq<string>)
    requires NoDuplicates(names)
    ensures |set t | t in names| == |names|
    decreases |names|
  {
    if names != [] {
      var n := |names| - 1;
      var prefix := names[..n];
      DistinctCardinality(prefix);
      assert (set t | t in names) == (set t | t in prefix) + {names[n]} by {
        assert names == prefix + [names[n]];
      }
      assert names[n] !in prefix by {
        forall i | 0 <= i < n ensures prefix[i] != names[n] {
          assert prefix[i] == names[i];
        }
      }
    }
  }

  /** The totals after one more operation: the update chain buildOperation applies. */
  function Add(a: TagTotals, res: OperationResult): (r: TagTotals)
    ensures r.stateCounter.Total() == a.stateCounter.Total() + 1
    ensures Bucket3(r.stateCounter, res.state) == Bucket3(a.stateCounter, res.state) + 1
  {
    TagTotals(
      a.callCount + res.processCount,
      a.stateCounter.IncrementByState(res.state),
      a.allConditionCount + res.allConditionCount,
      a.coveredConditionCount + res.coveredConditionCount)
  }

  /** The totals after the same operation is folded in n times. */
  function AddTimes(a: TagTotals, res: OperationResult, n: nat): TagTotals {
    if n == 0 then a else Add(AddTimes(a, res, n - 1), res)
  }

  /** Folding an operation in n times adds n times its counts and n to the bucket of its state. */
  lemma {:induction false} AddTimesAddsMultiples(a: TagTotals, res: OperationResult, n: nat)
    ensures var r := AddTimes(a, res, n);
      && r.callCount == a.callCount + n * res.processCount
      && r.allConditionCount == a.allConditionCount + n * res.allConditionCount
      && r.coveredConditionCount == a.coveredConditionCount + n * res.coveredConditionCount
      && r.stateCounter.Total() == a.stateCounter.Total() + n
      && Bucket3(r.stateCounter, res.state) == Bucket3(a.stateCounter, res.state) + n
      && (forall s :: s != res.state ==> Bucket3(r.stateCounter, s) == Bucket3(a.stateCounter, s))
  {
    if n > 0 {
      AddTimesAddsMultiples(a, res, n - 1);
      assert n * res.processCount == (n - 1) * res.processCount + res.processCount;
      assert n * res.allConditionCount == (n - 1) * res.allConditionCount + res.allConditionCount;
      assert n * res.coveredConditionCount == (n - 1) * res.coveredConditionCount + res.coveredConditionCount;
    }
  }

  /** The count a counter holds for one state. */
  function Bucket3(c: CoverageCounter, s: CoverageState): nat {
    match s
    case FULL => c.full
    case PARTY => c.party
    case EMPTY => c.empty
  }

  /** updateCallCount … updateState on one TagCoverage: new totals, then the state derived from them. */
  function UpdateTag(tc: TagCoverage, res: OperationResult, rules: TagRules): (r: TagCoverage)
    ensures r.name == tc.name && r.operations == tc.operations
    ensures r.totals == Add(tc.totals, res)
    ensures r.state == rules.updateState(r.totals)
  {
    var totals := Add(tc.totals, res);
    tc.(totals := totals, state := rules.updateState(totals))
  }

  /** Update a tag when the map holds it; ignore names it does not hold. */
  function UpdateIfDeclared(m: map<string, TagCoverage>, tag: string, res: OperationResult, rules: TagRules): map<string, TagCoverage> {
    if tag in m then m[tag := UpdateTag(m[tag], res, rules)] else m
  }

  /** The stream over one operation's tag list, in order. */
  function ApplyTags(m: map<string, TagCoverage>, tags: seq<string>, res: OperationResult, rules: TagRules): (r: map<string, TagCoverage>)
    ensures r.Keys == m.Keys
    decreases |tags|
  {
    if tags == [] then m
    else UpdateIfDeclared(ApplyTags(m, tags[..|tags| - 1], res, rules), tags[|tags| - 1], res, rules)
  }

  /** The effect of a tag list on one declared tag. */
  lemma {:induction false} ApplyTagsAt(m: map<string, TagCoverage>, tags: seq<string>, res: OperationResult, rules: TagRules, t: string)
    requires t in m
    ensures var r := ApplyTags(m, tags, res, rules);
      && t in r
      && r[t].name == m[t].name && r[t].operations == m[t].operations
      && r[t].totals == AddTimes(m[t].totals, res, multiset(tags)[t])
      && (t !in tags ==> r[t] == m[t])
      && (t in tags ==> r[t].state == rules.updateState(r[t].totals))
    decreases |tags|
  {
    if tags != [] {
      var n := |tags| - 1;
      ApplyTagsAt(m, tags[..n], res, rules, t);
      assert tags == tags[..n] + [tags[n]];
      assert multiset(tags)[t] == multiset(tags[..n])[t] + (if t == tags[n] then 1 else 0);
      assert t in tags <==> t in tags[..n] || t == tags[n];
    }
  }

  /**
   * Applying a tag list keeps the declared tags and their members, updates
   * each declared tag once per time the list names it (so a tag the list does
   * not name is untouched), and leaves every updated tag's state derived from
   * its latest totals.
   */
  lemma ApplyTagsEffect(m: map<string, TagCoverage>, tags: seq<string>, res: OperationResult, rules: TagRules)
    ensures var r := ApplyTags(m, tags, res, rules);
      && r.Keys == m.Keys
      && (forall t :: t in m ==> r[t].name == m[t].name && r[t].operations == m[t].operations)
      && (forall t :: t in m ==> r[t].totals == AddTimes(m[t].totals, res, multiset(tags)[t]))
      && (forall t :: t in m && t !in tags ==> r[t] == m[t])
      && (forall t :: t in m && t in tags ==> r[t].state == rules.updateState(r[t].totals))
  {
    forall t | t in m
      ensures var r := ApplyTags(m, tags, res, rules);
        && r[t].name == m[t].name && r[t].operations == m[t].operations
        && r[t].totals == AddTimes(m[t].totals, res, multiset(tags)[t])
        && (t !in tags ==> r[t] == m[t])
        && (t in tags ==> r[t].state == rules.updateState(r[t].totals))
    {
      ApplyTagsAt(m, tags, res, rules, t);
    }
  }

  /**
   * How many times buildOperation feeds entry e into tag t: once per listing
   * of t in the entry's tag list, and never when the entry is excluded or has
   * no tag list.
   */
  function Listings(tagged: map<OperationKey, seq<string>>, policy: Policy, e: Entry, t: string): (n: nat)
    ensures n > 0 <==> !Excluded(policy, e.key) && e.key in tagged && t in tagged[e.key]
  {
    if !Excluded(policy, e.key) && e.key in tagged then multiset(tagged[e.key])[t] else 0
  }

  /**
   * The effect of buildOperation on the tag map: an excluded or untagged
   * operation changes nothing; otherwise every declared tag keeps its name and
   * members, receives the result once per listing, and a tag that received it
   * has its state derived from its new totals.
   */
  function Step(m: map<string, TagCoverage>, tagged: map<OperationKey, seq<string>>, policy: Policy, e: Entry, rules: TagRules): (r: map<string, TagCoverage>)
    ensures Excluded(policy, e.key) || e.key !in tagged ==> r == m
    ensures r.Keys == m.Keys
    ensures forall t :: t in m ==> r[t].name == m[t].name && r[t].operations == m[t].operations
    ensures forall t :: t in m ==> r[t].totals == AddTimes(m[t].totals, e.result, Listings(tagged, policy, e, t))
    ensures forall t :: t in m && Listings(tagged, policy, e, t) == 0 ==> r[t] == m[t]
    ensures forall t :: t in m && Listings(tagged, policy, e, t) > 0 ==> r[t].state == rules.updateState(r[t].totals)
  {
    if Excluded(policy, e.key) || e.key !in tagged then m
    else
      ApplyTagsEffect(m, tagged[e.key], e.result, rules);
      ApplyTags(m, tagged[e.key], e.result, rules)
  }

  /** buildOperation applied to each entry in turn. */
  function Fold(m: map<string, TagCoverage>, tagged: map<OperationKey, seq<string>>, policy: Policy, ops: seq<Entry>, rules: TagRules): (r: map<string, TagCoverage>)
    ensures r.Keys == m.Keys
    decreases |ops|
  {
    if ops == [] then m else Step(Fold(m, tagged, policy, ops[..|ops| - 1], rules), tagged, policy, ops[|ops| - 1], rules)
  }

  /**
   * The build pass never adds or removes a tag and never changes which
   * operations a tag holds: only totals and states move.
   */
  lemma {:induction false} FoldKeepsTagsAndMembers(m: map<string, TagCoverage>, tagged: map<OperationKey, seq<string>>, policy: Policy, ops: seq<Entry>, rules: TagRules)
    ensures var r := Fold(m, tagged, policy, ops, rules);
      && r.Keys == m.Keys
      && forall t :: t in m ==> r[t].name == m[t].name && r[t].operations == m[t].operations
    decreases |ops|
  {
    if ops != [] {
      FoldKeepsTagsAndMembers(m, tagged, policy, ops[..|ops| - 1], rules);
    }
  }

  /** Tag t's totals after the entries ops are fed into start, each once per listing. */
  function RunTotals(start: TagTotals, tagged: map<OperationKey, seq<string>>, policy: Policy, ops: seq<Entry>, t: string): TagTotals
    decreases |ops|
  {
    if ops == [] then start
    else
      var e := ops[|ops| - 1];
      AddTimes(RunTotals(start, tagged, policy, ops[..|ops| - 1], t), e.result, Listings(tagged, policy, e, t))
  }

  /** After the build pass, every declared tag's totals are its starting totals plus what the run fed it. */
  lemma {:induction false} FoldTotals(m: map<string, TagCoverage>, tagged: map<OperationKey, seq<string>>, policy: Policy, ops: seq<Entry>, rules: TagRules)
    ensures var r := Fold(m, tagged, policy, ops, rules);
      forall t :: t in m ==> t in r && r[t].totals == RunTotals(m[t].totals, tagged, policy, ops, t)
    decreases |ops|
  {
    if ops != [] {
      FoldTotals(m, tagged, policy, ops[..|ops| - 1], rules);
    }
  }

  /** The calls the entries feed into tag t: each entry's processCount, once per listing. */
  function CallsFed(tagged: map<OperationKey, seq<string>>, policy: Policy, ops: seq<Entry>, t: string): int
    decreases |ops|
  {
    if ops == [] then 0
    else
      var e := ops[|ops| - 1];
      CallsFed(tagged, policy, ops[..|ops| - 1], t) + Listings(tagged, policy, e, t) * e.result.processCount
  }

  /** The number of operation results the entries feed into tag t. */
  function ResultsFed(tagged: map<OperationKey, seq<string>>, policy: Policy, ops: seq<Entry>, t: string): nat
    decreases |ops|
  {
    if ops == [] then 0
    else ResultsFed(tagged, policy, ops[..|ops| - 1], t) + Listings(tagged, policy, ops[|ops| - 1], t)
  }

  /**
   * The tag rollup: over a run, a tag's call count grows by the sum of the
   * call counts of the entries fed into it, and its per-state operation
   * counter by the number of results fed into it.
   */
  lemma {:induction false} RunTotalsSums(start: TagTotals, tagged: map<OperationKey, seq<string>>, policy: Policy, ops: seq<Entry>, t: string)
    ensures RunTotals(start, tagged, policy, ops, t).callCount == start.callCount + CallsFed(tagged, policy, ops, t)
    ensures RunTotals(start, tagged, policy, ops, t).stateCounter.Total() == start.stateCounter.Total() + ResultsFed(tagged, policy, ops, t)
    decreases |ops|
  {
    if ops != [] {
      var n := |ops| - 1;
      RunTotalsSums(start, tagged, policy, ops[..n], t);
      AddTimesAddsMultiples(RunTotals(start, tagged, policy, ops[..n], t), ops[n].result, Listings(tagged, policy, ops[n], t));
    }
  }

  /**
   * Only a tag's members feed it: with the tag map as configure builds it, an
   * entry feeds tag t iff its operation is one of t's operations and the
   * policy keeps it. An excluded member stays a member but adds nothing.
   */
  lemma ListingsFromMembers(names: seq<string>, tagged: map<OperationKey, seq<string>>, rules: TagRules, policy: Policy, e: Entry, t: string)
    requires t in names
    ensures Listings(tagged, policy, e, t) > 0 <==>
      e.key in ConfiguredTags(names, tagged, rules)[t].operations && !Excluded(policy, e.key)
  {
  }

  /** The tag names among keys whose tag is in the given state. */
  function TagsInState(m: map<string, TagCoverage>, keys: set<string>, st: CoverageState): set<string> {
    set t | t in keys && t in m && m[t].state == st
  }

  /** The tags a counter would record in each state, over the tag names in keys. */
  function StateCountsOver(m: map<string, TagCoverage>, keys: set<string>): CoverageCounter {
    CoverageCounter(|TagsInState(m, keys, FULL)|, |TagsInState(m, keys, PARTY)|, |TagsInState(m, keys, EMPTY)|)
  }

  lemma TagsInStateAdd(m: map<string, TagCoverage>, keys: set<string>, k: string, st: CoverageState)
    requires k in m && k !in keys
    ensures |TagsInState(m, keys + {k}, st)| == |TagsInState(m, keys, st)| + (if m[k].state == st then 1 else 0)
  {
    assert k !in TagsInState(m, keys, st);
    assert TagsInState(m, keys + {k}, st) == TagsInState(m, keys, st) + (if m[k].state == st then {k} else {});
  }

  /** Counting one more tag name bumps the counter of that tag's state. */
  lemma StateCountsOverAdd(m: map<string, TagCoverage>, keys: set<string>, k: string)
    requires k in m && k !in keys
    ensures StateCountsOver(m, keys + {k}) == StateCountsOver(m, keys).IncrementByState(m[k].state)
  {
    TagsInStateAdd(m, keys, k, FULL);
    TagsInStateAdd(m, keys, k, PARTY);
    TagsInStateAdd(m, keys, k, EMPTY);
  }

  /** Every tag of the map is counted exactly once: the per-state counts add up to the number of tags. */
  lemma StateCountsCoverEveryTag(m: map<string, TagCoverage>)
    ensures StateCountsOver(m, m.Keys).Total() == |m|
  {
    var f, p, e := TagsInState(m, m.Keys, FULL), TagsInState(m, m.Keys, PARTY), TagsInState(m, m.Keys, EMPTY);
    forall t | t in m.Keys ensures t in f + p + e {
      match m[t].state {
        case FULL => assert t in f;
        case PARTY => assert t in p;
        case EMPTY => assert t in e;
      }
    }
    assert f + p + e == m.Keys;
    assert |f + p| == |f| + |p|;
    assert |f + p + e| == |f + p| + |e|;
  }

  /** The tag-map half of configure: one fresh TagCoverage per name, or failure on a repeated name. */
  method DeclareTags(names: seq<string>, rules: TagRules) returns (ok: bool, tagMap: map<string, TagCoverage>)
    ensures ok <==> NoDuplicates(names)
    ensures ok ==> tagMap == ConfiguredTags(names, map[], rules)
  {
    tagMap := map[];
    for i := 0 to |names|
      invariant NoDuplicates(names[..i])
      invariant forall t :: t in tagMap <==> t in names[..i]
      invariant forall t :: t in tagMap ==> tagMap[t] == FreshTag(t, rules)
    {
      if names[i] in tagMap {
        var j :| 0 <= j < i && names[..i][j] == names[i];
        assert names[j] == names[i];
        return false, tagMap;
      }
      assert names[..i + 1] == names[..i] + [names[i]];
      tagMap := tagMap[names[i] := FreshTag(names[i], rules)];
    }
    assert names[..|names|] == names;
    ghost var expected := ConfiguredTags(names, map[], rules);
    forall t | t in names ensures expected[t] == FreshTag(t, rules) {
      assert MembersAmong(map[], {}, t) == {};
    }
    assert tagMap.Keys == expected.Keys;
    return true, tagMap;
  }

  /** The operationToTag half of configure: keep the operations whose tag list is present. */
  method CollectTagged(operationTags: map<OperationKey, Option<seq<string>>>) returns (tagged: map<OperationKey, seq<string>>)
    ensures tagged == TaggedOperations(operationTags)
  {
    tagged := map[];
    var pending := operationTags.Keys;
    while pending != {}
      invariant pending <= operationTags.Keys
      invariant forall k :: k in tagged <==> k in operationTags && k !in pending && operationTags[k].Some?
      invariant forall k :: k in tagged ==> tagged[k] == operationTags[k].value
      decreases pending
    {
      var k :| k in pending;
      if operationTags[k].Some? {
        tagged := tagged[k := operationTags[k].value];
      }
      pending := pending - {k};
    }
  }

  /** The inner loop of configure: add operation k to the tags of its list that the map declares. */
  method AttachOne(tagMap: map<string, TagCoverage>, k: OperationKey, tags: seq<string>) returns (r: map<string, TagCoverage>)
    ensures r.Keys == tagMap.Keys
    ensures forall t :: t in r ==> r[t] == tagMap[t].(operations := tagMap[t].operations + (if t in tags then {k} else {}))
  {
    r := tagMap;
    for j := 0 to |tags|
      invariant r.Keys == tagMap.Keys
      invariant forall t :: t in r ==> r[t] == tagMap[t].(operations := tagMap[t].operations + (if t in tags[..j] then {k} else {}))
    {
      assert forall t :: t in tags[..j + 1] <==> t in tags[..j] || t == tags[j];
      if tags[j] in r {
        r := r[tags[j] := r[tags[j]].(operations := r[tags[j]].operations + {k})];
      }
    }
    assert tags[..|tags|] == tags;
  }

  /** The attachment step of configure: add each tagged operation to every declared tag it lists. */
  method AttachOperations(declared: map<string, TagCoverage>, names: seq<string>, tagged: map<OperationKey, seq<string>>, rules: TagRules)
    returns (tagMap: map<string, TagCoverage>)
    requires declared == ConfiguredTags(names, map[], rules)
    ensures tagMap == ConfiguredTags(names, tagged, rules)
  {
    tagMap := declared;
    ghost var done: set<OperationKey> := {};
    forall t | t in names ensures MembersAmong(tagged, done, t) == {} && MembersAmong(map[], {}, t) == {} {
    }
    var pending := tagged.Keys;
    while pending != {}
      invariant pending <= tagged.Keys && done == tagged.Keys - pending
      invariant forall t :: t in tagMap <==> t in names
      invariant forall t :: t in tagMap ==> tagMap[t] == FreshTag(t, rules).(operations := MembersAmong(tagged, done, t))
      decreases pending
    {
      var k :| k in pending;
      var tags := tagged[k];
      tagMap := AttachOne(tagMap, k, tags);
      MembersAmongAdd(tagged, done, k);
      done := done + {k};
      pending := pending - {k};
    }
    assert done == tagged.Keys;
    ghost var expected := ConfiguredTags(names, tagged, rules);
    assert tagMap.Keys == expected.Keys;
  }

  /** TagStatisticsBuilder: the operation-to-tag map, the tag map, the tag counter and the configured patterns. */
  class TagStatisticsBuilder {
    /** The shared AntPathMatcher. */
    const matcher: PathMatcher
    /** TagCoverage's initial state and updateState rule. */
    const rules: TagRules
    var operationToTag: map<OperationKey, seq<string>>
    var tagCoverageMap: map<string, TagCoverage>
    var tagCounter: CoverageCounter
    var excludedOperations: Option<seq<string>>

    constructor (matcher: PathMatcher, rules: TagRules)
      ensures this.matcher == matcher && this.rules == rules
      ensures operationToTag == map[] && tagCoverageMap == map[]
      ensures tagCounter == NoStates && excludedOperations == None
    {
      this.matcher := matcher;
      this.rules := rules;
      operationToTag := map[];
      tagCoverageMap := map[];
      tagCounter := NoStates;
      excludedOperations := None;
    }

    function CurrentPolicy(): Policy
      reads this
    {
      Policy(excludedOperations, matcher)
    }

    /**
     * configure: build the tag map from the declared tags, the operation-to-tag
     * map from the operations with a tag list, then attach each operation to
     * the declared tags it lists. A repeated tag name makes Collectors.toMap
     * throw IllegalStateException; that is reported as ok == false, with
     * neither map assigned.
     */
    method Configure(declaredTags: Option<seq<string>>, operationTags: map<OperationKey, Option<seq<string>>>) returns (ok: bool)
      modifies this`tagCoverageMap, this`operationToTag
      ensures ok <==> NoDuplicates(TagNames(declaredTags))
      ensures !ok ==> tagCoverageMap == old(tagCoverageMap) && operationToTag == old(operationToTag)
      ensures ok ==> operationToTag == TaggedOperations(operationTags)
      ensures ok ==> tagCoverageMap == ConfiguredTags(TagNames(declaredTags), TaggedOperations(operationTags), rules)
    {
      var names := if declaredTags.Some? then declaredTags.value else [];
      var tagMap;
      ok, tagMap := DeclareTags(names, rules);
      if !ok {
        return;
      }
      var tagged := CollectTagged(operationTags);
      tagMap := AttachOperations(tagMap, names, tagged, rules);
      tagCoverageMap := tagMap;
      operationToTag := tagged;
    }

    /**
     * build: take the configured patterns, then (as the base class does) call
     * buildOperation once per operation in order and buildResult at the end.
     */
    method Build(results: Results, configured: Option<seq<string>>, operations: seq<Entry>)
      modifies this, results`tagCoverageMap, results`tagCounter
      ensures excludedOperations == configured && operationToTag == old(operationToTag)
      ensures tagCoverageMap == Fold(old(tagCoverageMap), operationToTag, Policy(configured, matcher), operations, rules)
      ensures tagCounter == old(tagCounter).Plus(StateCountsOver(tagCoverageMap, tagCoverageMap.Keys))
      ensures results.tagCoverageMap == tagCoverageMap && results.tagCounter == tagCounter
    {
      excludedOperations := configured;
      ghost var start := tagCoverageMap;
      for i := 0 to |operations|
        invariant excludedOperations == configured && operationToTag == old(operationToTag)
        invariant tagCounter == old(tagCounter)
        invariant tagCoverageMap == Fold(start, operationToTag, CurrentPolicy(), operations[..i], rules)
      {
        assert operations[..i + 1][..i] == operations[..i];
        BuildOperation(operations[i].key, operations[i].result);
      }
      assert operations[..|operations|] == operations;
      BuildResult(results);
    }

    /** buildOperation: fold a kept operation into each declared tag it lists, in list order. */
    method BuildOperation(operation: OperationKey, operationResult: OperationResult)
      modifies this`tagCoverageMap
      ensures tagCoverageMap == Step(old(tagCoverageMap), operationToTag, CurrentPolicy(), Entry(operation, operationResult), rules)
    {
      var excluded := IsExcluded(CurrentPolicy(), operation);
      if excluded {
        return;
      }
      if operation in operationToTag {
        var tags := operationToTag[operation];
        for j := 0 to |tags|
          invariant tagCoverageMap == ApplyTags(old(tagCoverageMap), tags[..j], operationResult, rules)
        {
          assert tags[..j + 1][..j] == tags[..j];
          var tag := tags[j];
          if tag in tagCoverageMap {
            tagCoverageMap := tagCoverageMap[tag := UpdateTag(tagCoverageMap[tag], operationResult, rules)];
          }
        }
        assert tags[..|tags|] == tags;
      }
    }

    /** buildResult: count every tag once by its state, then publish the tag map and the counter. */
    method BuildResult(results: Results)
      modifies this`tagCounter, results`tagCoverageMap, results`tagCounter
      ensures tagCounter == old(tagCounter).Plus(StateCountsOver(tagCoverageMap, tagCoverageMap.Keys))
      ensures results.tagCoverageMap == tagCoverageMap && results.tagCounter == tagCounter
    {
      var pending := tagCoverageMap.Keys;
      ghost var done: set<string> := {};
      while pending != {}
        invariant pending <= tagCoverageMap.Keys && done == tagCoverageMap.Keys - pending
        invariant tagCounter == old(tagCounter).Plus(StateCountsOver(tagCoverageMap, done))
        decreases pending
      {
        var k :| k in pending;
        StateCountsOverAdd(tagCoverageMap, done, k);
        tagCounter := tagCounter.IncrementByState(tagCoverageMap[k].state);
        done := done + {k};
        pending := pending - {k};
      }
      assert done == tagCoverageMap.Keys;
      results.tagCoverageMap := tagCoverageMap;
      results.tagCounter := tagCounter;
    }
  }
}
