/**
 * Generator.run: merge the specifications that parse into one document, fail
 * when none parses, then run every pre-builder before every post-builder.
 * Parsing, trace reading, builder configuration and the results writers are
 * not part of this model; a parse outcome is an input.
 */
module Generator {
  import opened Wrappers

  /** The parts of an OpenAPI document the merge reads: the (possibly absent) path map and everything else. */
  datatype OpenApi<PathItem, Info> = OpenApi(paths: Option<map<string, PathItem>>, info: Info)

  /** The path map of a document, empty when it has none. */
  function PathsOf<PathItem, Info>(spec: OpenApi<PathItem, Info>): map<string, PathItem> {
    if spec.paths.Some? then spec.paths.value else map[]
  }

  /** The merged path map gains each path of the later document it does not already have. */
  function AddMissing<PathItem>(base: map<string, PathItem>, extra: map<string, PathItem>): (r: map<string, PathItem>)
    ensures r.Keys == base.Keys + extra.Keys
    ensures forall k :: k in base ==> r[k] == base[k]
    ensures forall k :: k in extra && k !in base ==> r[k] == extra[k]
  {
    map k | k in base.Keys + extra.Keys :: if k in base then base[k] else extra[k]
  }

  /**
   * Merging a later document into the merged one: a later document without
   * paths changes nothing; otherwise the merged document gets a path map
   * (created empty when it had none) holding its paths plus the missing ones.
   */
  function MergeInto<PathItem, Info>(merged: OpenApi<PathItem, Info>, spec: OpenApi<PathItem, Info>): (r: OpenApi<PathItem, Info>)
    ensures r.info == merged.info
    ensures spec.paths.None? ==> r == merged
    ensures r.paths.None? <==> merged.paths.None? && spec.paths.None?
    ensures PathsOf(r) == AddMissing(PathsOf(merged), PathsOf(spec))
  {
    if spec.paths.None? then merged
    else merged.(paths := Some(AddMissing(PathsOf(merged), spec.paths.value)))
  }

  /** One iteration of the loop over the specification paths. */
  function MergeStep<PathItem, Info>(acc: Option<OpenApi<PathItem, Info>>, parsed: Option<OpenApi<PathItem, Info>>): (r: Option<OpenApi<PathItem, Info>>)
    ensures parsed.None? ==> r == acc
    ensures r.None? <==> acc.None? && parsed.None?
    ensures acc.Some? ==> r.value.info == acc.value.info
  {
    if parsed.None? then acc
    else if acc.None? then parsed
    else Some(MergeInto(acc.value, parsed.value))
  }

  /** The merged document after the loop over the parse outcomes, in order. */
  function Merged<PathItem, Info>(parsed: seq<Option<OpenApi<PathItem, Info>>>): (r: Option<OpenApi<PathItem, Info>>)
    ensures r.None? <==> forall i :: 0 <= i < |parsed| ==> parsed[i].None?
    decreases |parsed|
  {
    if parsed == [] then None else MergeStep(Merged(parsed[..|parsed| - 1]), parsed[|parsed| - 1])
  }

  /** The outcome at index i parsed and its path map holds k. */
  predicate Declares<PathItem, Info>(parsed: seq<Option<OpenApi<PathItem, Info>>>, i: nat, k: string) {
    i < |parsed| && parsed[i].Some? && k in PathsOf(parsed[i].value)
  }

  /** The earliest outcome that declares k, found left to right: the reference for path precedence. */
  function FirstDeclarer<PathItem, Info>(parsed: seq<Option<OpenApi<PathItem, Info>>>, k: string): (r: Option<nat>)
    ensures r.Some? ==> Declares(parsed, r.value, k) && forall i :: 0 <= i < r.value ==> !Declares(parsed, i, k)
    ensures r.None? ==> forall i :: 0 <= i < |parsed| ==> !Declares(parsed, i, k)
    decreases |parsed|
  {
    if parsed == [] then None
    else
      var n := |parsed| - 1;
      var before := FirstDeclarer(parsed[..n], k);
      assert forall i :: 0 <= i < n ==> (Declares(parsed[..n], i, k) <==> Declares(parsed, i, k));
      if before.Some? then before
      else if Declares(parsed, n, k) then Some(n)
      else None
  }

  /** The first outcome that parsed, if any. */
  function FirstParsed<PathItem, Info>(parsed: seq<Option<OpenApi<PathItem, Info>>>): (r: Option<nat>)
    ensures r.Some? ==> r.value < |parsed| && parsed[r.value].Some? && forall i :: 0 <= i < r.value ==> parsed[i].None?
    ensures r.None? ==> forall i :: 0 <= i < |parsed| ==> parsed[i].None?
    decreases |parsed|
  {
    if parsed == [] then None
    else
      var n := |parsed| - 1;
      var before := FirstParsed(parsed[..n]);
      assert forall i :: 0 <= i < n ==> parsed[..n][i] == parsed[i];
      if before.Some? then before
      else if parsed[n].Some? then Some(n)
      else None
  }

  /**
   * The run fails exactly when no outcome parsed; otherwise the merged
   * document is the first parsed one's, with its non-path parts unchanged.
   */
  lemma {:induction false} MergedBase<PathItem, Info>(parsed: seq<Option<OpenApi<PathItem, Info>>>)
    ensures Merged(parsed).None? <==> FirstParsed(parsed).None?
    ensures Merged(parsed).Some? ==> Merged(parsed).value.info == parsed[FirstParsed(parsed).value].value.info
    decreases |parsed|
  {
    if parsed != [] {
      var n := |parsed| - 1;
      MergedBase(parsed[..n]);
      assert forall i :: 0 <= i < n ==> parsed[..n][i] == parsed[i];
    }
  }

  /**
   * After the loop, the merged path map holds exactly the paths some parsed
   * document declares, each mapped to the item of the earliest document that
   * declares it; in particular every path of the base is kept as it was, and
   * a path already merged is never replaced.
   */
  lemma {:induction false} MergedPaths<PathItem, Info>(parsed: seq<Option<OpenApi<PathItem, Info>>>, k: string)
    requires Merged(parsed).Some?
    ensures k in PathsOf(Merged(parsed).value) <==> FirstDeclarer(parsed, k).Some?
    ensures FirstDeclarer(parsed, k).Some? ==>
      PathsOf(Merged(parsed).value)[k] == PathsOf(parsed[FirstDeclarer(parsed, k).value].value)[k]
    decreases |parsed|
  {
    var n := |parsed| - 1;
    var prefix := parsed[..n];
    assert forall i :: 0 <= i < n ==> (Declares(prefix, i, k) <==> Declares(parsed, i, k));
    if Merged(prefix).Some? {
      MergedPaths(prefix, k);
    } else {
      MergedBase(prefix);
      assert forall i :: 0 <= i < n ==> !Declares(prefix, i, k);
    }
  }

  /** Every path of the base, the first document that parsed, is kept with its own item. */
  lemma BasePathsKept<PathItem, Info>(parsed: seq<Option<OpenApi<PathItem, Info>>>)
    requires FirstParsed(parsed).Some?
    ensures Merged(parsed).Some?
    ensures var base := PathsOf(parsed[FirstParsed(parsed).value].value);
      forall k :: k in base ==> k in PathsOf(Merged(parsed).value) && PathsOf(Merged(parsed).value)[k] == base[k]
  {
    MergedBase(parsed);
    var f := FirstParsed(parsed).value;
    forall k | k in PathsOf(parsed[f].value)
      ensures k in PathsOf(Merged(parsed).value) && PathsOf(Merged(parsed).value)[k] == PathsOf(parsed[f].value)[k]
    {
      MergedPaths(parsed, k);
      assert Declares(parsed, f, k);
      assert FirstDeclarer(parsed, k) == Some(f);
    }
  }

  /** The merged document has no path map only when no parsed document has one. */
  lemma {:induction false} MergedPathsAbsent<PathItem, Info>(parsed: seq<Option<OpenApi<PathItem, Info>>>)
    requires Merged(parsed).Some?
    ensures Merged(parsed).value.paths.None? <==>
      forall i :: 0 <= i < |parsed| && parsed[i].Some? ==> parsed[i].value.paths.None?
    decreases |parsed|
  {
    var n := |parsed| - 1;
    var prefix := parsed[..n];
    assert forall i :: 0 <= i < n ==> prefix[i] == parsed[i];
    if Merged(prefix).Some? {
      MergedPathsAbsent(prefix);
    } else {
      MergedBase(prefix);
    }
  }

  /** An outcome that did not parse leaves the merged document as it was. */
  lemma SkipUnparsed<PathItem, Info>(parsed: seq<Option<OpenApi<PathItem, Info>>>)
    ensures Merged(parsed + [None]) == Merged(parsed)
  {
    assert (parsed + [None])[..|parsed|] == parsed;
  }

  /** addPathItem for every path of the later document that the merged map lacks. */
  method AddPathItems<PathItem>(paths: map<string, PathItem>, extra: map<string, PathItem>) returns (r: map<string, PathItem>)
    ensures r == AddMissing(paths, extra)
  {
    r := paths;
    var pending := extra.Keys;
    while pending != {}
      invariant pending <= extra.Keys
      invariant r.Keys == paths.Keys + (extra.Keys - pending)
      invariant forall k :: k in r ==> r[k] == if k in paths then paths[k] else extra[k]
      decreases pending
    {
      var path :| path in pending;
      if path !in r {
        r := r[path := extra[path]];
      }
      pending := pending - {path};
    }
  }

  /** The merge loop: skip outcomes that did not parse, take the first that did as the base, merge the rest into it. */
  method MergeSpecs<PathItem, Info>(parsed: seq<Option<OpenApi<PathItem, Info>>>) returns (merged: Option<OpenApi<PathItem, Info>>)
    ensures merged == Merged(parsed)
  {
    merged := None;
    for i := 0 to |parsed|
      invariant merged == Merged(parsed[..i])
    {
      assert parsed[..i + 1][..i] == parsed[..i];
      var spec := parsed[i];
      if spec.None? {
        continue;
      }
      if merged.None? {
        merged := spec;
      } else if spec.value.paths.Some? {
        var base := merged.value;
        var paths := if base.paths.Some? then base.paths.value else map[];
        paths := AddPathItems(paths, spec.value.paths.value);
        merged := Some(base.(paths := Some(paths)));
      }
    }
    assert parsed[..|parsed|] == parsed;
  }

  /** Which phases a configured builder takes part in. */
  datatype BuilderKind = BuilderKind(isPreBuilder: bool, isPostBuilder: bool)

  datatype Phase = PrePhase | PostPhase

  /** One call of build on the shared Results: the builder's position in the configured list and the phase. */
  datatype BuildCall = BuildCall(builder: nat, phase: Phase)

  /** Whether a builder of this kind is built in the phase. */
  predicate TakesPart(kind: BuilderKind, phase: Phase) {
    if phase == PrePhase then kind.isPreBuilder else kind.isPostBuilder
  }

  /** The build calls of one phase: the builders that take part in it, in list order. */
  function PhaseCalls(builders: seq<BuilderKind>, phase: Phase): (calls: seq<BuildCall>)
    ensures forall c :: c in calls ==> c.phase == phase && c.builder < |builders|
    ensures forall i :: 0 <= i < |builders| ==>
      (BuildCall(i, phase) in calls <==> TakesPart(builders[i], phase))
    ensures forall p, q :: 0 <= p < q < |calls| ==> calls[p].builder < calls[q].builder
    decreases |builders|
  {
    if builders == [] then []
    else
      var n := |builders| - 1;
      PhaseCalls(builders[..n], phase) + (if TakesPart(builders[n], phase) then [BuildCall(n, phase)] else [])
  }

  /** The calls of one more builder. */
  lemma PhaseCallsStep(builders: seq<BuilderKind>, i: nat, phase: Phase)
    requires i < |builders|
    ensures PhaseCalls(builders[..i + 1], phase) ==
      PhaseCalls(builders[..i], phase) + (if TakesPart(builders[i], phase) then [BuildCall(i, phase)] else [])
  {
    assert builders[..i + 1][..i] == builders[..i];
  }

  /** One stream over the builders: build each builder that takes part in the phase, in list order. */
  method BuildPhase(builders: seq<BuilderKind>, phase: Phase) returns (calls: seq<BuildCall>)
    ensures calls == PhaseCalls(builders, phase)
  {
    calls := [];
    for i := 0 to |builders|
      invariant calls == PhaseCalls(builders[..i], phase)
    {
      PhaseCallsStep(builders, i, phase);
      if TakesPart(builders[i], phase) {
        calls := calls + [BuildCall(i, phase)];
      }
    }
    assert builders[..|builders|] == builders;
  }

  /** The outcome of a run that found a specification: the merged document and the build calls made. */
  datatype RunLog<PathItem, Info> = RunLog(merged: OpenApi<PathItem, Info>, calls: seq<BuildCall>)

  /** IllegalStateException("Failed to load any valid spec files"). */
  datatype RunError = NoValidSpec

  /**
   * run: merge the parse outcomes; with none parsed, fail before any builder
   * is built; otherwise build the pre-builders in list order and then the
   * post-builders in list order on the same Results.
   */
  method Run<PathItem, Info>(parsed: seq<Option<OpenApi<PathItem, Info>>>, builders: seq<BuilderKind>)
    returns (r: Result<RunLog<PathItem, Info>, RunError>)
    ensures r.Failure? <==> forall i :: 0 <= i < |parsed| ==> parsed[i].None?
    ensures r.Success? ==> Merged(parsed) == Some(r.value.merged)
    ensures r.Success? ==> r.value.calls == PhaseCalls(builders, PrePhase) + PhaseCalls(builders, PostPhase)
  {
    var merged := MergeSpecs(parsed);
    MergedBase(parsed);
    if merged.None? {
      return Failure(NoValidSpec);
    }
    var pre := BuildPhase(builders, PrePhase);
    var post := BuildPhase(builders, PostPhase);
    return Success(RunLog(merged.value, pre + post));
  }

  /** In the calls a run makes, no pre-builder build comes after a post-builder build. */
  lemma PreBuildersBeforePostBuilders(builders: seq<BuilderKind>)
    ensures var calls := PhaseCalls(builders, PrePhase) + PhaseCalls(builders, PostPhase);
      forall p, q :: 0 <= p < q < |calls| && calls[p].phase == PostPhase ==> calls[q].phase == PostPhase
  {
    var pre, post := PhaseCalls(builders, PrePhase), PhaseCalls(builders, PostPhase);
    var calls := pre + post;
    forall p | 0 <= p < |calls|
      ensures calls[p].phase == if p < |pre| then PrePhase else PostPhase
    {
      if p < |pre| {
        assert calls[p] == pre[p];
      } else {
        assert calls[p] == post[p - |pre|];
      }
    }
  }
}
