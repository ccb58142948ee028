# swagger-coverage command-line core, modelled in Dafny

swagger-coverage compares one or more OpenAPI specifications with the requests
recorded by a test run and reports how much of the API was covered. This
project models the command-line core of that tool and proves properties of it:

- **Spec paths** (`MainOptions`): every `--spec` value is split on commas. Each
  piece is trimmed, blank pieces are dropped, and every remaining entry must be
  a valid URI. The first invalid one aborts with `InvalidUri`.
- **Spec merge** (`Generator`): the parsed specifications are folded into one.
  A document that failed to parse is skipped. The first parsed document is the
  base. Each later one adds only the paths the merged document does not
  already have, so the first declaration of a path wins. If nothing parsed, the
  run fails. After the merge, every pre-builder runs before any post-builder,
  each group in configuration order.
- **Operation exclusion** (`Exclusion`): an exclusion entry is either
  `METHOD /path/pattern` or `/path/pattern`. It is trimmed and split at its
  first run of whitespace, and the method is upper-cased. An operation is
  excluded when some entry matches it. The three post-builders carry identical
  copies of this routine. It is modelled once, with `IsExcluded` as the loop and
  `Excluded` as its specification.
- **Condition statistics** (`ConditionStatistics`): each non-excluded
  operation is filed under its coverage state (full, partial or empty). Its
  condition counts are accumulated. Deprecated operations are counted, and so
  are those that are both deprecated and empty.
- **Zero-call statistics** (`ZeroCallStatistics`): every operation that was
  never called is recorded, either as a zero-call operation or, if it is
  excluded, as an excluded one with a running count.
- **Tag statistics** (`TagStatistics`): `configure` builds one coverage record
  per declared tag and attaches to it the operations that list the tag.
  `buildOperation` adds the result of a non-excluded operation to each of its
  declared tags. `buildResult` counts the tags per coverage state. A tag's totals are the sum of what its member operations feed it. An excluded member stays a member but feeds nothing, so the rollup equals the sum over all members only when none is excluded.

Each builder is a `class` whose fields are those of the Java builder, and its
methods update them in place. Every method is proved against a pure
specification: `Step` for one operation and `Fold` for a sequence of them.
The properties the reports rely on are proved about those functions:
- the state buckets partition the kept operations;
- the counters equal the sizes of the sets they summarise;
- the zero-call and excluded sets split the uncalled operations;
- the tag counters cover every tag exactly once;
- the merge keeps the first declaration of every path.

Java `String.trim`, `split("\\s+", 2)`, `split(",")` and `toUpperCase` are
modelled in `JavaStrings`, with their own round-trip and shape lemmas.

## Model

| member | source | states |
|---|---|---|
| Generator.AddMissing | swagger-coverage-commandline/src/main/java/com/github/viclovsky/swagger/coverage/core/generator/Generator.java:66-74 | Merging keeps every existing path unchanged and adds exactly the missing paths of the new document, with their items; the key set is the union |
| Generator.MergeInto | swagger-coverage-commandline/src/main/java/com/github/viclovsky/swagger/coverage/core/generator/Generator.java:61-75 | Merging one document keeps the base's info, leaves the base alone when the document has no paths, creates a path map only when the document has one, and the paths become AddMissing of the two |
| Generator.FirstParsed | swagger-coverage-commandline/src/main/java/com/github/viclovsky/swagger/coverage/core/generator/Generator.java:52-59 | Gives the index of the first document that parsed (every earlier one failed), or nothing when none parsed |
| Generator.FirstDeclarer | swagger-coverage-commandline/src/main/java/com/github/viclovsky/swagger/coverage/core/generator/Generator.java:66-71 | Gives the index of the first parsed document declaring a path, or nothing when none does |
| Generator.MergeStep | swagger-coverage-commandline/src/main/java/com/github/viclovsky/swagger/coverage/core/generator/Generator.java:52-78 | One loop iteration: an unparsed document leaves the merge as it was, the result is absent iff both the merge so far and the document are, and once a base exists its info is kept |
| Generator.Merged | swagger-coverage-commandline/src/main/java/com/github/viclovsky/swagger/coverage/core/generator/Generator.java:44-79 | The merge of the parse outcomes in order is absent iff no document parsed |
| Generator.MergedBase | swagger-coverage-commandline/src/main/java/com/github/viclovsky/swagger/coverage/core/generator/Generator.java:52-59 | The merge yields a document iff some document parsed, and its info is that of the first parsed document (the base) |
| Generator.MergedPaths | swagger-coverage-commandline/src/main/java/com/github/viclovsky/swagger/coverage/core/generator/Generator.java:62-74 | A path is in the merged document iff some parsed document declares it, and its item is the one from the first document that declares it |
| Generator.BasePathsKept | swagger-coverage-commandline/src/main/java/com/github/viclovsky/swagger/coverage/core/generator/Generator.java:57-69 | Every path of the base document survives the merge with its own item |
| Generator.MergedPathsAbsent | swagger-coverage-commandline/src/main/java/com/github/viclovsky/swagger/coverage/core/generator/Generator.java:62-65 | The merged document has no path map iff no parsed document has one |
| Generator.SkipUnparsed | swagger-coverage-commandline/src/main/java/com/github/viclovsky/swagger/coverage/core/generator/Generator.java:52-55 | A document that failed to parse leaves the merge unchanged |
| Generator.AddPathItems | swagger-coverage-commandline/src/main/java/com/github/viclovsky/swagger/coverage/core/generator/Generator.java:66-74 | The path loop computes AddMissing of the merged paths and the new document's paths |
| Generator.MergeSpecs | swagger-coverage-commandline/src/main/java/com/github/viclovsky/swagger/coverage/core/generator/Generator.java:44-79 | The merge loop computes the fold Merged over the parse outcomes |
| Generator.PhaseCalls | swagger-coverage-commandline/src/main/java/com/github/viclovsky/swagger/coverage/core/generator/Generator.java:94-98 | A phase calls exactly the builders of its kind, each once, in configuration order |
| Generator.BuildPhase | swagger-coverage-commandline/src/main/java/com/github/viclovsky/swagger/coverage/core/generator/Generator.java:94-95 | The filtered forEach makes exactly the calls PhaseCalls describes |
| Generator.Run | swagger-coverage-commandline/src/main/java/com/github/viclovsky/swagger/coverage/core/generator/Generator.java:44-98 | The run fails iff no document parsed; otherwise it yields the merged document and the pre-builder calls followed by the post-builder calls |
| Generator.PreBuildersBeforePostBuilders | swagger-coverage-commandline/src/main/java/com/github/viclovsky/swagger/coverage/core/generator/Generator.java:94-98 | In the full call sequence, no pre-builder call follows a post-builder call |
| Operations.HttpMethod.Name | swagger-coverage-commandline/src/main/java/com/github/viclovsky/swagger/coverage/core/results/builder/postbuilder/ZeroCallStatisticsBuilder.java:65 | A method's name is non-empty and upper-case, as Java's enum `name()` returns it |
| Exclusion.ParsePattern | swagger-coverage-commandline/src/main/java/com/github/viclovsky/swagger/coverage/core/results/builder/postbuilder/ZeroCallStatisticsBuilder.java:68-89 | A pattern without a method is the trimmed entry itself |
| Exclusion.ParsePatternShape | swagger-coverage-commandline/src/main/java/com/github/viclovsky/swagger/coverage/core/results/builder/postbuilder/ZeroCallStatisticsBuilder.java:68-76 | An entry is a method pattern iff its trimmed form contains whitespace. Then the method has no whitespace, and both method and path are non-empty with the path not starting with whitespace |
| Exclusion.ParseAll | swagger-coverage-commandline/src/main/java/com/github/viclovsky/swagger/coverage/core/results/builder/postbuilder/ZeroCallStatisticsBuilder.java:67-68 | Parsing the configured entries keeps their number and order |
| Exclusion.Matches | swagger-coverage-commandline/src/main/java/com/github/viclovsky/swagger/coverage/core/results/builder/postbuilder/ZeroCallStatisticsBuilder.java:73-89 | A pattern matches an operation only when the path matcher accepts the pattern's path for the operation's path (a method pattern also needs the same method, see MethodPatternNeedsSameMethod) |
| Exclusion.FirstMatch | swagger-coverage-commandline/src/main/java/com/github/viclovsky/swagger/coverage/core/results/builder/postbuilder/ZeroCallStatisticsBuilder.java:67-93 | Returns the first pattern matching the operation (all earlier ones fail), or nothing iff none matches |
| Exclusion.Excluded | swagger-coverage-commandline/src/main/java/com/github/viclovsky/swagger/coverage/core/results/builder/postbuilder/ConditionStatisticsBuilder.java:74-107 | isExcluded as a predicate: an operation can be excluded only when the pattern list is present and non-empty |
| Exclusion.IsExcluded | swagger-coverage-commandline/src/main/java/com/github/viclovsky/swagger/coverage/core/results/builder/postbuilder/ZeroCallStatisticsBuilder.java:59-94 | The loop returns exactly Excluded(policy, op) |
| Exclusion.ExcludedIffSomePatternMatches | swagger-coverage-commandline/src/main/java/com/github/viclovsky/swagger/coverage/core/results/builder/postbuilder/TagStatisticsBuilder.java:98-131 | An operation is excluded iff patterns are configured and at least one parsed entry matches it |
| Exclusion.NoPatternsExcludeNothing | swagger-coverage-commandline/src/main/java/com/github/viclovsky/swagger/coverage/core/results/builder/postbuilder/ConditionStatisticsBuilder.java:75-77 | A missing or empty exclusion list excludes no operation |
| Exclusion.MethodPatternNeedsSameMethod | swagger-coverage-commandline/src/main/java/com/github/viclovsky/swagger/coverage/core/results/builder/postbuilder/ZeroCallStatisticsBuilder.java:73-81 | A method pattern matches iff the upper-cased method equals the operation's method name and its path pattern matches the operation's path |
| Exclusion.PathPatternIgnoresMethod | swagger-coverage-commandline/src/main/java/com/github/viclovsky/swagger/coverage/core/results/builder/postbuilder/ZeroCallStatisticsBuilder.java:82-89 | A path-only pattern treats two operations on the same path alike, whatever their methods |
| Exclusion.ParseIgnoresOuterWhitespace | swagger-coverage-commandline/src/main/java/com/github/viclovsky/swagger/coverage/core/results/builder/postbuilder/ZeroCallStatisticsBuilder.java:68 | Leading and trailing whitespace of an entry does not change the pattern |
| Exclusion.FirstMatchDecides | swagger-coverage-commandline/src/main/java/com/github/viclovsky/swagger/coverage/core/results/builder/postbuilder/ZeroCallStatisticsBuilder.java:78-80 | Once a pattern matches, later patterns cannot change the outcome |
| Exclusion.ExcludedAppend | swagger-coverage-commandline/src/main/java/com/github/viclovsky/swagger/coverage/core/results/builder/postbuilder/ZeroCallStatisticsBuilder.java:67-93 | Excluded by a list of entries iff excluded by its front part or by its back part |
| JavaStrings.Trim | swagger-coverage-commandline/src/main/java/com/github/viclovsky/swagger/coverage/core/results/builder/postbuilder/ZeroCallStatisticsBuilder.java:68 | The trimmed string is no longer than the input and has no character at or below U+0020 at either end |
| JavaStrings.TrimRemovesOnlyTrimmable | swagger-coverage-commandline/src/main/java/com/github/viclovsky/swagger/coverage/option/MainOptions.java:57 | Trimming only removes characters at or below U+0020 from the two ends; the result is a contiguous slice of the input |
| JavaStrings.TrimIdempotent | swagger-coverage-commandline/src/main/java/com/github/viclovsky/swagger/coverage/core/results/builder/postbuilder/ConditionStatisticsBuilder.java:83 | Trimming twice is trimming once |
| JavaStrings.SplitAtFirstSpaceRun | swagger-coverage-commandline/src/main/java/com/github/viclovsky/swagger/coverage/core/results/builder/postbuilder/ZeroCallStatisticsBuilder.java:71 | Splitting yields one or two parts; a single part is the whole string, and two parts are together shorter than the string |
| JavaStrings.SplitWholeIffNoSpace | swagger-coverage-commandline/src/main/java/com/github/viclovsky/swagger/coverage/core/results/builder/postbuilder/ZeroCallStatisticsBuilder.java:71-73 | Splitting yields one part iff the string has no whitespace, and that part is the whole string |
| JavaStrings.SplitRoundTrip | swagger-coverage-commandline/src/main/java/com/github/viclovsky/swagger/coverage/core/results/builder/postbuilder/ZeroCallStatisticsBuilder.java:71 | With two parts, the first has no whitespace, and first part + whitespace run + second part is the original string |
| JavaStrings.SplitOfTrimmedHasNonEmptyParts | swagger-coverage-commandline/src/main/java/com/github/viclovsky/swagger/coverage/core/results/builder/postbuilder/ZeroCallStatisticsBuilder.java:68-76 | After trimming, both parts of a two-part split are non-empty |
| JavaStrings.ToUpper | swagger-coverage-commandline/src/main/java/com/github/viclovsky/swagger/coverage/core/results/builder/postbuilder/ZeroCallStatisticsBuilder.java:75 | Upper-casing keeps the length, raises every lower-case ASCII letter to its capital and leaves every other character alone |
| JavaStrings.SplitFromPieces | swagger-coverage-commandline/src/main/java/com/github/viclovsky/swagger/coverage/option/MainOptions.java:55 | The comma pieces contain no comma, and there is one more piece than there are commas |
| JavaStrings.JoinSplitAll | swagger-coverage-commandline/src/main/java/com/github/viclovsky/swagger/coverage/option/MainOptions.java:55 | Joining the comma pieces with commas gives back the original string |
| JavaStrings.DropTrailingEmpty | swagger-coverage-commandline/src/main/java/com/github/viclovsky/swagger/coverage/option/MainOptions.java:55 | Removing trailing empty pieces keeps a prefix whose last piece is non-empty |
| JavaStrings.JavaSplit | swagger-coverage-commandline/src/main/java/com/github/viclovsky/swagger/coverage/option/MainOptions.java:55 | split(",") with limit 0; its contract is stated by JavaSplitPieces |
| JavaStrings.JavaSplitPieces | swagger-coverage-commandline/src/main/java/com/github/viclovsky/swagger/coverage/option/MainOptions.java:55 | The Java split is the comma split with its trailing empty pieces removed, and no piece contains a comma |
| MainOptions.KeepNonEmptyTrimmed | swagger-coverage-commandline/src/main/java/com/github/viclovsky/swagger/coverage/option/MainOptions.java:56-58 | Keeping the non-blank trimmed pieces never yields more entries than there are pieces |
| MainOptions.Entries | swagger-coverage-commandline/src/main/java/com/github/viclovsky/swagger/coverage/option/MainOptions.java:55-58 | One -s value yields at most one entry per comma piece, that is at most one more entry than it has commas |
| MainOptions.AllEntries | swagger-coverage-commandline/src/main/java/com/github/viclovsky/swagger/coverage/option/MainOptions.java:53-66 | The entries of all values, value after value; its properties are stated by AllEntriesAppend, EntriesAreTrimmedPieces and EntryCountBounded |
| MainOptions.FirstInvalidFrom | swagger-coverage-commandline/src/main/java/com/github/viclovsky/swagger/coverage/option/MainOptions.java:59-63 | Gives the first entry that is not a valid URI (all earlier ones are valid), or nothing iff all are valid |
| MainOptions.SpecPaths | swagger-coverage-commandline/src/main/java/com/github/viclovsky/swagger/coverage/option/MainOptions.java:50-68 | What getSpecPaths returns: on success exactly the entries of all values in order; on failure an entry of the values that is not a valid URI |
| MainOptions.GetSpecPaths | swagger-coverage-commandline/src/main/java/com/github/viclovsky/swagger/coverage/option/MainOptions.java:50-68 | The nested loop returns exactly the specification SpecPaths: all entries in order, or the first invalid entry |
| MainOptions.AppendEntries | swagger-coverage-commandline/src/main/java/com/github/viclovsky/swagger/coverage/option/MainOptions.java:55-65 | The inner loop appends the entries of one value or fails on its first invalid entry |
| MainOptions.AllEntriesAppend | swagger-coverage-commandline/src/main/java/com/github/viclovsky/swagger/coverage/option/MainOptions.java:53-66 | The entries of several values are the entries of each value, concatenated in order |
| MainOptions.KeepAppend | swagger-coverage-commandline/src/main/java/com/github/viclovsky/swagger/coverage/option/MainOptions.java:56-58 | Filtering the pieces distributes over concatenation |
| MainOptions.EntriesAreTrimmedPieces | swagger-coverage-commandline/src/main/java/com/github/viclovsky/swagger/coverage/option/MainOptions.java:55-58 | Every entry is non-empty, contains no comma, and is already trimmed |
| MainOptions.KeepFromPieces | swagger-coverage-commandline/src/main/java/com/github/viclovsky/swagger/coverage/option/MainOptions.java:56-58 | Every entry is the non-blank trimmed form of some comma piece |
| MainOptions.NoCommaGivesTrimmedValue | swagger-coverage-commandline/src/main/java/com/github/viclovsky/swagger/coverage/option/MainOptions.java:55-58 | A value without a comma yields its trimmed self, or nothing when it is blank |
| MainOptions.OnlyCommasAndWhitespaceGiveNothing | swagger-coverage-commandline/src/main/java/com/github/viclovsky/swagger/coverage/option/MainOptions.java:55-58 | A value made only of commas and whitespace yields no entry |
| MainOptions.EntryCountBounded | swagger-coverage-commandline/src/main/java/com/github/viclovsky/swagger/coverage/option/MainOptions.java:55 | There are never more entries than comma pieces |
| MainOptions.SpecPathsFailsOnInvalidEntry | swagger-coverage-commandline/src/main/java/com/github/viclovsky/swagger/coverage/option/MainOptions.java:59-63 | Success iff every entry is a valid URI, with the entries in order; otherwise the error names the first invalid entry |
| ConditionStatistics.Step | swagger-coverage-commandline/src/main/java/com/github/viclovsky/swagger/coverage/core/results/builder/postbuilder/ConditionStatisticsBuilder.java:39-69 | An excluded operation changes nothing. Otherwise the operation is filed only in its state's bucket, both condition counters grow by its counts, and it is counted as deprecated, and as deprecated and empty, exactly when it is |
| ConditionStatistics.Fold | swagger-coverage-commandline/src/main/java/com/github/viclovsky/swagger/coverage/core/results/builder/postbuilder/ConditionStatisticsBuilder.java:39-69 | buildOperation over a run of operations: no bucket, set or counter ever shrinks |
| ConditionStatistics.FoldBuckets | swagger-coverage-commandline/src/main/java/com/github/viclovsky/swagger/coverage/core/results/builder/postbuilder/ConditionStatisticsBuilder.java:49-62 | After a run, each state bucket and the deprecated set are the initial ones plus the kept operations in that state, or the kept deprecated ones |
| ConditionStatistics.StateBucketsPartitionKept | swagger-coverage-commandline/src/main/java/com/github/viclovsky/swagger/coverage/core/results/builder/postbuilder/ConditionStatisticsBuilder.java:49-59 | With distinct operation keys, the three buckets are pairwise disjoint, their union is the kept operations, and each kept operation sits in the bucket of its own state |
| ConditionStatistics.DeprecatedAndEmptyBounded | swagger-coverage-commandline/src/main/java/com/github/viclovsky/swagger/coverage/core/results/builder/postbuilder/ConditionStatisticsBuilder.java:61-67 | The deprecated-and-empty counter never exceeds the deprecated counter |
| ConditionStatistics.CoveredBoundedByAll | swagger-coverage-commandline/src/main/java/com/github/viclovsky/swagger/coverage/core/results/builder/postbuilder/ConditionStatisticsBuilder.java:46-47 | Covered conditions never exceed all conditions when that holds for every operation |
| ConditionStatistics.FoldConditionTotals | swagger-coverage-commandline/src/main/java/com/github/viclovsky/swagger/coverage/core/results/builder/postbuilder/ConditionStatisticsBuilder.java:46-47 | After a run, the condition and covered-condition totals are the starting totals plus the sums over exactly the kept operations; an excluded operation adds nothing |
| ConditionStatistics.StepKeepsCountersMatchingSets | swagger-coverage-commandline/src/main/java/com/github/viclovsky/swagger/coverage/core/results/builder/postbuilder/ConditionStatisticsBuilder.java:61-67 | One operation keeps the deprecated counter equal to the deprecated set's size, and the deprecated-and-empty counter equal to the size of that set's intersection with the empty bucket |
| ConditionStatistics.DeprecatedCountersCountSets | swagger-coverage-commandline/src/main/java/com/github/viclovsky/swagger/coverage/core/results/builder/postbuilder/ConditionStatisticsBuilder.java:61-67 | With distinct keys, after a whole run the two deprecated counters equal the sizes of the sets they count |
| ConditionStatistics.ConditionStatisticsBuilder.constructor | swagger-coverage-commandline/src/main/java/com/github/viclovsky/swagger/coverage/core/results/builder/postbuilder/ConditionStatisticsBuilder.java:22-24 | The builder starts with empty buckets, zero counters and no exclusion list |
| ConditionStatistics.ConditionStatisticsBuilder.Build | swagger-coverage-commandline/src/main/java/com/github/viclovsky/swagger/coverage/core/results/builder/postbuilder/ConditionStatisticsBuilder.java:27-30 | Build stores the exclusion list, folds Step over the operations in order, and publishes the buckets and counters |
| ConditionStatistics.ConditionStatisticsBuilder.BuildOperation | swagger-coverage-commandline/src/main/java/com/github/viclovsky/swagger/coverage/core/results/builder/postbuilder/ConditionStatisticsBuilder.java:39-69 | One call advances the builder's state by Step |
| ConditionStatistics.ConditionStatisticsBuilder.BuildResult | swagger-coverage-commandline/src/main/java/com/github/viclovsky/swagger/coverage/core/results/builder/postbuilder/ConditionStatisticsBuilder.java:33-36 | The results receive the builder's buckets and counters |
| ZeroCallStatistics.Step | swagger-coverage-commandline/src/main/java/com/github/viclovsky/swagger/coverage/core/results/builder/postbuilder/ZeroCallStatisticsBuilder.java:33-42 | A called operation changes nothing. An uncalled excluded operation joins the excluded set and raises the excluded count by one, leaving the zero-call set alone; an uncalled kept one joins the zero-call set, leaving the excluded set and count alone |
| ZeroCallStatistics.StepFilesUncalled | swagger-coverage-commandline/src/main/java/com/github/viclovsky/swagger/coverage/core/results/builder/postbuilder/ZeroCallStatisticsBuilder.java:34-41 | An uncalled operation not yet filed lands in exactly one of the two sets: the excluded set iff the policy excludes it, the zero-call set otherwise; the union of the sets gains exactly its key |
| ZeroCallStatistics.Fold | swagger-coverage-commandline/src/main/java/com/github/viclovsky/swagger/coverage/core/results/builder/postbuilder/ZeroCallStatisticsBuilder.java:33-42 | buildOperation over a run of operations: the two sets and the count never shrink |
| ZeroCallStatistics.FoldSelects | swagger-coverage-commandline/src/main/java/com/github/viclovsky/swagger/coverage/core/results/builder/postbuilder/ZeroCallStatisticsBuilder.java:33-42 | After a run, the zero-call set holds the uncalled kept keys, the excluded set holds the uncalled excluded keys, and the count is the number of uncalled excluded operations |
| ZeroCallStatistics.UncalledPartitioned | swagger-coverage-commandline/src/main/java/com/github/viclovsky/swagger/coverage/core/results/builder/postbuilder/ZeroCallStatisticsBuilder.java:34-41 | The zero-call and excluded sets are disjoint and together hold exactly the uncalled operations |
| ZeroCallStatistics.UncalledCounted | swagger-coverage-commandline/src/main/java/com/github/viclovsky/swagger/coverage/core/results/builder/postbuilder/ZeroCallStatisticsBuilder.java:35-37 | With distinct keys, the excluded count equals the size of the excluded set, and the two sets together are as large as the number of uncalled operations |
| ZeroCallStatistics.NoPatternsExcludeNone | swagger-coverage-commandline/src/main/java/com/github/viclovsky/swagger/coverage/core/results/builder/postbuilder/ZeroCallStatisticsBuilder.java:60-62 | Without exclusion entries, every uncalled operation is zero-call and nothing is excluded |
| ZeroCallStatistics.ZeroCallStatisticsBuilder.constructor | swagger-coverage-commandline/src/main/java/com/github/viclovsky/swagger/coverage/core/results/builder/postbuilder/ZeroCallStatisticsBuilder.java:21-24 | The builder starts with empty sets, a zero count and no exclusion list |
| ZeroCallStatistics.ZeroCallStatisticsBuilder.Build | swagger-coverage-commandline/src/main/java/com/github/viclovsky/swagger/coverage/core/results/builder/postbuilder/ZeroCallStatisticsBuilder.java:27-30 | Build stores the exclusion list, folds Step over the operations, and publishes the two sets and the count |
| ZeroCallStatistics.ZeroCallStatisticsBuilder.BuildOperation | swagger-coverage-commandline/src/main/java/com/github/viclovsky/swagger/coverage/core/results/builder/postbuilder/ZeroCallStatisticsBuilder.java:33-42 | One call advances the builder's state by Step |
| ZeroCallStatistics.ZeroCallStatisticsBuilder.BuildResult | swagger-coverage-commandline/src/main/java/com/github/viclovsky/swagger/coverage/core/results/builder/postbuilder/ZeroCallStatisticsBuilder.java:45-49 | The results receive the two sets and the count |
| CoverageResults.CoverageCounter.IncrementByState | swagger-coverage-commandline/src/main/java/com/github/viclovsky/swagger/coverage/core/results/builder/postbuilder/TagStatisticsBuilder.java:91 | Exactly the counter of the given state grows, by one |
| TagStatistics.ConfiguredTagsShape | swagger-coverage-commandline/src/main/java/com/github/viclovsky/swagger/coverage/core/results/builder/postbuilder/TagStatisticsBuilder.java:41-54 | With distinct declared names, there is one record per declared tag, carrying its name, the initial state, zero totals, and exactly the operations that list the tag |
| TagStatistics.DistinctCardinality | swagger-coverage-commandline/src/main/java/com/github/viclovsky/swagger/coverage/core/results/builder/postbuilder/TagStatisticsBuilder.java:41-44 | Distinct declared names give as many tag records as names |
| TagStatistics.DeclareTags | swagger-coverage-commandline/src/main/java/com/github/viclovsky/swagger/coverage/core/results/builder/postbuilder/TagStatisticsBuilder.java:41-44 | The tag map is built iff the declared names are distinct (Java's toMap throws otherwise) |
| TagStatistics.CollectTagged | swagger-coverage-commandline/src/main/java/com/github/viclovsky/swagger/coverage/core/results/builder/postbuilder/TagStatisticsBuilder.java:46-50 | The operation-to-tags map holds exactly the operations whose tag list is present |
| TagStatistics.MembersAmongAdd | swagger-coverage-commandline/src/main/java/com/github/viclovsky/swagger/coverage/core/results/builder/postbuilder/TagStatisticsBuilder.java:52-54 | Visiting one more operation adds it to exactly the tags it lists |
| TagStatistics.AttachOne | swagger-coverage-commandline/src/main/java/com/github/viclovsky/swagger/coverage/core/results/builder/postbuilder/TagStatisticsBuilder.java:52-54 | One operation is added to the operations of exactly the declared tags it lists; nothing else changes |
| TagStatistics.AttachOperations | swagger-coverage-commandline/src/main/java/com/github/viclovsky/swagger/coverage/core/results/builder/postbuilder/TagStatisticsBuilder.java:52-54 | Attaching all operations yields the configured tag map |
| TagStatistics.UpdateTag | swagger-coverage-commandline/src/main/java/com/github/viclovsky/swagger/coverage/core/results/builder/postbuilder/TagStatisticsBuilder.java:77-82 | Updating a tag keeps its name and operations, adds the result to its totals, and recomputes its state from the new totals |
| TagStatistics.AddTimesAddsMultiples | swagger-coverage-commandline/src/main/java/com/github/viclovsky/swagger/coverage/core/results/builder/postbuilder/TagStatisticsBuilder.java:75-82 | Adding a result n times adds n times its call count, conditions and state increment |
| TagStatistics.Add | swagger-coverage-commandline/src/main/java/com/github/viclovsky/swagger/coverage/core/results/builder/postbuilder/TagStatisticsBuilder.java:77-81 | One update chain adds exactly one operation result to the tag's per-state counter, in the bucket of that result's state |
| TagStatistics.ApplyTags | swagger-coverage-commandline/src/main/java/com/github/viclovsky/swagger/coverage/core/results/builder/postbuilder/TagStatisticsBuilder.java:75-83 | Applying an operation's tag list never adds or removes a tag |
| TagStatistics.ApplyTagsAt | swagger-coverage-commandline/src/main/java/com/github/viclovsky/swagger/coverage/core/results/builder/postbuilder/TagStatisticsBuilder.java:73-85 | A declared tag listed n times receives the result n times; other tags are unchanged |
| TagStatistics.ApplyTagsEffect | swagger-coverage-commandline/src/main/java/com/github/viclovsky/swagger/coverage/core/results/builder/postbuilder/TagStatisticsBuilder.java:73-85 | Each declared tag receives the result once per listing, keeping its name and operations; undeclared listed tags are ignored |
| TagStatistics.Listings | swagger-coverage-commandline/src/main/java/com/github/viclovsky/swagger/coverage/core/results/builder/postbuilder/TagStatisticsBuilder.java:68-76 | An entry feeds a tag iff the policy keeps it, it has a tag list, and the list names the tag; it feeds it once per listing |
| TagStatistics.Step | swagger-coverage-commandline/src/main/java/com/github/viclovsky/swagger/coverage/core/results/builder/postbuilder/TagStatisticsBuilder.java:66-86 | An excluded or untagged operation changes nothing. Otherwise every declared tag keeps its name and operations, its totals receive the result once per listing (Listings), an unlisted tag is untouched, and a tag that received the result has its state recomputed from its new totals |
| TagStatistics.FoldKeepsTagsAndMembers | swagger-coverage-commandline/src/main/java/com/github/viclovsky/swagger/coverage/core/results/builder/postbuilder/TagStatisticsBuilder.java:66-86 | A whole run keeps the declared tags and each tag's name and operations |
| TagStatistics.Fold | swagger-coverage-commandline/src/main/java/com/github/viclovsky/swagger/coverage/core/results/builder/postbuilder/TagStatisticsBuilder.java:66-86 | buildOperation over a run of operations never adds or removes a tag |
| TagStatistics.FoldTotals | swagger-coverage-commandline/src/main/java/com/github/viclovsky/swagger/coverage/core/results/builder/postbuilder/TagStatisticsBuilder.java:66-86 | After a run, every declared tag's totals are its starting totals with each entry's result added once per listing (RunTotals) |
| TagStatistics.RunTotalsSums | swagger-coverage-commandline/src/main/java/com/github/viclovsky/swagger/coverage/core/results/builder/postbuilder/TagStatisticsBuilder.java:77-81 | The tag rollup: over a run a tag's call count grows by the sum of the call counts fed into it, and its per-state counter by the number of results fed into it |
| TagStatistics.ListingsFromMembers | swagger-coverage-commandline/src/main/java/com/github/viclovsky/swagger/coverage/core/results/builder/postbuilder/TagStatisticsBuilder.java:52-76 | With the configured tag map, an entry feeds a tag iff its operation is one of the tag's operations and the policy keeps it, so an excluded member stays a member but adds nothing |
| TagStatistics.TagsInStateAdd | swagger-coverage-commandline/src/main/java/com/github/viclovsky/swagger/coverage/core/results/builder/postbuilder/TagStatisticsBuilder.java:91 | One more tag raises the number of tags in its own state by one and leaves the other states alone |
| TagStatistics.StateCountsOverAdd | swagger-coverage-commandline/src/main/java/com/github/viclovsky/swagger/coverage/core/results/builder/postbuilder/TagStatisticsBuilder.java:91 | Counting one more tag increments the counter of that tag's state |
| TagStatistics.StateCountsCoverEveryTag | swagger-coverage-commandline/src/main/java/com/github/viclovsky/swagger/coverage/core/results/builder/postbuilder/TagStatisticsBuilder.java:91 | The three tag counters add up to the number of tags |
| TagStatistics.TagStatisticsBuilder.constructor | swagger-coverage-commandline/src/main/java/com/github/viclovsky/swagger/coverage/core/results/builder/postbuilder/TagStatisticsBuilder.java:31-35 | The builder starts with no tags, no tagged operations, zero counters and no exclusion list |
| TagStatistics.TagStatisticsBuilder.Configure | swagger-coverage-commandline/src/main/java/com/github/viclovsky/swagger/coverage/core/results/builder/postbuilder/TagStatisticsBuilder.java:38-57 | Succeeds iff the declared names are distinct; then the operation-to-tags map and the tag map are the configured ones, otherwise nothing changes |
| TagStatistics.TagStatisticsBuilder.Build | swagger-coverage-commandline/src/main/java/com/github/viclovsky/swagger/coverage/core/results/builder/postbuilder/TagStatisticsBuilder.java:60-63 | Build stores the exclusion list, folds Step over the operations, adds the per-state tag counts to the counter, and publishes both |
| TagStatistics.TagStatisticsBuilder.BuildOperation | swagger-coverage-commandline/src/main/java/com/github/viclovsky/swagger/coverage/core/results/builder/postbuilder/TagStatisticsBuilder.java:66-86 | One call advances the tag map by Step |
| TagStatistics.TagStatisticsBuilder.BuildResult | swagger-coverage-commandline/src/main/java/com/github/viclovsky/swagger/coverage/core/results/builder/postbuilder/TagStatisticsBuilder.java:89-93 | The tag counter grows by one per tag in that tag's state, and the results receive the tag map and the counter |

## Left out

- Path matching (Spring's `AntPathMatcher.match`) is not part of this model. It is a `PathMatcher` function value given to each builder, and every property holds for any matcher.
- URI syntax checking (`new URI`) is the parameter `validUri`. The model returns the offending entry as `InvalidUri` instead of throwing `IllegalArgumentException`.
- `TagCoverage` and its `updateState` are not part of this model. A tag's initial state and its state rule are the parameter `TagRules`, and the rule is assumed to depend only on the tag's totals.
- `StatisticsOperationPostBuilder` is not part of this model. Its `build` is assumed to call `buildOperation` once per recorded operation, in a given order, and then `buildResult`.
- Reading specifications, parsing them and processing the recorded outputs are left out, as are logging, JCommander, the configuration file and the results writers. Parse outcomes are an input sequence.
- `OperationKey.toString` equality in the tag builder is modelled as key equality, which assumes `toString` is injective.
- Java `int` overflow of the counters and of `excludedCount` is not modelled: the counters are unbounded.
- `toUpperCase` is modelled for ASCII letters only; locale rules and other alphabets are left out.
- HashMap iteration order is left out: the tag builder's loops pick keys in an arbitrary order, and the proved results do not depend on it.
- Aliasing is left out. The base document is updated in place, and published maps are shared with `Results`; the model copies values instead.
- A tag builder used before `configure` would throw a NullPointerException in Java. The model starts it with empty maps.
- Duplicate declared tag names make `Collectors.toMap` throw. The model reports this as `Configure` returning false and leaves the builder unchanged.
- A null element in the configured exclusion list makes Java's `isExcluded` throw a NullPointerException on `trim`. The model's strings cannot be null, so it does not capture that failure.
- Calling `isExcluded` on a malformed entry follows the code: every entry is parsed, and an entry of one word is a path pattern. The method is compared by upper-casing the pattern, not case-insensitively.
