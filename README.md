# pinnochio, modelled in Dafny

pinnochio is a linter for the dependency lists of a uv-managed `pyproject.toml`. It
reads four kinds of group:

- `[project].dependencies` (the core group);
- `[dependency-groups].dev`;
- every list of `[project.optional-dependencies]`.

It then runs four rules over them:

- **upper bounds** (`check_upper_bounds`): every pin with a `>` in it also needs a
  `<`. With `--fix`, `_add_upper_bound` synthesises the missing `<` from the first
  `>=` clause and the configured pinning strategy (major, minor or patch).
- **sorted** (`check_all_groups_are_sorted`): every group must be in Python string
  order. With `--fix`, each offending group is replaced by its sorted pins.
- **drift** (`check_group_overlaps_match`): two groups must not pin the same package
  with different text. This rule only reports.
- **no overlap** (`check_no_overlap_between_core_deps_and_groups`): a non-core group
  must not repeat a package of the core group. With `--fix`, the repeated pins are
  removed from the non-core groups.

Each rule returns a `CheckResult`: a status (PASSED, FAILED or FIXED) and the problem
pins per group, in the order the groups were first recorded.

The Dafny project follows the two core files, `pinnochio/core.py` and
`pinnochio/config.py`.

- **Values.**
  - A Python dict is an ordered `Table<V> = seq<(string, V)>` (module `OrderedTable`).
    `Put` is `d[k] = v` and `AppendItem` is `defaultdict(list)[k].append(x)`, so the
    issue tables keep the source's insertion order exactly.
  - A document is the class `Document.Document`. Its fields are the three top-level
    tables the engine reads or writes.
  - `get_dependency_array`, `set_dependency_array` and `update_dependencies_in_group`
    have pure specifications: `GetDependencyArray`, `WithDependencyArray` and
    `UpdatedGroup`. The class methods are proved against these.
  - Exceptions are `Result`/`Option` values. `Common.Error` has one constructor per
    kind of error raised.
- **Loops.**
  - Every detection loop of the rules is a `method` with a `while` loop, proved equal
    to a left fold that mirrors the loop.
  - For the upper-bound and sort rules, the fold is then proved equal to an
    independent reference table, such as "the groups that are not sorted, with their
    pins, in group order".
  - For the drift and overlap rules, the proof states which pins are recorded under
    which group, against an independent predicate such as "a pin of this group that
    names the same package as a different pin of another group". The order of each
    recorded list and the repetitions in it are given only by the fold.
  - The two fix loops are methods proved equal to two folds. The upper-bound fix puts
    a `try` around each group (`Checks.UpdateEach`). The sort and overlap fixes let
    the first error escape (`Checks.UpdateAll`).
  - The effect of each fix on every group is then stated as lemmas.
- **Pins.**
  - `split_pin` uses packaging's `Requirement`. It is modelled by a small PEP 508 /
    PEP 440 parser (module `Requirements`): a name, optional `[extras]`, and
    comma-separated clauses, each an operator followed by a version.
  - With that parser, the text `_add_upper_bound` writes is proved to read back as
    the intended requirement, and the function is proved idempotent.

Two behaviours of the source are stated as lemmas rather than corrected:

- The upper-bound rule flags a pin textually: it has a `>` and no `<`. The fix, on
  the other hand, needs a `>=` clause. So `name>1.0` is flagged
  (`UpperBound.GreaterThanIsFlagged`) but can never be fixed
  (`UpperBound.GreaterThanIsNotFixable`). The rule's `try` leaves such a group as it
  was, and the rule still reports FIXED (`UpperBoundRule.CheckUpperBounds`,
  `UpperBoundRule.UpperBoundFixResult`).
- `load_uv_dependencies` builds `{"dependencies": …, "dev": …, **optional}`. So an
  optional group named `dev` replaces the dev list in the groups the rules see,
  while writing to `dev` still targets `[dependency-groups].dev`
  (`Loader.LoadedDevShadowed`).

## Model

| member | source | states |
|---|---|---|
| Config.StrategyOf | pinnochio/config.py:10-15 | a text names a strategy exactly when it is "major", "minor" or "patch", and the strategy found is the one whose value is that text |
| Config.StrategyOfValue | pinnochio/config.py:10-15 | every strategy is recognised from its own value |
| Config.DefaultConfig | pinnochio/config.py:18-22 | the default configuration pins with the MAJOR strategy |
| Config.LoadConfig | pinnochio/config.py:25-60 | without `[tool]` or `[tool.pinnochio]` the defaults are used; a `[tool.pinnochio]` that is not a table is rejected; a table without `pinning-strategy` gives MAJOR; a `pinning-strategy` value is accepted exactly when it spells a strategy, and then that strategy is loaded, otherwise the error names the value |
| Config.LoadConfigSpellings | tests/test_core.py:467-505 | "major", "minor" and "patch" load as MAJOR, MINOR and PATCH; "invalid" is rejected with that value |
| Loader.PutAll | pinnochio/core.py:89-96 | building the groups dict by successive assignments keeps its keys distinct |
| Loader.LoadUvDependencies | pinnochio/core.py:48-100 | a missing `[project]`, `project.dependencies`, `[dependency-groups]` or `dependency-groups.dev` is reported in that order of priority; otherwise loading succeeds exactly when the configuration loads, and returns that configuration; the loaded groups have distinct names |
| Loader.PutAllFresh | pinnochio/core.py:89-96 | assigning distinct names that are not yet present appends them in order |
| Loader.PutAllGet | pinnochio/core.py:89-96 | after the assignments a name reads as its assigned list when it was assigned, else as before |
| Loader.LoadedGroupsMatchDocument | pinnochio/core.py:89-96 | when no optional group is named `dependencies` or `dev`, the groups are `dependencies`, `dev` and then the optional groups in order, and each reads as the document's array for that group |
| Loader.LoadedDevShadowed | pinnochio/core.py:89-96 | an optional group named `dev` replaces the dev list in the loaded groups, while the document's `dev` array is still `[dependency-groups].dev` |
| Document.GetDependencyArray | pinnochio/core.py:110-130 | every failure is a missing key; a group other than `dependencies` and `dev` can be read exactly when it is an entry of the optional-dependencies table |
| Document.WithDependencyArrayReadsBack | pinnochio/core.py:133-152 | after a successful set, the group reads back as exactly the pins written |
| Document.WithDependencyArrayFrame | pinnochio/core.py:133-152 | setting a group leaves every other group reading as before |
| Document.WithDependencyArrayNames | pinnochio/core.py:149-152 | an optional group that already exists keeps its position; a new one is added at the end of the table |
| Document.WithDependencyArrayFails | pinnochio/core.py:133-152 | setting fails exactly when the table that holds the group is missing, so a group that can be read can always be written |
| Document.WithSameArray | pinnochio/core.py:133-152 | writing back the pins a group already has leaves the document unchanged |
| Document.UpdatedGroupEffect | pinnochio/core.py:155-180 | an update fails exactly when the group cannot be read or the transformation raises; otherwise the group reads as the transformed list, and every other group and the `[tool]` table are unchanged |
| Document.Document.constructor | pinnochio/core.py:63 | the new document holds the given tables |
| Document.Document.SetDependencyArray | pinnochio/core.py:133-152 | the document becomes the state `WithDependencyArray` describes, or stays unchanged with the missing key reported |
| Document.Document.UpdateDependenciesInGroup | pinnochio/core.py:155-180 | the document becomes the state `UpdatedGroup` describes, or stays unchanged with the error reported |
| Checks.UpdateEachGroup | pinnochio/core.py:218-235 | the fix loop with a `try` around each group leaves the document the per-group fold describes, with failed groups left as they were |
| Checks.UpdateAllGroups | pinnochio/core.py:277-278 | the fix loop without a `try` leaves the document and the escaping error the stop-at-first-error fold describes |
| Checks.UpdateEachEffect | pinnochio/core.py:218-235 | with distinct group names, the try-each loop leaves unnamed groups as they were, and leaves each named group as its one update made it (transformed, or unchanged when the update raised); `[tool]` is kept |
| Checks.UpdateAllFrame | pinnochio/core.py:277-278 | the stop-at-first-error loop never changes a group it does not name, nor `[tool]` |
| Checks.UpdateAllEffect | pinnochio/core.py:277-278 | with distinct names, the loop finishes without error exactly when every named group can be read and transformed, and then each named group holds its transformed list |
| Checks.UpdateAllIdentity | pinnochio/core.py:277-278 | updates that rewrite each readable group to the list it already holds change nothing and raise nothing |
| OrderedTable.Get | pinnochio/core.py:310-311 | a lookup succeeds exactly for a present key, and returns a value stored under it |
| OrderedTable.PutGet | pinnochio/core.py:267 | after `d[k] = v`, `d[k]` is `v` and every other key reads as before |
| OrderedTable.PutKeys | pinnochio/core.py:267 | `d[k] = v` keeps the key order when `k` is present and appends `k` otherwise |
| OrderedTable.PutDistinct | pinnochio/core.py:267 | assignment keeps the keys distinct |
| OrderedTable.PutSame | pinnochio/core.py:152 | assigning a key the value it holds changes nothing |
| OrderedTable.AppendItem | pinnochio/core.py:206 | `d[k].append(x)` on a defaultdict makes `d[k]` its old list (empty if absent) followed by `x`, leaves other keys alone and keeps keys distinct |
| OrderedTable.AppendItemKeepsNonEmpty | pinnochio/core.py:206 | appending never creates an empty list, records `x` under `k`, and records nothing else new |
| OrderedTable.KeyIffRecorded | pinnochio/core.py:208 | in an issue table without empty lists, a group is present exactly when some pin is recorded under it, so the table is truthy exactly when something was recorded |
| Text.Split | pinnochio/core.py:357 | splitting never yields an empty list or a piece holding the separator, and joining the pieces gives the text back |
| Text.SplitJoin | pinnochio/core.py:409 | splitting the comma-join of separator-free pieces gives the pieces back |
| Text.DigitsValueOfNatToString | pinnochio/core.py:396-402 | reading back the digits `str(n)` prints gives `n` |
| StringOrder.LexLeTotal | pinnochio/core.py:266 | any two strings are ordered one way or the other |
| StringOrder.LexLeAntisymmetric | pinnochio/core.py:266 | strings ordered both ways are equal |
| StringOrder.LexLeTransitive | pinnochio/core.py:266 | the string order is transitive |
| StringOrder.SortStrings | pinnochio/core.py:266 | `sorted(group)` is in Python string order and is a permutation of the group |
| StringOrder.SortedUnique | pinnochio/core.py:266 | two sorted lists with the same elements are equal, so `sorted` has one possible result |
| StringOrder.SortStringsFixesExactlySorted | pinnochio/core.py:266 | `group != sorted(group)` holds exactly for the groups that are not sorted |
| StringOrder.SortStringsIdempotent | pinnochio/core.py:278 | sorting a sorted group gives it back |
| StringOrder.SortedSet | pinnochio/core.py:409 | `sorted(set(extras))` is sorted, has the same elements and repeats none |
| Requirements.ParseRequirement | pinnochio/core.py:343-360 | a pin that parses has a valid project name and valid extras names |
| Requirements.ParseClause | pinnochio/core.py:343-360 | a clause that parses is a non-empty operator followed by its version text, that text is a version of the form the operator admits, and its release numbers are that version's; for `<`, `<=`, `>` and `>=` the text is a public version |
| Requirements.ClauseVersionRules | pinnochio/core.py:343-360 | a version accepted after an operator starts with a digit; a local label (`+`) or a wildcard (`*`) is accepted only after `==` or `!=`; `~=` needs at least two release numbers; `===` is never accepted |
| Requirements.ParseClauses | pinnochio/core.py:343-360 | the comma-separated clauses parse one by one, in order |
| Requirements.ParseVersion | pinnochio/core.py:388 | a public version (release numbers, then optional pre-, post- and dev-release segments) reads as its release; such a version starts with a digit and holds only digits, letters and the separators `.`, `-` and `_` |
| Requirements.UnknownSuffixRejected | pinnochio/core.py:388 | a version whose release numbers are followed by text that starts no pre-, post- or dev-release segment does not parse: `1.0xyz`, `1..0`, `1.0.` and `1.0+local` are rejected |
| UpperBound.LowerBound | pinnochio/core.py:383-389 | there is no lower bound exactly when no clause is `>=`; otherwise it is the first `>=` clause |
| UpperBound.FindLowerBound | pinnochio/core.py:383-389 | the search loop finds the first `>=` clause, or none |
| UpperBound.UpperReleaseBounds | pinnochio/core.py:395-402 | the synthesised bound lies above the lower bound, and a release at or above the lower bound stays below it exactly when it has the same major (MAJOR), the same major.minor (MINOR) or is the same release (PATCH) |
| UpperBound.AddUpperBound | pinnochio/core.py:363-392 | a pin that does not parse raises `InvalidRequirement`; a pin with a `<` or `<=` clause is returned unchanged; `NoLowerBound` is raised exactly for a parsed pin with no upper bound and no `>=` clause |
| UpperBound.ParseRenderedRelease | pinnochio/core.py:396-402 | the rendered bound `major.minor.micro` parses as the same release |
| UpperBound.BoundsTextReadsBack | pinnochio/core.py:410 | the written specifier `>=lower,<upper` parses as the lower clause followed by the new `<` clause |
| UpperBound.AssembledPinReadsBack | pinnochio/core.py:407-410 | the assembled pin parses with the same name, the sorted distinct extras and the clauses `[lower, <upper]` |
| UpperBound.AddUpperBoundReadsBack | pinnochio/core.py:363-410 | for a pin with a `>=` clause and no upper bound, the result parses as the same package with its extras sorted and deduplicated, its first `>=` clause, and a `<` clause at the bound the strategy computes |
| UpperBound.AddUpperBoundIdempotent | pinnochio/core.py:379-380 | adding an upper bound to a pin that already got one changes nothing |
| UpperBound.UpperBoundMentionsLess | pinnochio/core.py:205 | a parsed pin with a `<` or `<=` clause has a `<` in its text, so it is never flagged |
| UpperBound.FixedPinNotFlagged | pinnochio/core.py:205 | a flagged pin that the fix accepts is changed, and the changed pin is no longer flagged |
| UpperBound.AddUpperBoundOfAtLeastPin | tests/test_core.py:110-125 | `name>=v` becomes `name>=v,<bound`, with the bound the strategy computes from `v` |
| UpperBound.GreaterThanIsFlagged | pinnochio/core.py:205 | `name>v` is flagged as missing an upper bound |
| UpperBound.GreaterThanIsNotFixable | tests/test_core.py:140-143 | `name>v` cannot be fixed: it raises `NoLowerBound` |
| UpperBound.RejectedWithoutLowerBound | pinnochio/core.py:391-392 | a parsed pin whose clauses are neither `>=`, `<` nor `<=` raises `NoLowerBound` |
| UpperBoundRule.FlaggedPins | pinnochio/core.py:203-206 | a group's flagged pins are exactly its pins that have a `>` and no `<` |
| UpperBoundRule.Unpinned | pinnochio/core.py:200-206 | the issue table has distinct group names |
| UpperBoundRule.CollectUnpinned | pinnochio/core.py:200-206 | the detection loop computes the issue table |
| UpperBoundRule.FlagPinsNew | pinnochio/core.py:203-206 | scanning a group not yet recorded appends it with its flagged pins, or nothing when it has none |
| UpperBoundRule.UnpinnedIsFlaggedGroups | pinnochio/core.py:200-206 | with distinct group names, the detection records exactly the groups with a flagged pin, in group order, each with its flagged pins in order |
| UpperBoundRule.FlaggedGroupsGet | pinnochio/core.py:200-206 | a group's entry in the issues is its flagged pins, and it has no entry when it has none |
| UpperBoundRule.FlaggedGroupsEmpty | pinnochio/core.py:208 | nothing is recorded exactly when no pin of any group is flagged |
| UpperBoundRule.UpperBoundsPassIff | pinnochio/core.py:208-243 | the rule passes exactly when no pin of any group is flagged |
| UpperBoundRule.RewritePins | pinnochio/core.py:220-224 | rewriting the listed pins of a group succeeds exactly when each listed pin in it can be rewritten; then the list keeps its length and order, with each listed pin rewritten and every other pin kept |
| UpperBoundRule.FixPins | pinnochio/core.py:220-224 | the per-group fix succeeds exactly when `_add_upper_bound` accepts every listed pin of the group; then each listed pin is replaced by its bounded form and every other pin is kept in place |
| UpperBoundRule.FixPinsUnflags | pinnochio/core.py:220-224 | after a successful fix of a group's flagged pins, none of its pins is flagged |
| UpperBoundRule.CheckUpperBounds | pinnochio/core.py:183-243 | the issues are the detected table; the status is PASSED when it is empty, else FIXED when fixing, else FAILED; when fixing, the document is the try-each fold over the recorded groups, otherwise it is unchanged |
| UpperBoundRule.UpperBoundFixResult | pinnochio/core.py:216-239 | after the fix every loaded group still reads; a group whose flagged pins all get an upper bound has no flagged pin left; a group with a flagged pin that cannot be fixed is left as it was |
| SortRule.Unsorted | pinnochio/core.py:263-267 | the issue table has distinct names, all of them group names |
| SortRule.CollectUnsorted | pinnochio/core.py:263-267 | the detection loop computes the issue table |
| SortRule.UnsortedIsUnsortedGroups | pinnochio/core.py:263-267 | with distinct group names, the detection records exactly the groups that are not sorted, with their pins, in group order |
| SortRule.UnsortedGroupsEmpty | pinnochio/core.py:269 | the reference table is empty exactly when every group is sorted |
| SortRule.SortedPassIff | pinnochio/core.py:269-285 | the rule passes exactly when every group is sorted |
| SortRule.CheckAllGroupsAreSorted | pinnochio/core.py:246-285 | PASSED with no issues and the document unchanged when every group is sorted; FAILED with the unsorted groups when not fixing; when fixing, the document is the stop-at-first-error fold of `sorted` over them, and the result is FIXED, or the error that stopped the loop |
| SortRule.SortUpdatesDistinct | pinnochio/core.py:277-278 | the fix updates each recorded group once |
| SortRule.SortFixEffect | pinnochio/core.py:275-281 | the fix raises exactly when a recorded group is missing from the document; otherwise each recorded group reads as a sorted permutation of its old pins; every other group reads as before |
| SortRule.SortFixIdempotent | pinnochio/core.py:275-281 | running the fix again on what it left changes nothing |
| DriftRule.DriftUpTo | pinnochio/core.py:306-321 | the drift table never holds an empty list |
| DriftRule.CollectPair | pinnochio/core.py:313-321 | one step of the innermost loop records a drifting pair, each pin under its group |
| DriftRule.CollectRow | pinnochio/core.py:309-321 | the loop over the second group's pins computes its fold |
| DriftRule.CollectProduct | pinnochio/core.py:309-321 | the loop over the pairs of pins of two groups computes its fold |
| DriftRule.CollectDrift | pinnochio/core.py:306-321 | the loops over all pairs of groups compute the drift table |
| DriftRule.CheckGroupOverlapsMatch | pinnochio/core.py:288-340 | the issues are the drift table, and the status is PASSED when it is empty and FAILED otherwise, with or without fixing; the document is never written |
| DriftRule.DriftUpToRecorded | pinnochio/core.py:306-321 | a pin is recorded under a group exactly when one of the enumerated pairs of groups records it |
| DriftRule.PairHitIff | pinnochio/core.py:308-312 | the pairs of groups `combinations(groups, 2)` enumerates, taken with both orientations of the recording, cover exactly the drifting pins |
| DriftRule.DriftRecordedIff | pinnochio/core.py:306-321 | a pin is recorded under a group exactly when it is a pin of that group that parses, and it names the same package as a different pin of some other group |
| DriftRule.DriftBothSides | pinnochio/core.py:316-318 | a drifting pair of pins of two different groups is recorded on both sides |
| DriftRule.DriftPassIff | pinnochio/core.py:323-340 | the rule passes exactly when no pin drifts |
| OverlapRule.Redundant | pinnochio/core.py:433-449 | the detection raises a KeyError exactly when there is no `dependencies` group |
| OverlapRule.RedundantUpTo | pinnochio/core.py:433-449 | the issue table has distinct names and no empty list |
| OverlapRule.CollectPin | pinnochio/core.py:441-447 | one step of the innermost loop records a pin that names the core package |
| OverlapRule.CollectIn | pinnochio/core.py:441-447 | the loop over a group's pins computes its fold |
| OverlapRule.CollectAcross | pinnochio/core.py:438-447 | the loop over the non-core groups computes its fold |
| OverlapRule.CollectCore | pinnochio/core.py:436-449 | one core pin that parses scans every other group, and one that does not parse is skipped |
| OverlapRule.CollectUpTo | pinnochio/core.py:435-449 | the loop over the core pins computes the issue table |
| OverlapRule.CollectRedundant | pinnochio/core.py:433-449 | the detection computes the issue table, or the KeyError |
| OverlapRule.Without | pinnochio/core.py:465 | the filtered list holds exactly the pins not listed for removal and is no longer than the group |
| OverlapRule.WithoutConcat | pinnochio/core.py:465 | filtering distributes over concatenation, so order is kept |
| OverlapRule.WithoutIdempotent | pinnochio/core.py:465 | filtering twice is filtering once |
| OverlapRule.CheckNoOverlap | pinnochio/core.py:416-473 | the KeyError when there is no core group; PASSED with no issues and the document unchanged when nothing overlaps; FAILED with the redundant pins when not fixing; when fixing, the document is the stop-at-first-error fold of removals, and the result is FIXED or the error that stopped it |
| OverlapRule.RedundantUpToRecorded | pinnochio/core.py:435-449 | a pin is recorded under a group exactly when the nested loops reach it |
| OverlapRule.CoreHitIff | pinnochio/core.py:435-449 | the nested loops reach exactly the pins of non-core groups that parse and name the package of some parsed core pin |
| OverlapRule.RedundantRecordedIff | pinnochio/core.py:433-449 | a pin is recorded under a group exactly when the group is not the core group, the pin is in it, parses, and names the same package as some core pin |
| OverlapRule.CoreNeverRecorded | pinnochio/core.py:439-440 | the core group itself is never reported |
| OverlapRule.OverlapFixResult | pinnochio/core.py:459-469 | after a fix that raised nothing, each group reads as its old list filtered of its recorded pins, so a pin remains exactly when it was there and was not recorded; the core group is unchanged |
| OverlapRule.OverlapPassIff | pinnochio/core.py:451-473 | the rule passes exactly when no pin of a non-core group names a core package |

## Left out

- Reading and writing `pyproject.toml` (`load_uv_dependencies`' file access, `save_toml_document`, core.py:103-107) is left out. The model starts from the parsed document, as a value of `Document.DocState`, and writes back to it.
- The printed messages of every rule are left out; only the returned `CheckResult`, the document and the raised errors are modelled.
- tomlkit formatting (multiline arrays, comments, whitespace) is left out. An array is its list of strings, and items that are not strings are not modelled.
- `[dependency-groups]` entries other than `dev` are left out, because the core never reads them.
- `pinnochio/__main__.py` (argument parsing, the choice of rules, exit codes) is not part of this model, and neither is `tests/test_pinnochio.py`.
- Requirements.ParseRequirement: covers a subset of PEP 508 / PEP 440. It handles names, `[extras]` and comma-separated `op version` clauses, and checks each version against the form PEP 440 gives it for its operator (pre-, post- and dev-release segments; a local label or a `.*` wildcard only after `==` and `!=`; two release numbers after `~=`). It does not accept whitespace, environment markers, URLs, parenthesised specifiers, epochs (`1!2.0`), a leading `v`, or the `===` operator, all of which packaging accepts. For such a pin the model raises `InvalidRequirement` in `AddUpperBound` and skips the pin in the drift and overlap rules, where the source would process it. Names are compared as written, without PEP 503 normalisation.
- DriftRule.DriftRecordedIff: states which pins are recorded under which group, not the order of each recorded list or how often a pin is repeated in it; those follow the fold `DriftRule.DriftUpTo` only.
- OverlapRule.RedundantRecordedIff: states which pins are recorded under which group, not the order of each recorded list or how often a pin is repeated in it; those follow the fold `OverlapRule.RedundantUpTo` only.
- UpperBound.LowerBound: searches the clauses in their textual order. packaging iterates a `SpecifierSet`, which is a frozenset, in hash order; the two differ only for a pin with two `>=` clauses.
- UpperBound.AddUpperBound: the fallback at core.py:411-413 is not modelled. It runs only when re-parsing a pin that already parsed fails, which cannot happen.
- DriftRule.CollectDrift: reads each group's pins by position in the groups table rather than by `groups[name]`. The two agree because the loaded group names are distinct (`Loader.LoadUvDependencies`).
- The issue tables are ordered tables of lists, not Python dicts. Order and contents are kept exactly; object identity is not.
- Concrete string examples beyond the lemmas above (such as `requests>=2.25.0` with each strategy) are covered by the general lemmas `UpperBound.AddUpperBoundOfAtLeastPin` and `UpperBound.GreaterThanIsNotFixable`, not by separate literal cases.
