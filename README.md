# karma: a Dafny model of the manifest reconciler

karma walks a directory tree and keeps the `resources:` list of each
directory's `kustomization.yaml` (or `.yml`) in step with what is on disk.
It lists the subdirectories and YAML files it finds and keeps the remote
(`http://`, `https://`) entries already in the manifest. It merges the three
groups in a configurable group order. The manifest is rewritten only when the
merged list differs from the existing one, and every other field and node is
kept. Before an entry is listed it must pass three filters:

- the `.gitignore` files of the directory and of its ancestors;
- the user's skip patterns, in four modes (Exact, Glob, Children, Subtree);
- the dot-file and file-type rules.

This project models that core in Dafny and proves what it promises.

- **Utils**: generic `DedupPreserve`. It is proved to equal the
  first-occurrence function `Dedup`, which is distinct, keeps the same
  elements, is idempotent and keeps the order of first occurrences.
- **StringOps**, **Sorting**, **Wrappers**, **Globs**, **Paths**: the parts
  of Go's `strings`, `path` and `sort` packages that the core calls.
  - `sort.Strings` is specified by its result: sorted, and a permutation.
  - `path.Match`/`filepath.Match` and `filepath.Join`/`filepath.Rel` are
    function parameters.
- **ProcessorUtils**: the name predicates and `equalStrings`.
- **Order**: `ParseResourceOrder` and `normalizeResourceOrder`, as the two
  loops of the source. Every result is proved to be a permutation of the
  three groups.
- **Skip**: skip patterns compiled into rules, and the first-match verdict
  `matchSkip`.
- **Gitignore**: the `matcher` as a class. Its `children` memo is a mutable
  map, and its parent chain is proved finite (`Chained`). The class has
  `Child`, `Ignored`, `newMatcher`, `Load`, `parseGitignore` and
  `matchesPattern`.
- **Reconcile**: `diffEntries` and `orderChanged`, loop by loop, against
  multiset and position specifications.
- **Merge**: `decorateSubdirs` and `mergeResources`.
- **Update**: reconciling the list and `applyKustomization`, with the
  statistics they report.
- **Document**: the YAML node tree as a class `Node` with mutable `kind` and
  `content`. It holds:
  - the normalisation part of `loadKustomization`;
  - `ensureHeader` and `ensureResourcesSeq`;
  - `collectExistingResources`;
  - the refill of the resources sequence.
- **Manifest**: `updateKustomization` and `applyKustomization` on the node tree.
- **Walk**: `scanEntries`, `pickKustomizationPath`, `loadMatcher`,
  `walkDir`, `New` and `Process`, over a value-level snapshot of the
  filesystem.

Two places where the code, which this model follows, differs from the
prose that describes the system:

- `collectExistingResources` maps a repeated value to its *last* scalar node,
  since later nodes overwrite earlier ones in the map. It does not map it to
  the first node (`Document.CollectExistingResources`, `Document.LastScalar`).
- `orderChanged` can report a reorder for a pure deletion when the old list
  holds duplicates (`Reconcile.DuplicateDeletionIsReordered`). For a
  duplicate-free list a deletion is never a reorder
  (`Reconcile.DeletionIsNotReordered`).

Two test files disagree with the code, and the model follows the code:

- `internal/processor/skip_test.go:14-19` expects a Subtree verdict for a
  path below the rule. The code matches only the rule's own path
  (`Skip.SubtreeDoesNotMatchBelow`).
- `internal/processor/skip_test.go:62-70` and
  `internal/processor/processor_test.go:341-359` use a `matchesPrefix`
  function and a `DirFirst` option that the code does not have. Only their
  `matchesChild` cases and the default-order layout are modelled.

## Model

| member | source | states |
|---|---|---|
| Utils.DedupPreserve | internal/utils/utils.go:4-15 | the loop returns exactly `Dedup(input)`, the first occurrences in input order |
| Utils.DedupStep | internal/utils/utils.go:7-13 | one iteration appends `v` exactly when it was not seen, and the result of the remaining input is unchanged |
| Utils.DedupFromFacts | internal/utils/utils.go:4-15 | starting from a seen set, the output is duplicate-free and holds exactly the unseen input elements |
| Utils.DedupDistinct | internal/utils/utils.go:4-15 | the output has no duplicates |
| Utils.DedupSameElements | internal/utils/utils.go:4-15 | the output has exactly the input's elements |
| Utils.DedupIdempotent | internal/utils/utils.go:4-15 | de-duplicating twice equals de-duplicating once |
| Utils.DedupFromConcat | internal/utils/utils.go:7-13 | over a concatenation, the second part contributes only what the first part did not already hold |
| Utils.DedupFromAgain | internal/utils/utils.go:8-10 | re-running over the output with a larger seen set equals one run with that set |
| Utils.DedupInner | internal/utils/utils.go:4-15 | de-duplicating a middle part first does not change the result |
| Utils.DedupFromDistinct | internal/utils/utils.go:4-15 | a duplicate-free input that avoids the seen set is returned unchanged |
| Utils.DedupOfDistinct | internal/utils/utils.go:4-15 | a duplicate-free input is returned unchanged |
| Utils.DedupFromFirstOccurrences | internal/utils/utils.go:7-13 | the output elements appear in the order of their first occurrence in the input |
| Utils.DedupFirstOccurrences | internal/utils/utils.go:3-15 | the output is ordered by first occurrence in the input |
| Utils.FirstIndex | internal/utils/utils.go:8-12 | the index found holds `x`, and no earlier index does |
| Utils.DedupExample | internal/utils/utils_test.go:12-18 | `[a b a c b]` de-duplicates to `[a b c]` |
| StringOps.TrimSuffix | internal/processor/skip.go:43 | with the suffix present, the result plus the suffix is the input; otherwise the input is unchanged |
| StringOps.TrimRightFacts | internal/processor/skip.go:38 | `strings.TrimRight(s, "/")` keeps a prefix that does not end in `/`, and drops only slashes |
| StringOps.TrimSpace | internal/gitignore/gitignore.go:122 | neither end of the trimmed string is a space |
| StringOps.TrimSpaceFacts | internal/gitignore/gitignore.go:122 | `strings.TrimSpace` keeps the middle of the line at some offset `k`: everything before `k` and everything after the kept part is white space |
| StringOps.TrimLeadingSpaceFacts | internal/gitignore/gitignore.go:122 | exactly the leading run of white space is dropped: the result is a suffix not starting with a space, and every dropped character is a space |
| StringOps.TrimTrailingSpaceFacts | internal/gitignore/gitignore.go:122 | exactly the trailing run of white space is dropped: the result is a prefix not ending with a space, and every dropped character is a space |
| StringOps.TrimSpaceOfTrimmed | internal/gitignore/gitignore.go:122 | a string with no space at either end is its own trim |
| StringOps.ToLower | internal/processor/utils.go:12 | lowering keeps the length |
| StringOps.ToLowerAt | internal/processor/utils.go:12 | each character is lowered in place |
| StringOps.IndexOf | internal/processor/order.go:29 | the first index of `c`, or -1 exactly when `c` is absent |
| StringOps.LastIndexOf | internal/processor/skip.go:86 | the last index of `c`, or -1 exactly when `c` is absent |
| StringOps.Split | internal/processor/order.go:29 | `strings.Split` gives at least one part |
| StringOps.SplitJoin | internal/processor/order.go:29 | joining the parts with the separator gives back the input |
| StringOps.SplitPartsLackSep | internal/processor/order.go:29 | no part contains the separator |
| StringOps.Base | internal/processor/skip.go:86 | `path.Base` is never empty; it contains a slash only as "/"; a non-empty slash-free path is its own base |
| StringOps.BaseFacts | internal/processor/skip.go:86 | `path.Base` is "." for the empty path and "/" for a path of slashes only; otherwise it is the last element once trailing slashes are removed: a non-empty slash-free suffix that starts at the beginning or right after a slash |
| Sorting.SortStrings | internal/processor/processor.go:526-536 | `sort.Strings` yields a sorted permutation of its input |
| Sorting.SortSorted | internal/processor/processor.go:526-536 | an already sorted list is returned unchanged |
| Sorting.InsertFacts | internal/processor/processor.go:526-536 | inserting into a sorted list keeps it sorted and adds exactly one copy |
| Sorting.LessEqTotal | internal/processor/processor.go:526-536 | the byte-wise string order is total |
| Sorting.LessEqAntisymmetric | internal/processor/processor.go:526-536 | the byte-wise string order is antisymmetric |
| Sorting.LessEqTransitive | internal/processor/processor.go:526-536 | the byte-wise string order is transitive |
| ProcessorUtils.EqualStrings | internal/processor/utils.go:22-32 | true exactly when the lengths agree and every index agrees, that is, exactly when the lists are equal |
| ProcessorUtils.EqualFrom | internal/processor/utils.go:26-31 | the index scan from `i` succeeds exactly when the suffixes are equal |
| ProcessorUtils.KustomizationIsYAML | internal/processor/utils.go:6-14 | a manifest name is also a YAML name, so the scan must test for manifests first |
| ProcessorUtils.IsYAMLIgnoresCase | internal/processor/utils.go:11-14 | the YAML test gives the same answer on the lowered name |
| ProcessorUtils.IsYAMLExtensions | internal/processor/utils_test.go:29-46 | any stem with `.yaml`, `.yml`, `.YAML` or `.YML` is YAML |
| ProcessorUtils.RemoteHasSlash | internal/processor/utils.go:17-19 | every remote reference contains a slash, so no entry name is remote |
| ProcessorUtils.FileSchemeIsLocal | internal/processor/utils_test.go:61-64 | `file://` references are not remote |
| Order.DefaultResourceOrder | internal/processor/order.go:11-22 | the default order is remote, dirs, files, and it is a permutation of the groups |
| Order.ParseResourceOrder | internal/processor/order.go:25-30 | a blank value gives the default order; otherwise the comma-split value is normalised; the result is always a group permutation |
| Order.NormalizeResourceOrder | internal/processor/order.go:33-72 | the two loops return `NormalizedOrder(parts)`, which names each group exactly once |
| Order.NamedGroups | internal/processor/order.go:38-57 | the first loop keeps the first mention of each known group, in order, and `seen` is exactly the groups it kept |
| Order.NamedGroupsStep | internal/processor/order.go:43-56 | a part naming an unseen group is appended; a blank, unknown or repeated part is passed over |
| Order.AppendMissingGroups | internal/processor/order.go:59-65 | the second loop appends the default groups not yet seen, in default order |
| Order.Missing | internal/processor/order.go:60-65 | the groups appended are exactly the default groups not seen |
| Order.NormalizedOrderIsPermutation | internal/processor/order.go:33-72 | the normalised order always holds remote, dirs and files, each once |
| Order.NamedGroupsFirst | internal/processor/order.go:42-57 | the named groups come first, in the order they are first named |
| Order.IgnoredPart | internal/processor/order.go:43-54 | appending a blank, unknown or already named part does not change the result |
| Order.EmptyPartsGiveDefault | internal/processor/order.go:34-36 | no parts give the default order |
| Order.KnownPartsAreGroups | internal/processor/order.go:43-51 | every normalised part kept is one of the three groups |
| Order.NormalizeParts | internal/processor/order.go:43 | every part is normalised, and the count is kept |
| Order.MissingDistinct | internal/processor/order.go:59-65 | the appended groups are distinct |
| Skip.CompileRule | internal/processor/skip.go:37-56 | a compiled rule keeps its raw pattern |
| Skip.ParseSkipRules | internal/processor/skip.go:34-60 | one rule per pattern, in order, each the compilation of its pattern |
| Skip.CompileSubtree | internal/processor/skip.go:38-43 | `p/**`, with any number of trailing slashes, is a Subtree rule for `p` |
| Skip.CompileChildren | internal/processor/skip.go:44-47 | `p/*` is a Children rule for `p` |
| Skip.CompileGlob | internal/processor/skip.go:48-51 | any other pattern with a glob character is a Glob rule on the raw pattern |
| Skip.CompileExact | internal/processor/skip.go:52-55 | a pattern without glob characters is an Exact rule with one trailing slash removed |
| Skip.TrimRightSlashes | internal/processor/skip.go:38 | trimming trailing slashes from `p` plus slashes gives `p` |
| Skip.ChildOfPrefix | internal/processor/skip.go:130-139 | every one-segment extension of a non-empty prefix is a child of it |
| Skip.ChildIsExtension | internal/processor/skip.go:134-138 | a direct child is exactly the prefix, a slash, and one non-empty segment without slashes |
| Skip.MatchesChildExamples | internal/processor/skip_test.go:67-69 | the three `matchesChild` cases of the test |
| Skip.VerdictTriple | internal/processor/skip.go:63-104 | the Go triple says skip exactly on a SkipBy verdict; no skip gives Exact and an empty pattern |
| Skip.MatchSkipFirstMatch | internal/processor/skip.go:63-104 | there is no skip exactly when no rule matches; otherwise the verdict is the mode and raw pattern of the first matching rule |
| Skip.MatchSkipNone | internal/processor/skip.go:64-103 | no skip exactly when no rule matches |
| Skip.MatchSkipFirst | internal/processor/skip.go:64-102 | a skip names a matching rule, and no earlier rule matches |
| Skip.SubtreeMatchesOnlyItself | internal/processor/skip.go:66-70 | a Subtree rule matches its own path only, directory or not |
| Skip.ChildrenRuleMatches | internal/processor/skip.go:71-78 | a Children rule matches its directory itself and every direct child |
| Skip.ExactMatchesBaseName | internal/processor/skip.go:79-88 | a slash-free Exact rule matches the name and `dir/name` by base name |
| Skip.GlobRuleMatches | internal/processor/skip.go:89-99 | a rule compiled as a glob matches exactly where `path.Match` accepts the whole path, or, for a pattern without a slash, its base name; a bad pattern matches nothing |
| Skip.BaseOfJoin | internal/processor/skip.go:86 | the base of `dir/name` is `name` |
| Skip.MatchSkipChildrenExample | internal/processor/skip_test.go:21-26 | `flux/config/*` skips `flux/config/child` in Children mode |
| Skip.MatchSkipGlobExample | internal/processor/skip_test.go:28-33 | `flux/*.yaml` skips `flux/sample.yaml` in Glob mode when the glob matches |
| Skip.MatchSkipExactExample | internal/processor/skip_test.go:35-40 | `README` skips `README` in Exact mode |
| Skip.SubtreeDoesNotMatchBelow | internal/processor/skip.go:66-70 | `flux/config/**` does not skip `flux/config/nested` |
| Skip.Names | internal/processor/skip.go:27-31 | the names of the child records, element for element |
| Skip.HandleSkipDirEffect | internal/processor/skip.go:107-127 | a directory is listed exactly when a child is recorded for it: Children sets skipWalk, Subtree sets skipUpdate, any other mode drops it |
| Skip.HandleSkipDirKeepsPairing | internal/processor/skip.go:107-127 | child names stay in step with the listed directories |
| Skip.HandleSkipDirExamples | internal/processor/skip_test.go:43-60 | the three `handleSkipDir` calls of the test |
| Gitignore.ParseGitignore | internal/gitignore/gitignore.go:118-129 | the scanner loop keeps exactly the trimmed lines that are neither blank nor comments, in order |
| Gitignore.KeptLinesWellFormed | internal/gitignore/gitignore.go:121-127 | every pattern kept is non-empty, trimmed and not a comment, and there are at most as many as lines |
| Gitignore.OneLineContribution | internal/gitignore/gitignore.go:122-126 | a blank or comment line contributes nothing; any other line contributes itself trimmed, in place |
| Gitignore.KeptLinesConcat | internal/gitignore/gitignore.go:121-127 | the patterns of two blocks of lines are those of each block, concatenated |
| Gitignore.MatchesPattern | internal/gitignore/gitignore.go:132-155 | an empty pattern matches nothing, and a directory pattern matches no file |
| Gitignore.LiteralPatternMatches | internal/gitignore/gitignore.go:136-154 | a literal pattern matches exactly its own path, with a trailing slash only for directories |
| Gitignore.GlobPatternMatches | internal/gitignore/gitignore.go:146-153 | a glob pattern matches as the glob says, and not at all on a bad pattern |
| Gitignore.SlashMatchesEveryDirectory | internal/gitignore/gitignore.go:136-144 | the pattern "/" matches exactly the directories |
| Gitignore.MatchesLiteralExamples | internal/gitignore/gitignore_test.go:77-81 | the exact-path cases of the test |
| Gitignore.MatchesDirectoryExamples | internal/gitignore/gitignore_test.go:83-88 | the directory-suffix cases of the test |
| Gitignore.MatchesGlobExamples | internal/gitignore/gitignore_test.go:90-99 | the glob and invalid-pattern cases, for a glob that answers as `filepath.Match` does |
| Gitignore.Matcher.constructor | internal/gitignore/gitignore.go:38-42 | a matcher has the given directory, parent and patterns, and an empty memo |
| Gitignore.Matcher.Child | internal/gitignore/gitignore.go:97-115 | a memoised child is returned unchanged; otherwise a new child is made, recorded under `dir` on success, and an error leaves the memo alone |
| Gitignore.NewMatcher | internal/gitignore/gitignore.go:37-62 | fails exactly when the .gitignore cannot be read; otherwise a fresh matcher with that file's patterns, none when it is missing |
| Gitignore.Load | internal/gitignore/gitignore.go:29-34 | no matcher without gitignore support; otherwise a root matcher for `dir`, or the read error |
| Gitignore.RelToFacts | internal/gitignore/gitignore.go:71-80 | fails exactly when `filepath.Rel` fails; never "."; the directory itself, given as ".", becomes the empty path; any other relative path is kept |
| Gitignore.Ignored | internal/gitignore/gitignore.go:65-94 | the parent-pointer walk answers `IgnoredBy`, true exactly when some matcher on the chain has a matching pattern; a nil matcher ignores nothing |
| Gitignore.AncestorIgnoredIsIgnored | internal/gitignore/gitignore.go:89-92 | whatever an ancestor matcher ignores, every matcher below it ignores |
| Gitignore.IgnoredHasCause | internal/gitignore/gitignore.go:82-93 | a path is ignored only when some matcher on the chain has a pattern for it |
| Gitignore.ChildTwice | internal/gitignore/gitignore.go:102-112 | asking twice for the same child returns the same matcher; the memo gains at most one entry |
| Gitignore.ChainOf | internal/gitignore/gitignore.go:21-26 | the levels of a matcher chain, its own level first |
| Gitignore.IgnoredByChain | internal/gitignore/gitignore.go:65-94 | a matcher ignores exactly what its chain of levels ignores |
| Gitignore.AncestorAt | internal/gitignore/gitignore.go:23 | every ancestor matcher is itself well-chained |
| Reconcile.DiffEntries | internal/processor/processor.go:289-315 | `added` holds the entries of the new list beyond the old one's copies, in new-list order; `removed` is the old list minus the new one as a multiset |
| Reconcile.CountEntries | internal/processor/processor.go:290-293 | the count map represents the old list's multiset |
| Reconcile.ConsumeEntries | internal/processor/processor.go:295-305 | each new entry consumes a copy when one is left and is added otherwise; what stays counted is old minus new |
| Reconcile.DrainCounts | internal/processor/processor.go:307-312 | every count left over becomes exactly that many removed copies |
| Reconcile.TakeOne | internal/processor/processor.go:296-300 | decrementing a count, and deleting its key at zero, removes one copy from the represented multiset |
| Reconcile.AddedFromMultiset | internal/processor/processor.go:295-305 | `added` has exactly the copies of the new list beyond those available |
| Reconcile.LeftAfterIsDifference | internal/processor/processor.go:295-305 | the counts left after the second loop are the available copies minus the new list |
| Reconcile.DiffBalances | internal/processor/processor.go:289-315 | added is new minus old, removed is old minus new, and the old length plus added equals the new length plus removed |
| Reconcile.AppendOnlyAdds | internal/processor/processor.go:289-315 | appending entries reports exactly them as added and nothing as removed |
| Reconcile.NothingAvailable | internal/processor/processor.go:295-305 | with nothing left to consume, every entry is added |
| Reconcile.OrderChanged | internal/processor/processor.go:318-349 | true exactly when the matched old positions, taken in new-list order, are not ascending |
| Reconcile.IndexEntries | internal/processor/processor.go:319-324 | the position map holds every position of every old entry, in increasing order |
| Reconcile.FirstDescent | internal/processor/processor.go:326-348 | the scan reports a change exactly when the sequence of matched positions descends somewhere |
| Reconcile.PositionsFromSkip | internal/processor/processor.go:329-338 | an entry with no unconsumed position contributes nothing |
| Reconcile.PositionsFromTake | internal/processor/processor.go:334-345 | any other entry contributes its next unconsumed position |
| Reconcile.IndicesCount | internal/processor/processor.go:322-324 | an entry has exactly as many positions as occurrences |
| Reconcile.IndicesAt | internal/processor/processor.go:322-324 | position `k` is the occurrence of `s[k]` numbered by the occurrences before it |
| Reconcile.UnchangedIsNotReordered | internal/processor/processor.go:318-349 | an unchanged list matches positions 0, 1, 2, ..., so it is never reordered |
| Reconcile.InsertionIsIgnored | internal/processor/processor.go:329-332 | inserting an entry the old list lacks changes no matched position, so it never makes or hides a reorder |
| Reconcile.DeletionIsNotReordered | internal/processor/processor.go:318-349 | deleting entries from a duplicate-free list keeps the remaining positions ascending: no reorder |
| Reconcile.SwapIsReordered | internal/processor/processor.go:341-344 | `[a b]` to `[b a]` is a reorder |
| Reconcile.DuplicateDeletionIsReordered | internal/processor/processor.go:334-344 | dropping the first `a` of `[a b a]` is reported as a reorder |
| Reconcile.Pick | internal/processor/processor.go:318-349 | picking the entries at the given positions gives one entry per position |
| Merge.DecorateSubdirs | internal/processor/processor.go:556-569 | the loop returns `Decorated(dirSlash, subdirs)` |
| Merge.Decorated | internal/processor/processor.go:556-569 | decorating keeps the number of names |
| Merge.DecoratedFacts | internal/processor/processor.go:556-569 | without the option the list is unchanged; with it every name ends in exactly one added slash, and a name that had one is unchanged |
| Merge.DecorateIdempotent | internal/processor/processor.go:560-567 | decorating twice equals decorating once |
| Merge.DecoratedExamples | internal/processor/processor_test.go:364-378 | the two cases of the test |
| Merge.MergeResources | internal/processor/processor.go:520-553 | returns `MergedOrder`: the sorted remote, directory and file groups laid out in the normalised group order, then de-duplicated |
| Merge.CollectRemote | internal/processor/processor.go:530-535 | the loop keeps exactly the remote entries of the existing list, in order |
| Merge.RemoteOfStep | internal/processor/processor.go:531-534 | one iteration keeps the entry exactly when it is remote |
| Merge.RemoteOf | internal/processor/processor.go:530-535 | an entry is kept exactly when it is in the list and remote |
| Merge.LayOut | internal/processor/processor.go:540-550 | the loop over the group order appends each group's entries in order |
| Merge.GroupPermutationCases | internal/processor/order.go:33-72 | a group permutation is one of the six orders of remote, dirs and files |
| Merge.LayoutElems | internal/processor/processor.go:540-550 | the layout holds exactly the entries of the three groups |
| Merge.MergedDistinct | internal/processor/processor.go:552 | the merged list has no duplicates |
| Merge.MergedElements | internal/processor/processor.go:520-553 | an entry is merged exactly when it is a remote existing entry, a decorated directory or a file; a local entry not found again is dropped |
| Merge.MergedIsContiguous | internal/processor/processor.go:526-550 | when the groups are duplicate-free and disjoint, the result is the three sorted groups laid out contiguously in the configured order |
| Merge.LayoutDistinct | internal/processor/processor.go:540-550 | duplicate-free, disjoint groups lay out without duplicates in any group permutation |
| Merge.DefaultOrderLayout | internal/processor/processor_test.go:348-357 | in the default order the merged list is remote entries, then directories, then files |
| Merge.RemoteOfDedupFrom | internal/processor/processor.go:530-552 | keeping the remote entries commutes with de-duplicating |
| Merge.RemoteSlot | internal/processor/processor.go:540-550 | in every group permutation the remote group sits between the same two stretches of directories and files |
| Merge.LayoutDedup | internal/processor/processor.go:536-552 | laying out a de-duplicated remote group and then de-duplicating equals doing so on the original group |
| Merge.RemoteOfLayout | internal/processor/processor.go:530-550 | the remote entries of a layout are its remote group |
| Merge.MergeIdempotent | internal/processor/processor.go:520-553 | merging the merged list again, with the same directories and files, returns it unchanged |
| Merge.SortedElems | internal/processor/processor.go:526-527 | sorting keeps the elements |
| Merge.SortedDistinct | internal/processor/processor.go:526-527 | sorting keeps a list duplicate-free |
| Merge.DistinctCounts | internal/processor/processor.go:552 | a list is duplicate-free exactly when no entry is counted twice |
| Merge.Filter | internal/processor/processor.go:531-534 | an element is kept exactly when it is in the list and satisfies the test |
| Update.ReconcileList | internal/processor/processor.go:229-239 | the list step returns `Decide`: the merged list, whether it differs from the existing one, and the change counts |
| Update.DecideFacts | internal/processor/processor.go:229-239 | rewritten exactly when the merged list differs; an unchanged list reports nothing; a changed one balances added and removed against the lengths and flags a reorder exactly when `orderChanged` holds |
| Update.SecondRunChangesNothing | internal/processor/processor.go:229-233 | reconciling an already merged list, over the same directory, rewrites nothing |
| Update.ApplyKustomization | internal/processor/processor.go:352-379 | returns `ApplyOutcome`: no statistics for a skipped manifest, load and write errors passed on, otherwise the statistics with updated or noOp set |
| Update.ApplyFacts | internal/processor/processor.go:352-379 | a skipped manifest reports zero; otherwise exactly one of updated and noOp is 1, and noOp exactly when the merged list equals the existing one |
| Document.Node.constructor | internal/processor/processor.go:462-463 | a node has the given kind, value and tag, and no content |
| Document.CollectExistingResources | internal/processor/processor.go:498-517 | the order lists the scalar values by first occurrence; each indexed value maps to the last scalar node carrying it, and exactly the ordered values are indexed |
| Document.CollectStep | internal/processor/processor.go:502-514 | one iteration: a non-scalar leaves the index alone; a scalar is indexed under its value, which is appended to the order when new |
| Document.CollectScalar | internal/processor/processor.go:508-513 | a scalar node is indexed under its value, and the value is appended when new |
| Document.CollectSkip | internal/processor/processor.go:503-506 | a node that is not a scalar leaves the index unchanged |
| Document.CollectedFacts | internal/processor/processor.go:498-517 | the order is duplicate-free and holds exactly the scalar values; each value's node is a scalar with that value, and no later scalar carries it |
| Document.NonScalarIgnored | internal/processor/processor_test.go:321-338 | a non-scalar node takes no part in the index |
| Document.LastScalar | internal/processor/processor.go:513 | the index is a position of the list, or -1 |
| Document.EnsureHeader | internal/processor/processor.go:477-495 | a mapping with an apiVersion or kind key is left alone; any other gains the four header nodes in front of its former content; afterwards a header key is present |
| Document.ResourcesFromFacts | internal/processor/processor.go:446-458 | the key found is the first "resources" key of a complete pair at an even index; -1 means there is none |
| Document.ResourcesKeyFacts | internal/processor/processor.go:446-458 | the same, from the start of the mapping |
| Document.EnsureResourcesSeq | internal/processor/processor.go:444-474 | the value of the first resources key is reused in place, keeping its children, value and tag, or a fresh resources key and a fresh empty sequence with empty value and tag are appended behind the former children; the mapping keeps its value and tag; the value becomes a sequence, the list is read off it and indexed by the last scalar carrying each entry; with an even number of former children, scanning the mapping again finds `sq` (`Reloads`); every new child is fresh and every other former child other than the mapping is unchanged |
| Document.AppendResources | internal/processor/processor.go:461-465 | a fresh `resources` string key and a fresh empty sequence with empty value and tag are appended behind the former children, which stay as they were; when those were pairs without a resources key, scanning the mapping again finds the new sequence |
| Document.MakeSequence | internal/processor/processor.go:468-470 | the resources value becomes a sequence node, keeping its value, tag and children, and a scan of the mapping that found it still finds it |
| Document.ReloadsList | internal/processor/processor.go:444-474 | when a scan of the mapping finds `sq` as the first resources value, the list loading extracts is the deduplicated scalars of `sq`'s children |
| Document.NormalizeDocument | internal/processor/processor.go:423-435 | the root becomes a document, keeping its value and tag, whose first child is a mapping with the same children: the former first child, keeping its value and tag, or a fresh empty mapping with empty value and tag when the document was empty; those children are unchanged, and the resources value, its children and the list they hold are the same as before |
| Document.SetKind | internal/processor/processor.go:423-435 | the node takes the new kind and keeps its value, tag and children; for pairs in which the node takes no part, the resources value, its children and the list they hold are the same as before |
| Document.PrepareMapping | internal/processor/processor.go:423-437 | the root becomes a document, keeping its value and tag, whose first child is a mapping (the former one with its value and tag, or a fresh one with empty value and tag) that has a header key and holds exactly its former children, behind four fresh header nodes when it had no header key; every former child is unchanged, every other node is fresh, and the resources value and the list it holds are the same as before |
| Document.AddHeader | internal/processor/processor.go:477-495 | the mapping keeps its kind, value and tag; without a header key it gains the four fresh header nodes in front of its children, with one it keeps its children as they are; the resources value and the list it holds are unchanged |
| Document.HeaderShift | internal/processor/processor.go:446-458 | prepending the header moves the resources key four places and leaves the resources value and its children the same |
| Document.NormalizeKustomization | internal/processor/processor.go:403-441 | the root ends up a document, keeping its content when it had any and its value and tag, whose first mapping (the former one with its value and tag, or a fresh one with empty value and tag) has a header and the resources sequence `sq`; `order` is the list the manifest held, read off `sq`, and `nodes` indexes its last scalar for each entry; an existing resources value is reused with its children, value and tag, otherwise a fresh empty sequence with empty value and tag is appended behind a resources key; the former pairs stay in place behind the optional header (`Placed`); with an even number of former children, scanning the mapping again finds `sq` (`Reloads`); every former child other than `sq` is unchanged, every new node is fresh |
| Document.AttachResources | internal/processor/processor.go:439-474 | on a mapping laid out as its former pairs behind an optional header: the mapping keeps its value and tag; the first resources value is reused with its children, value and tag and made a sequence, or a fresh resources key and empty sequence with empty value and tag are appended after the former layout; the list is extracted and indexed; with an even number of children, scanning the mapping again finds `sq`; every other child is unchanged, every new node is fresh |
| Document.FillSequence | internal/processor/processor.go:241-255 | one node per final entry: the indexed node when there is one, otherwise a fresh plain string scalar; with a well-formed index the sequence reads exactly the final list; a scan of the mapping that found the sequence still finds it |
| Document.SetContent | internal/processor/processor.go:255 | the sequence takes exactly the new children and keeps its kind, value and tag; a scan of the mapping that found it still finds it, since the scan looks at the values of the pairs only |
| Document.ScalarsRead | internal/processor/processor.go:241-255 | scalar nodes carrying the values read as those values |
| Document.RefillResources | internal/processor/processor.go:241-255 | the document keeps its shape; an indexed entry reuses its node, which is the last scalar of the former sequence carrying it; any other entry gets a fresh plain string scalar; the sequence reads exactly the final list, and a scan of the mapping that found it still finds it |
| Manifest.UpdateKustomization | internal/processor/processor.go:218-286 | `order` is the list the manifest held; the result is `Decide` on it, or a write error when a changed list cannot be written; the root is a document keeping its content when it had any and its value and tag, and its mapping keeps its value and tag or is fresh with empty ones; the former pairs stay in place behind the optional header and the resources sequence is the reused value (same value and tag) or a fresh one (empty value and tag) appended behind a resources key (`Placed`); every former child of the mapping other than the sequence is unchanged; the sequence is `Rewritten`: an unchanged list leaves its children as they were, a changed one refills it, reusing for every kept entry the last node of the former sequence carrying it and a fresh plain string scalar for every added entry, so it reads exactly the merged list, and either way its deduplicated scalars are the merged list; when the mapping held pairs, loading the rewritten manifest again yields the merged list |
| Manifest.RewriteResources | internal/processor/processor.go:232-286 | `updated` and `final` are those of `Decide`, the result passes on the write error of a changed list, the sequence is `Rewritten` (left alone for an unchanged list, refilled with the reused and fresh nodes so that it reads exactly `final` for a changed one), new entries are fresh, and a scan of the mapping that found the sequence still finds it |
| Manifest.DecideRewrite | internal/processor/processor.go:229-239 | `updated` and `final` are those of `Decide` and the result passes on the write error of a changed list; a changed list has no duplicates and an unchanged one is the list the manifest held |
| Manifest.RewriteDocument | internal/processor/processor.go:229-255 | everything `RewriteResources` states, and the layout the manifest was loaded with (`Placed`) is kept: only the children of the resources sequence change, its value and tag stay |
| Manifest.RefillIfUpdated | internal/processor/processor.go:241-255 | the sequence is `Rewritten`: when the list changed it is refilled with the kept entries' former nodes and fresh string scalars for the added ones and reads exactly `final`; otherwise it is left alone; a scan of the mapping that found it still finds it |
| Manifest.DecidedIsDistinct | internal/processor/processor.go:229-239 | the list a rewrite writes has no duplicates, and an unchanged list is the one loaded |
| Manifest.ApplyToDocument | internal/processor/processor.go:352-379 | a skipped manifest reports zero and leaves the document and its mapping untouched; otherwise the node-level outcome is `ApplyOutcome` on the list the manifest held (a write error is passed on, an unchanged list counts as a no-op, a changed one as an update), and the document is left as `UpdateKustomization` leaves it: root and mapping value and tag kept or fresh and empty, the former pairs in place behind the optional header, the resources sequence `sq` the former value or a fresh one with empty value and tag, every other former child unchanged, `sq` `Rewritten` with fresh nodes for new entries, and a reload of the mapping yielding the merged list when it held pairs |
| Walk.ScanEntries | internal/processor/processor.go:115-172 | a listing that cannot be read is an error; otherwise the entries are classified front to back as `ScanAll` says |
| Walk.ScanMembership | internal/processor/processor.go:126-171 | the files are exactly the listed file entries and the directories exactly the listed directory entries: manifests, hidden, ignored, non-YAML and Exact- or Glob-skipped entries are in neither |
| Walk.ScanEntryMembership | internal/processor/processor.go:127-168 | one entry adds its name to the files exactly when it is a listed file, and to the directories exactly when it is a listed directory |
| Walk.ScanFileFacts | internal/processor/processor.go:128-168 | every listed file is YAML and not a manifest; without dot entries no listed file or directory is hidden |
| Walk.ScanPairs | internal/processor/processor.go:147-161 | child names are the listed directories, element for element, and no child has both hints |
| Walk.ScanEntryGrows | internal/processor/processor.go:147-161 | one entry leaves the directories as they are or appends it to both lists, with at most one hint |
| Walk.ScanDirsDistinct | internal/processor/processor.go:120-171 | with distinct listing names, the listed directories are distinct |
| Walk.ScanDirsPlain | internal/processor/processor.go:147-161 | with a listing of plain names, the listed directories and the children recorded for them have plain names |
| Walk.RelPathFacts | internal/processor/processor.go:186-192 | the path relative to the base when `filepath.Rel` gives one other than "."; otherwise the base name, so the result is "." only when the base name is |
| Walk.PickKustomizationPath | internal/processor/processor.go:195-215 | the probe loop returns `PickFrom`, the candidate probe |
| Walk.PickFacts | internal/processor/processor.go:197-214 | an existing manifest is the first candidate that is a file, all earlier ones passed over; the default name is used exactly when all are passed over; an error names the first failing Stat |
| Walk.LoadMatcher | internal/processor/processor.go:175-183 | no matcher without gitignore support; the parent's memoised or new child when there is a parent; a root matcher otherwise; read errors passed on |
| Walk.FindSub | internal/processor/processor.go:95 | the subdirectory found carries the name; -1 means none does |
| Walk.WalkDir | internal/processor/processor.go:59-107 | returns `WalkSpec`: the first error, or the directory's own statistics plus those of every subdirectory not marked skipWalk, each walked with this directory's matcher |
| Walk.WalkChildren | internal/processor/processor.go:90-104 | the loop over the children returns `ChildrenSpec`, adding each walked child's statistics |
| Walk.WalkCoherent | internal/processor/processor.go:83-103 | the statistics of every walk that succeeds are coherent: no more reorders than rewritten manifests, and nothing added or removed without a rewrite; each directory's are, and the field-wise sum keeps them so |
| Walk.New | internal/processor/processor.go:45-51 | the processor holds the options and one compiled rule per skip pattern, in order |
| Walk.Process | internal/processor/processor.go:54-56 | the walk from `dir`, which is also the base of relative paths, with no parent matcher |

## Left out

- Logging, the command line, and the wiring in `internal/app` and `cmd` are not part of this model. The skip, update and no-op events are not modelled, and neither is `logUpdate`, which only logs.
- YAML parsing and encoding are not modelled. `loadKustomization`'s read and unmarshal are modelled as a resource list or an error (`ManifestFailed`) at the value level, and as a given node tree at the node level. Encoding and writing, including the `---` prefix, are one `writes` flag (`WriteFailed`).
- The filesystem is a value (`FsDir`): a listing, the `.gitignore` file, `os.Stat` answers, the loaded manifest and the write outcome, per directory. The order of `os.ReadDir` is the order of the listing.
- `path.Match`, `filepath.Match`, `filepath.Join` and `filepath.Rel` are parameters. Paths are slash-separated, so `filepath.ToSlash` is the identity.
- `sort.Strings` is specified by its result, a sorted permutation, not by Go's algorithm.
- Reconcile.DiffEntries: states `removed` as a multiset only. Its order comes from Go's map iteration, which is unspecified.
- `context.Context` cancellation is not modelled; `ctx` is only passed along.
- Order.DefaultResourceOrder: does not model that each call returns a fresh copy of the slice; values have no aliasing.
- StringOps.ToLower: maps only the characters whose lower-case form is ASCII (A-Z, U+0130 and U+212A) and keeps every other character. This agrees with Go wherever the lowered name is checked for an ASCII suffix, as `isYAML` does. The rest of Unicode case mapping is left out.
- Gitignore.ParseGitignore: does not model `bufio.Scanner`'s 64 KiB line limit. An overlong line is an `Unreadable` file, like any other scanner error.
- Gitignore.Matcher.Child: the nil-receiver case is not modelled; `loadMatcher` never calls `Child` on a nil matcher.
- Document.NormalizeKustomization: requires `NoBackReference`: the root is not its own child; its first child contains neither the root nor itself; and the children of the resources value contain neither the root, the first child, nor the resources value. Every tree that `yaml.Unmarshal` produces has this property, since it is a tree. UpdateKustomization and ApplyToDocument carry the same requirement.
- Walk.WalkDir: requires `filepath.Join(dir, name)` to tell plain entry names apart, and every listing to hold distinct plain names, as `os.ReadDir` gives them. A plain name is one path element: non-empty, without a slash, and neither "." nor "..". Join is not injective on other names: `Join("d", "a/")` is `Join("d", "a")`. Under these assumptions the parent's `children` memo is never hit during a walk.
- Walk.WalkDir: a subdirectory that is no longer in the snapshot fails as `ReadDirFailed`, without the memo entry that `loadMatcher` would have created first.
- Walk.ScanEntries: the matcher chain is checked through its value-level levels (`IgnoredIn`). `Gitignore.IgnoredByChain` proves these agree with the pointer walk of `Ignored`.
- Errors are named constructors (`Wrappers.Error`), not Go's wrapped error values.
- Manifest.UpdateKustomization: states that loading the rewritten manifest yields the merged list only when the mapping had an even number of children, as every mapping from `yaml.Unmarshal` has. In an odd-length mapping without a resources key, the appended key sits at an odd index, which the pair scan passes over.
- Document.ResourcesFromFacts: a trailing key without a value, in a mapping of odd length, is passed over as in the source. Such a mapping is not otherwise modelled.
- The `order_test.go` examples would evaluate `strings.Split` and `strings.TrimSpace` on literals. They are covered by the general lemmas about `ParseResourceOrder`, not as concrete cases.
