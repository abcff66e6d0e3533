# Pathwinder: verified model of the redirected view of the filesystem

Pathwinder intercepts an application's file operations and shows it a merged, redirected view of the
filesystem. Rules say that an origin directory is served by a target directory, for all files or for those that
match patterns, either instead of the origin's own contents (Simple) or in addition to them (Overlay). This
project models the machinery that decides and delivers this view and proves that its parts, which are coded
separately, agree with each other.

Run `dafny verify dfyconfig.toml` in this directory to check everything.

## How the project is laid out

| modules | what they model |
|---|---|
| `Text`, `Filesystems`, `NtStatuses`, `Volumes` | wide strings, case folding, paths as strings and as components, the abstract filesystem and the system's create call |
| `Rules`, `RuleContainers`, `Instructions` | one rule, the ordered rules of one origin directory, and the instructions the director issues |
| `PrefixTrees` | the mutable trie, refined to a map from component paths |
| `Directors`, `Redirections`, `Agreement`, `Listing`, `FilesystemDirectors` | the director: its decisions as functions, what they mean on components, and the object that computes them |
| `PathResolution`, `BuilderStates`, `GeneratedRules`, `FilesystemDirectorBuilders` | the builder with its fixed-point loop, and the rules it generates |
| `FileInformation`, `Streams`, `EnumerationQueues`, `NameInsertionQueues`, `MergedQueues`, `OperationQueues`, `QueueCreation` | file information structures as bytes, and the queues behind a directory enumeration |
| `Enumerations`, `InProgressEnumerations` | one call by the application, and whole runs of calls |
| `OpenHandleStores`, `HandleProtocol` | the store of open handles, and threads that open, use, rename, enumerate and close handles in any interleaving |
| `DirectoryHierarchies`, `Executors`, `NewFiles` | pre-operations, attempt loops, and where new files end up |
| `EndToEnd`, `DirectoryViews` | everything together |
| `Scenarios` | concrete configurations in which a condition of a general result fails, and what happens then |

Code that changes state in the source is a class or a loop here, proved against a function that says what it
computes; what that function means is then stated by lemmas. A path is used in two forms, as the string the
code works on and as the sequence of its folded components, and lemmas such as `CompareAgrees`,
`RedirectMeaning` and `SelectedByStringToo` are the bridge. Wildcard matching, case folding, and which
characters are letters (beyond those of the English alphabet) or printable are left open: all results hold for
every choice.

## Main results

- *What is shown and what can be opened.* `DirectoryViews.ShownIfAndOnlyIfOpenable` follows a directory handle from
  the director's instruction through the queues, the merge, the removal of duplicates and any sequence of buffers:
  a name is shown if and only if it matches the pattern and can be opened, unless something in the way keeps the
  enumeration from it, and what that can be is given exactly in terms of the rules and the filesystem (`FirstFailure`,
  `IsReached`). "Shown" includes what is written by a call that reports an error together with it
  (`Enumerations.SuccessfulCallsDeliver` says when that happens). No order is required of what the system lists.
  `ShownEntryIsOpened` says exactly when the entry shown is also that of the file that opening reaches. Names of
  deeper origin directories are a case of their own, with its own exact condition (`DeeperOriginAgreement`).
  `Listing.ListingAgreesWithOpening` is the core of it: enumeration and single-file redirection, two separate
  pieces of code, agree about every name.
- *Merging queues in any order.* `Streams.MergeIsOrdered`, `MergeDelivers` and `FirstComesFrom`: the order of the merge,
  which entries get through when some queues end in an error, and which queue an entry comes from, all in terms of
  the highest name up to an entry in its own queue. The results for sorted queues follow.
- *Exactly once.* `Enumerations.CompleteRunDeliversAll` and `InProgressEnumeration.Advance`: whatever the
  buffers, each name is delivered once, by its first occurrence, and the bytes written can be walked by the application
  (`ApplicationReadsDelivered`).
- *The trie is a map.* All operations of `PrefixTree` are proved against a map from paths, including the
  invariant that erasing prunes and that `HasPathForPrefix` depends on.
- *Which rule decides.* From the patterns given to `AddRule` to the file that is opened: `Rules.NormalisedPatternsCover` and
  `ScopeOfRule` say which paths a rule is about, `Redirections.ChoiceMeaning` which rule takes precedence, and
  `FileOperationMeaning` where it leads.
- *What can be added.* `AddRule` succeeds if and only if the rule is `Acceptable` and its container not full, and otherwise
  reports a conflict that really exists; `UsableDirectoryMeaning` and `ResolutionMeaning` say which directories can
  be used, in terms of their components.
- *Building terminates, is sound, loses nothing and succeeds when it can.* `FilesystemDirectorBuilder.Build` with
  `GeneratedRules`: what is built satisfies what the director relies on, in particular that the rule behind a
  redirected path can be recovered (`Agreement.IdentifiesTheRule`) and that its internal-error branches are unreachable
  (`EndToEnd.RecordedHandleIsNoInternalError`). Besides the rules that were added there is exactly one for every
  level at which there is nothing to open (`Completed`). `Buildable`, a condition on the rules, the filesystem and the
  temporary directories, is necessary for a director, and sufficient unless a generated name or directory clashes
  (`NothingClashes`); a failure comes with a violated constraint or an unacceptable rule.
- *File operations come down to one call.* `Executors.OperationIsOneCall` for every instruction; `OneFileOneCall` and
  `WorksOnFirstExisting` say which call that is where no preference comes into it.
- *Overlay semantics.* `Executors.OverlayOpenOrCreate` in every state of the volume, and
  `NewFiles.NewFilesGoToTheTarget` together with the directories made beforehand.
- *Handles.* `HandleProtocol.StoredHandlesAreCurrent`, with immediate reuse of closed handles and handles closed while
  in use: what the store says about a handle is about its current opening in every run up to the first step that
  records something too late. `StepKeepsInvariant` says exactly which steps do, `CarefulRunsAreInTime` that
  applications that close nothing they use never take one, and `EntrySurvivesUnlessTaken` which steps take an entry
  away.

## Where the code differs from its comments or from what one may expect

- With create-only under Overlay the operation does not fail when only the origin-side file exists, although
  Source/FilesystemDirector.cpp:772-777 says it should: `OverlayCreateIgnoresOrigin` gives the exact condition for
  failure, `Scenarios.CreateOnlySucceedsDespiteOrigin` an input.
- If a path on the origin side is a file where the target side has a directory, the directory can be opened and so
  can the files in it, but enumerating it under Overlay delivers nothing but an error:
  `FailureInTheWay`, with `Scenarios.FileHidesDirectory` as an input. The list of statuses that mean a missing
  directory (Source/DirectoryOperationQueue.cpp:69-80) has no entry for this one.
- If the target of a rule should be in a directory that is in fact a file, enumerating the directory above the rule's
  origin ends in an error as soon as the rule's name is next among those to be inserted, also for names that have
  nothing to do with the rule: `IsReached` says which names still come before, `BlockedTargetInTheWay` how it ends, and
  `Scenarios.BlockedTargetHidesDirectory` is an input for which nothing is shown at all. The list of statuses to skip
  (Source/DirectoryOperationQueue.cpp:234-251) has no entry for this one either.
- Where several rules share an origin directory, its name is listed in the directory above if any of their targets is
  a directory, but opening it only looks at the first rule's target: `DeeperOriginAgreement`, with
  `Scenarios.ShownButNotOpenable` as an input.
- Renaming an open file to a place no rule is about takes its handle off the record while other threads may be using
  it: `ForgettingLosesTheEntry`.
- A rename is recorded, and an enumeration stored, without looking whether the handle is still the one it was
  (Source/OpenHandleStore.cpp:32-51 and 85-108): `RecordingTooLate` is a run in which an entry for a closed handle
  comes to describe another file.
- An operation that can create is refused on an origin directory whose target lies directly in the root of a drive,
  because the drive alone is not recognised as a directory to make sure of: `DriveAloneIsRefused`.
- When a buffer is too small, the next-entry offset is cleared and then written again by the length update
  (Source/FilesystemExecutor.cpp:437-441): `ReportsOverflow` in `InProgressEnumerations` says what the bytes are.
- A rule whose target is its own origin is accepted: `OwnTarget` says what it does. So a generated rule may replace a level by
  itself if that is the temporary directory it happens to get; which one it gets depends on the order in which a hash
  table is visited, which is why `NothingClashes` excludes this.
- With a preference for creating, open-or-create would fail on an existing file, because a collision does not lead to
  the next attempt: `PreferringCreationOnlyCreates`. The director never asks for it.
- An addition that is refused at the limit of 64 rules has already changed the builder's tables, and a rule that
  is equivalent to an existing one (same number of patterns, same name ignoring case) is dropped while the addition
  reports the existing rule: `Outcome` in `BuilderStates`.
- Restarting a queue of inserted names with an empty pattern keeps the previous pattern: `NameInsertionQueue.Restarted`.
- The merging queue is said to be no less correct for queues that are not sorted
  (Include/Pathwinder/Internal/DirectoryOperationQueue.h:268-273). Which names are shown is indeed the same, but the
  entry shown for a name may then be that of another file than the one opening reaches: `EarliestStreamWins` and
  `ShownEntryIsOpened` give the exact condition, `Scenarios.OriginEntrySurvives` and `ListsOneOpensAnother` inputs.
- If nothing in one of several directories matches the pattern, the system says so with a status that is not the normal
  end, and the merged enumeration delivers nothing but that status even if files in the other directories match:
  `FailureInTheWay`, with `Scenarios.PatternHidesFile` as an input.
- A failure to open a directory is kept until a restart and then forgotten: `EnumerationQueue.Restarted`.
- An origin directory that was opened as itself, because its target did not exist, lists only itself:
  `UnredirectedHandleAgreement` gives the exact condition under which this agrees with opening, and
  `Scenarios.CreatedFileIsNotListed` a run in which it does not.

## Model

| member | source | states |
|---|---|---|
| `Rules.CompareAgrees` | Source/FilesystemRule.cpp:33-85 | on normalised paths the raw-string comparison of two directories answers exactly what the prefix order on their components answers, for all six outcomes |
| `Rules.NormalisePatterns` | Source/FilesystemRule.cpp:213-242 | one universal pattern makes the whole list universal (no patterns); otherwise every pattern is kept, in place, in upper case |
| `Rules.UniversalPattern` | Source/FilesystemRule.cpp:87-94 | a pattern matches everything exactly if it is nothing but asterisks |
| `Rules.PatternsTogether` | Source/FilesystemRule.cpp:111-122 | a name matches some patterns together if and only if it matches some of them or the others; no pattern is left out |
| `Rules.OnePattern` | Source/FilesystemRule.cpp:111-122 | one pattern matches if and only if the system's matcher accepts it, and a rule without patterns matches every name |
| `Rules.NormalisedPatternsCover` | Source/FilesystemRule.cpp:111-122 | the patterns of a rule let a name through if and only if those it was made from do: there are none, one is universal, or the matcher accepts one of them in upper case |
| `Rules.MatchMeaning` | Source/FilesystemRule.cpp:111-122 | so, for all names at once, for a rule whose patterns were normalised from others |
| `Rules.RedirectMeaning` | Source/FilesystemRule.cpp:145-211 | a redirection happens if and only if the source directory is a component prefix and the component just below it matches the patterns, and then replaces that prefix by the destination and keeps everything below |
| `Rules.ScopeOfRule` | Source/FilesystemRule.cpp:145-211 | a rule made from some patterns redirects a path if and only if its origin is the path, or is above it and one of those patterns lets the component just below the origin through |
| `Rules.OriginNameIsSpelled` | Include/Pathwinder/Internal/FilesystemRule.h:134-147 | the name of an origin directory is what follows its last backslash, spelled as in the rule |
| `Rules.RedirectWraps` | Source/FilesystemRule.cpp:145-211 | namespace prefix and extra suffix never influence whether a path is redirected; they are only put around the result |
| `Rules.RedirectRoundTrip` | Source/FilesystemRule.cpp:145-211 | whenever redirection to the target succeeds, redirecting the result back succeeds and gives the original path up to case, and the original string exactly if the origin prefix was spelled as the rule spells it |
| `RuleContainers.RuleLessTrichotomy` | Include/Pathwinder/Internal/FilesystemRule.h:297-305 | two rules are equivalent for the ordered container exactly if they have equally many patterns and the same name ignoring case |
| `RuleContainers.RuleLessTransitive` | Include/Pathwinder/Internal/FilesystemRule.h:297-305 | the rule order is transitive, so that with trichotomy it is a strict weak order |
| `RuleContainers.OrderMeaning` | Include/Pathwinder/Internal/FilesystemRule.h:297-305 | in an ordered container a rule has at least as many patterns as every later one, and comes first by name, ignoring case, among those with equally many |
| `RuleContainers.EmplaceRule` | Include/Pathwinder/Internal/FilesystemRule.h:359-366 | insertion keeps the order, is refused exactly at 64 rules, adds exactly the new rule, and leaves everything as it was if an equivalent rule is there; in the container that comes out, rules with more patterns come first and equally many go by name |
| `RuleContainers.RuleMatchingFileName` | Include/Pathwinder/Internal/FilesystemRule.h:428-443 | finds the first matching rule up to and including the stop position, or nothing if there is none |
| `RuleContainers.MostSpecificRuleDecides` | Include/Pathwinder/Internal/FilesystemRule.h:428-443 | of all rules that match a name, the one that decides it has the most patterns and among those the first name |
| `RuleContainers.FirstMatchIgnoresCase` | Include/Pathwinder/Internal/FilesystemRule.h:428-443 | which rule decides a file name does not depend on the case of the name |
| `RuleContainers.CatchAllRulesComeLast` | Include/Pathwinder/Internal/FilesystemRule.h:297-305 | in an ordered container every rule behind one without patterns has none either, so a catch-all rule never takes a name from a more specific one |
| `PrefixTrees.LongestPrefixIsLongest` | Include/Pathwinder/Internal/PrefixTree.h:387-413 | the specification of prefix lookup: the result is a key, a prefix of the path, and extends every other key that is one |
| `PrefixTrees.ClosestAncestorIsLongest` | Include/Pathwinder/Internal/PrefixTree.h:136-145 | the same for proper prefixes |
| `PrefixTrees.Node.GetClosestAncestor` | Include/Pathwinder/Internal/PrefixTree.h:136-145 | climbing parent pointers finds the node of the longest key that is a proper prefix |
| `PrefixTrees.PrefixTree.constructor` | Include/Pathwinder/Internal/PrefixTree.h:253 | a new tree is valid, pruned and empty |
| `PrefixTrees.PrefixTree.TraverseTo` | Include/Pathwinder/Internal/PrefixTree.h:423-439 | walking down finds the node at the path, whether or not it has data |
| `PrefixTrees.PrefixTree.Find` | Include/Pathwinder/Internal/PrefixTree.h:331-338 | lookup in the map of contents, ignoring case and empty components |
| `PrefixTrees.PrefixTree.Contains` | Include/Pathwinder/Internal/PrefixTree.h:282-285 | holds exactly for the keys of the map of contents |
| `PrefixTrees.PrefixTree.LongestMatchingPrefix` | Include/Pathwinder/Internal/PrefixTree.h:387-413 | finds the node of the longest key that is a prefix of the given string |
| `PrefixTrees.PrefixTree.FindOrEmplaceChild` | Include/Pathwinder/Internal/PrefixTree.h:127-130 | keeps an existing child, otherwise adds one bare node that is linked in both directions |
| `PrefixTrees.PrefixTree.PrefixPathCreate` | Include/Pathwinder/Internal/PrefixTree.h:485-498 | makes the whole path exist by adding bare nodes only, so the contents stay the same |
| `PrefixTrees.PrefixTree.Insert` | Include/Pathwinder/Internal/PrefixTree.h:358-380 | adds the key to the map of contents exactly if it was absent, and leaves the tree pruned |
| `PrefixTrees.PrefixTree.Update` | Include/Pathwinder/Internal/PrefixTree.h:448-467 | sets the key in the map of contents whatever was there |
| `PrefixTrees.PrefixTree.PruneUpwards` | Include/Pathwinder/Internal/PrefixTree.h:314-322 | unlinking bare nodes from the bottom up restores the invariant that every node other than the root has data or a child, without changing the contents |
| `PrefixTrees.PrefixTree.Erase` | Include/Pathwinder/Internal/PrefixTree.h:309-325 | removes exactly the key from the map of contents, reports whether it was there, and leaves the tree pruned |
| `PrefixTrees.PrefixTree.SomeKeyBelow` | Include/Pathwinder/Internal/PrefixTree.h:309-325 | in a pruned tree some key lies at or below every node other than the root |
| `PrefixTrees.PrefixTree.HasPathForPrefix` | Include/Pathwinder/Internal/PrefixTree.h:345-348 | for a non-empty prefix, holds if and only if some key extends it |
| `Redirections.SelectedByStringToo` | Source/FilesystemDirector.cpp:79-93 | the container the tree selects is the one with the longest origin directory that contains the path by string comparison; none is selected exactly when no origin directory contains it |
| `Redirections.SelectRedirectMeaning` | Source/FilesystemDirector.cpp:605-707 | the rule and the redirected string chosen on strings are those of the choice on components: longest origin, then first rule matching the component just below |
| `Redirections.ChoiceMeaning` | Source/FilesystemDirector.cpp:605-707 | the rule that is chosen for a path is the one that decides: at the longest origin above, it matches the component below and takes precedence over every other rule there that does; an origin itself goes by the first of its rules |
| `Redirections.FileOperationMeaning` | Source/FilesystemDirector.cpp:537-810 | a file operation redirects exactly the paths for which a rule is chosen, to exactly the place the choice says, with the attempts, the association and the disposition preference that the mode asks for; otherwise it is intercepted exactly when an origin lies below |
| `Redirections.PreOperationMeaning` | Source/FilesystemDirector.cpp:714-759 | a directory has to exist first if and only if the application can see the directory it creates in, or else asks for an existing origin-side directory; and it is the parent of the redirected path, or that path |
| `Agreement.IdentifiesTheRule` | Source/FilesystemDirector.cpp:39-54 | for an accepted rule set, the rule identified from a redirected path is exactly the one that redirected it |
| `Agreement.SingleRuleIsAccepted` | Source/FilesystemDirectorBuilder.cpp:667-692 | a configuration of one rule is accepted if and only if its target is not below its origin |
| `Agreement.OnlyOneTarget` | Source/FilesystemDirectorBuilder.cpp:455-462 | for an accepted rule set, nothing below one target is contained in the target of another rule of the same origin |
| `Agreement.HandleIsClassified` | Source/FilesystemDirector.cpp:134-175 | enumerating a handle opened by a file operation is never an internal error, and the handle is classified by the rule that was chosen for it |
| `Listing.TargetSideMeaning` | Source/FilesystemDirector.cpp:191-287 | each target-side enumeration includes exactly the names whose first matching rule is its own, in the one-rule form as in the general one |
| `Listing.OriginSideMeaning` | Source/FilesystemDirector.cpp:293-351 | whichever simplified origin-side form is chosen, it includes exactly the names that no Simple rule decides; leaving it out hides nothing extra |
| `Listing.SubtreeCoherence` | Source/FilesystemRule.cpp:154-210 | as long as no deeper origin intervenes, everything below a path is treated by the same rule and redirecting commutes with going down |
| `Listing.OwnTarget` | Source/FilesystemDirectorBuilder.cpp:418-462 | a rule that is its own target sends every operation back to the path it came from |
| `Listing.UnredirectedHandleAgreement` | Source/FilesystemDirector.cpp:444-456 | a handle left open on the origin side agrees with opening about a name if and only if the rule for the name leads nowhere else, or neither has the file nor hides it; `Scenarios.CreatedFileIsNotListed` is an input where they differ |
| `Listing.ListingAgreesWithOpening` | Source/FilesystemDirector.cpp:175-361 | for every accepted rule set, handle and filesystem, the entity behind the first enumeration that yields a name is the first existing file that opening the name would try |
| `FilesystemDirectors.IdentifyRuleThatPerformedRedirection` | Source/FilesystemDirector.cpp:39-54 | the loop finds the first rule whose target contains the path |
| `FilesystemDirectors.SelectRuleForDirectoryNameInsertionSource` | Source/FilesystemDirector.cpp:60-77 | the loop finds the first rule whose target is a real directory, otherwise the first rule |
| `FilesystemDirectors.SelectFirstRedirect` | Source/FilesystemDirector.cpp:658-707 | the loop finds the first rule that redirects the path, and where to |
| `FilesystemDirectors.EnumerateTargetSide` | Source/FilesystemDirector.cpp:187-288 | builds one target-side enumeration per rule and counts modes and catch-alls correctly |
| `FilesystemDirectors.EnumerateOriginDirectory` | Source/FilesystemDirector.cpp:178-361 | the list of enumerations for an origin directory, with all simplifications |
| `FilesystemDirectors.SortByName` | Source/FilesystemDirector.cpp:515-529 | the names to insert are sorted ignoring case, and none is lost or added |
| `FilesystemDirectors.CollectedAll` | Source/FilesystemDirector.cpp:458-530 | the collected and sorted rules are one for each origin directory directly inside, and no others |
| `FilesystemDirectors.FilesystemDirector.SelectRulesForPath` | Source/FilesystemDirector.cpp:79-93 | the container at the longest origin above the path |
| `FilesystemDirectors.FilesystemDirector.HasRuleWithOriginDirectory` | Include/Pathwinder/Internal/FilesystemDirector.h:315-318 | holds exactly for origin directories |
| `FilesystemDirectors.FilesystemDirector.IsPrefixForAnyRule` | Include/Pathwinder/Internal/FilesystemDirector.h:327-330 | holds exactly if an origin directory lies at or below the path |
| `FilesystemDirectors.FilesystemDirector.SelectHierarchy` | Source/FilesystemDirector.cpp:714-759 | chooses the directory that has to exist first |
| `FilesystemDirectors.FilesystemDirector.GetInstructionForFileOperation` | Source/FilesystemDirector.cpp:537-810 | computes the instruction whose meaning the lemmas above give |
| `FilesystemDirectors.FilesystemDirector.SelectDirectories` | Source/FilesystemDirector.cpp:134-456 | the enumerations for the class of the handle, or nothing in the internal-error cases |
| `FilesystemDirectors.FilesystemDirector.CollectChildren` | Source/FilesystemDirector.cpp:478-513 | visiting the children of a node in any order collects one rule for each that is an origin directory |
| `FilesystemDirectors.FilesystemDirector.NamesToInsert` | Source/FilesystemDirector.cpp:458-530 | one rule for each origin directory directly inside, sorted by name; nothing exactly if there is none |
| `FilesystemDirectors.FilesystemDirector.GetInstructionForDirectoryEnumeration` | Source/FilesystemDirector.cpp:95-535 | internal errors pass the query through; otherwise directories and names to insert are those of the classification |
| `FileInformation.LayoutForFileInformationClass` | Source/FileInformationStruct.cpp:35-60 | every supported structure layout has non-overlapping fields with the next-entry offset at the start |
| `FileInformation.LayoutsFollowFromFields` | Include/Pathwinder/Internal/FileInformationStruct.h:610-985 | for every class, positions and size are those that follow from the fields of the structure and their alignment, and exactly nine classes are supported |
| `FileInformation.NextEntryOffsetIsSeparate` | Include/Pathwinder/Internal/FileInformationStruct.h:501-507 | writing the next-entry offset changes neither name nor size nor anything else a structure says |
| `FileInformation.NameIsWritten` | Source/FileInformationStruct.cpp:97-117 | after a name is written the buffer starts with a complete structure of the right size that has this name, cut off only where the buffer ends |
| `FileInformation.WriteFileName` | Include/Pathwinder/Internal/FileInformationStruct.h:531-543 | the three stores change exactly the characters, the length and the next-entry offset |
| `FileInformation.WriteFileNameLength` | Include/Pathwinder/Internal/FileInformationStruct.h:515-520 | stores the length and the next-entry offset that goes with it |
| `FileInformation.UpdateNextEntryOffset` | Include/Pathwinder/Internal/FileInformationStruct.h:502-507 | makes a structure point just past its own end and changes nothing else |
| `FileInformation.ClearNextEntryOffset` | Include/Pathwinder/Internal/FileInformationStruct.h:406-411 | marks a structure as the last and changes nothing else |
| `FileInformation.PackedSize` | Source/FilesystemExecutor.cpp:445-515 | the bytes of packed structures are as many as the structures have together |
| `FileInformation.UnpackPacked` | Source/DirectoryOperationQueue.cpp:177-191 | walking a packed buffer by next-entry offsets until one is zero gives back exactly the structures that were packed, whatever bytes follow |
| `Streams.LowestFrontMeaning` | Source/DirectoryOperationQueue.cpp:260-280 | the selected queue has the front that sorts lowest ignoring case, and is the earliest such queue |
| `Streams.FirstErrorMeaning` | Source/DirectoryOperationQueue.cpp:375-400 | the reported error is that of an exhausted queue, and there is none exactly if all exhausted queues ended normally |
| `Streams.FirstErrorIsFirst` | Source/DirectoryOperationQueue.cpp:375-400 | the error of several failed queues is that of the first of them, and there is none exactly if none has failed |
| `Streams.MergeInterleaves` | Source/DirectoryOperationQueue.cpp:260-280 | every queue is delivered in its own order without loss or duplication up to the end, and completely unless the merge ends in an error |
| `Streams.MergeEndsLikeItsStreams` | Source/DirectoryOperationQueue.cpp:375-400 | the merge ends normally if and only if every queue does |
| `Streams.MergeSources` | Source/DirectoryOperationQueue.cpp:402-411 | every merged entry is the next one of the queue it is said to come from |
| `Streams.MergeIsOrdered` | Source/DirectoryOperationQueue.cpp:260-280 | whatever the order within the queues, the merge is in order of the highest name that the queue of each entry has delivered so far, with ties going by position of the queue |
| `Streams.MergeIsSortedAndStable` | Source/DirectoryOperationQueue.cpp:260-280 | if every queue is sorted ignoring case, so is the merge, with equal names in the order of the queues |
| `Streams.MergeDelivers` | Source/DirectoryOperationQueue.cpp:375-411 | which entries get through when some queues end in an error, in whatever order they come: exactly those for which the highest name up to them in their own queue is not behind the highest one of any such queue, with ties going by position |
| `Streams.MergedNames` | Include/Pathwinder/Internal/DirectoryOperationQueue.h:268-273 | a name is in the merge if and only if some queue, sorted or not, has it and comes to it in time |
| `Streams.MergeEndsAsOne` | Source/DirectoryOperationQueue.cpp:375-400 | the merge ends normally or in the error of one of its queues |
| `Streams.DedupeMeaning` | Source/FilesystemExecutor.cpp:480-492 | an entry survives if and only if it is the first with its name and the name was not seen before |
| `Streams.DedupeDistinct` | Source/FilesystemExecutor.cpp:480-492 | no name is left twice |
| `Streams.DedupeKeepsNames` | Source/FilesystemExecutor.cpp:480-492 | no name is lost |
| `Streams.DedupeConcat` | Source/FilesystemExecutor.cpp:480-492 | removing duplicates can be stopped anywhere and resumed with the names seen so far |
| `Streams.FirstComesFrom` | Source/FilesystemExecutor.cpp:589-603 | what is left of a name after removing duplicates comes from the queue that comes to it lowest, and from the earliest of these, also when the merge ends in an error |
| `Streams.EarliestStreamWins` | Include/Pathwinder/Internal/DirectoryOperationQueue.h:268-273 | it comes from the earliest queue that has the name if and only if no later one comes to it lower |
| `Streams.EarliestSortedStreamWins` | Source/FilesystemExecutor.cpp:589-603 | where all queues are sorted, it always comes from the earliest queue that has the name |
| `EnumerationQueues.IncludedMeaning` | Source/FilesystemInstruction.cpp:92-147 | filtering keeps exactly the entries whose names are to be included |
| `EnumerationQueues.SystemDirectory.PartialEnumerate` | Source/DirectoryOperationQueue.cpp:155-172 | the model of a system directory: a call starts or continues a scan and hands out its next batch, or the final status |
| `NtStatuses.OnlyNotThereMeansNotFound` | Source/DirectoryOperationQueue.cpp:69-80 | a directory counts as missing after exactly five answers |
| `EnumerationQueues.EnumerationQueue.constructor` | Source/DirectoryOperationQueue.cpp:39-90 | a missing directory gives an empty queue, another error gives that error, an open directory gives its filtered scan |
| `EnumerationQueues.EnumerationQueue.AdvanceQueueContents` | Source/DirectoryOperationQueue.cpp:143-175 | the unread structures are exactly those of the scan that is started or continued |
| `EnumerationQueues.EnumerationQueue.PopFrontInternal` | Source/DirectoryOperationQueue.cpp:177-191 | drops exactly the first unread structure, across batch boundaries |
| `EnumerationQueues.EnumerationQueue.SkipNonMatching` | Source/DirectoryOperationQueue.cpp:193-198 | terminates with a front that is to be included and the same entries to deliver |
| `EnumerationQueues.EnumerationQueue.PopFront` | Source/DirectoryOperationQueue.cpp:304-308 | delivers the tail of the filtered stream, for any batching of the results |
| `EnumerationQueues.EnumerationQueue.Restart` | Source/DirectoryOperationQueue.cpp:310-314 | delivers the filtered stream of a new scan |
| `EnumerationQueues.EnumerationQueue.CopyFront` | Source/DirectoryOperationQueue.cpp:282-290 | copies the first bytes of the front, as many as fit |
| `NameInsertionQueues.InsertionStreamMeaning` | Source/DirectoryOperationQueue.cpp:200-258 | against a filesystem that does not change, the queue offers its list filtered by pattern and existence up to the first name whose query is refused for a reason other than absence, and ends with that refusal, or normally if there is none |
| `NameInsertionQueues.NameInsertionQueue.constructor` | Source/DirectoryOperationQueue.cpp:110-133 | starts with the stream of names for the upper-case pattern |
| `NameInsertionQueues.NameInsertionQueue.TryInsertion` | Source/DirectoryOperationQueue.cpp:217-257 | one query: an existing directory becomes the front under the inserted name, a missing one is skipped, another failure ends the queue |
| `NameInsertionQueues.NameInsertionQueue.AdvanceQueueContents` | Source/DirectoryOperationQueue.cpp:200-258 | the loop moves to the first name that is to be delivered, and loses none |
| `NameInsertionQueues.NameInsertionQueue.PopFront` | Source/DirectoryOperationQueue.cpp:341-344 | delivers the tail of the stream |
| `NameInsertionQueues.NameInsertionQueue.Restart` | Source/DirectoryOperationQueue.cpp:346-363 | delivers the stream from the first name; an empty pattern leaves the previous one in force |
| `NameInsertionQueues.NameInsertionQueue.CopyFront` | Source/DirectoryOperationQueue.cpp:323-329 | copies the first bytes of the front, as many as fit |
| `MergedQueues.MergedFileInformationQueue.constructor` | Source/DirectoryOperationQueue.cpp:135-141 | merges exactly the streams of the given queues |
| `MergedQueues.MergedFileInformationQueue.SelectFrontElementSourceQueue` | Source/DirectoryOperationQueue.cpp:260-280 | the loop finds the queue with the lowest front, the earliest on ties |
| `MergedQueues.MergedFileInformationQueue.EnumerationStatus` | Source/DirectoryOperationQueue.cpp:375-400 | more entries exactly if the merged stream has some, otherwise the status in which it ends |
| `MergedQueues.MergedFileInformationQueue.PopFront` | Source/DirectoryOperationQueue.cpp:407-411 | delivers the tail of the merged stream |
| `MergedQueues.MergedFileInformationQueue.Restart` | Source/DirectoryOperationQueue.cpp:413-423 | restarts every queue and merges what they then have |
| `MergedQueues.MergedFileInformationQueue.CopyFront` | Source/DirectoryOperationQueue.cpp:370-373 | copies the first bytes of the front of the merged stream |
| `OperationQueues.CombinedSingle` | Source/FilesystemExecutor.cpp:605-615 | a single queue delivers what merging it alone would deliver |
| `QueueCreation.CreateEnumerationQueues` | Source/FilesystemExecutor.cpp:589-597 | one queue per directory, in order, each delivering its own stream and none sharing state |
| `QueueCreation.AddInsertionQueue` | Source/FilesystemExecutor.cpp:599-603 | the queue of names to insert comes last and disturbs no other |
| `QueueCreation.CreateDirectoryOperationQueue` | Source/FilesystemExecutor.cpp:577-616 | the queue delivers the merge of the streams of its directories and names; there is none exactly for a query passed through or without directories |
| `Enumerations.FillDelivers` | Source/FilesystemExecutor.cpp:445-494 | filling a buffer delivers the next names due and leaves the others due, never more than the limit |
| `Enumerations.AdvanceDelivers` | Source/FilesystemExecutor.cpp:399-516 | a call delivers at least one entry if one is due and fits, at most one if only one is wanted; an overflow consumes nothing |
| `Enumerations.AdvanceStatus` | Source/FilesystemExecutor.cpp:407-422 | the status says exactly whether nothing matched, nothing is left, the buffer is too small, or entries were delivered |
| `Enumerations.CallIsGreedy` | Source/FilesystemExecutor.cpp:445-494 | what a call delivers fits into the buffer together, and it stops only if nothing more is due, if it has delivered as many as are wanted, or if the next entry does not fit into what is left |
| `Enumerations.RunDelivers` | Source/FilesystemExecutor.cpp:399-516 | in any run, with any buffers and flags, what was delivered and what is still due make up exactly what was due |
| `Enumerations.DeliversWithError` | Source/FilesystemExecutor.cpp:502-515 | a call that delivers something reports an error if and only if it reaches the end of a queue that ends in one |
| `Enumerations.SuccessfulCallsDeliver` | Source/FilesystemExecutor.cpp:502-515 | the calls of a run that report success deliver all that the run does, unless it reaches the end of a queue that ends in an error, and a prefix of it in any case |
| `Enumerations.CompleteRunDeliversAll` | Source/FilesystemExecutor.cpp:399-516 | every complete run delivers the first occurrence of every name, in order and once, wherever buffers cut it |
| `Enumerations.RunDeliversPrefix` | Source/FilesystemExecutor.cpp:399-516 | an incomplete run delivers a prefix of it |
| `Enumerations.RunCompletes` | Source/FilesystemExecutor.cpp:399-516 | as many calls as names due complete a run if every buffer can hold every entry |
| `InProgressEnumerations.ApplicationReadsDelivered` | Source/FilesystemExecutor.cpp:445-515 | an application that walks the buffer meets exactly the delivered entries: their names, and their bytes apart from next-entry offsets |
| `InProgressEnumerations.InProgressEnumeration.SkipDuplicates` | Source/FilesystemExecutor.cpp:485-491 | the loop drops exactly the leading entries whose names were delivered before |
| `InProgressEnumerations.InProgressEnumeration.CopyEntries` | Source/FilesystemExecutor.cpp:445-494 | the loop writes entries one behind the other, each pointing behind its own end, in bounds, and tracks the last |
| `InProgressEnumerations.InProgressEnumeration.FillBuffer` | Source/FilesystemExecutor.cpp:445-515 | the bytes of the buffer are the packed entries with the last one marked; the byte count is the sum of their sizes and at most the capacity |
| `InProgressEnumerations.InProgressEnumeration.ReportOverflow` | Source/FilesystemExecutor.cpp:424-444 | as many bytes as fit, then the full length of the name and the next-entry offset that goes with it; the queue is not touched |
| `InProgressEnumerations.InProgressEnumeration.Advance` | Source/FilesystemExecutor.cpp:399-516 | one call changes state, status, byte count and buffer exactly as the step function of the run theorems says |
| `InProgressEnumerations.InProgressEnumeration.Restart` | Source/FilesystemExecutor.cpp:1281-1290 | forgets the delivered names and starts over with the restarted queue |
| `InProgressEnumerations.InProgressEnumeration.constructor` | Include/Pathwinder/Internal/OpenHandleStore.h:37-55 | an enumeration starts with its queue untouched and no names delivered |
| `OpenHandleStores.OpenHandleStore.AssociateDirectoryEnumerationState` | Source/OpenHandleStore.cpp:32-51 | attaches an enumeration to a known handle and changes nothing else |
| `OpenHandleStores.OpenHandleStore.InsertHandle` | Source/OpenHandleStore.cpp:72-83 | inserts unless there is an entry, which then stays, and reports which |
| `OpenHandleStores.OpenHandleStore.InsertOrUpdateHandle` | Source/OpenHandleStore.cpp:85-108 | replaces the paths but keeps an enumeration in progress |
| `OpenHandleStores.OpenHandleStore.RemoveAndCloseHandle` | Source/OpenHandleStore.cpp:123-141 | if the system refuses to close, nothing changes; otherwise exactly this entry goes and is returned |
| `HandleProtocol.StepKeepsInvariant` | Source/OpenHandleStore.cpp:32-141 | a step of a thread keeps the invariant if and only if it does not record a rename or an enumeration too late, with the system free to reuse a closed handle at once and applications free to close handles in use |
| `HandleProtocol.RunKeepsInvariant` | Source/OpenHandleStore.cpp:32-141 | the invariant holds in every state up to some point of a run if and only if no step before that point comes too late |
| `HandleProtocol.StoredHandlesAreCurrent` | Source/OpenHandleStore.cpp:61-70 | as long as no step came too late, each stored handle is open, and the paths and the directory enumeration found for it are about its current opening |
| `HandleProtocol.StoreCallsAreSafe` | Source/OpenHandleStore.cpp:72-83 | as long as no step came too late, an inserted handle never meets an entry that is already there, and a handle closed and removed is in the store |
| `HandleProtocol.CarefulRunsAreInTime` | Source/FilesystemExecutor.cpp:1741-1766 | if an application closes no handle while a call of its own works with it, no step of the run comes too late |
| `HandleProtocol.EntrySurvivesUnlessTaken` | Source/FilesystemExecutor.cpp:1160-1189 | a step takes an entry away if and only if its thread closes the handle or has renamed its file to where no rule applies; otherwise, unless it comes too late, entry and handle stay about the same opening |
| `HandleProtocol.EntryLivesUntilTaken` | Source/OpenHandleStore.cpp:61-70 | over any part of any run without a late step, an entry that nobody takes away stays, and its handle stays open, about the same opening |
| `HandleProtocol.HandleStaysOpenWhileUsed` | Source/FilesystemExecutor.cpp:1240-1241 | where nothing in use is closed, a handle that a thread works with stays open as the same opening over any part of any run |
| `HandleProtocol.ForgettingLosesTheEntry` | Source/OpenHandleStore.cpp:110-121 | a run of two threads that close nothing, after which one of them still uses an open handle whose entry is gone |
| `HandleProtocol.RecordingTooLate` | Source/OpenHandleStore.cpp:85-108 | a run of two threads in which a rename is recorded after the handle was closed: the entry is about no open handle, and then describes the next file that is given the handle |
| `HandleProtocol.ClosingWithoutRemovingLosesData` | Include/Pathwinder/Internal/OpenHandleStore.h:161-165 | if closing and removing were two steps, another thread could be given data of an earlier opening |
| `Executors.CloseHandle` | Source/FilesystemExecutor.cpp:1229-1253 | a stored handle is closed and removed in one step, any other is only closed |
| `PathResolution.PathResolveRelativeToAbsolute` | Source/FilesystemDirectorBuilder.cpp:45-115 | the stack with its running length computes the resolved path; the length is always that of the stack, so removing too many characters is impossible |
| `PathResolution.ResolvedHasNoReferences` | Source/FilesystemDirectorBuilder.cpp:45-115 | the result has no empty component, current-directory or parent-directory reference |
| `PathResolution.ResolvedStaysTheSame` | Source/FilesystemDirectorBuilder.cpp:45-115 | a path with ordinary components resolves to itself |
| `PathResolution.ResolveIsIdempotent` | Source/FilesystemDirectorBuilder.cpp:45-115 | resolving a second time changes nothing |
| `PathResolution.ParentReferenceCancels` | Source/FilesystemDirectorBuilder.cpp:64-84 | entering a directory and leaving it by a parent reference leads nowhere, wherever that happens |
| `PathResolution.NothingIsSkipped` | Source/FilesystemDirectorBuilder.cpp:56-63 | empty components and references to the current directory can be left out anywhere |
| `PathResolution.SkippedInPaths` | Source/FilesystemDirectorBuilder.cpp:56-63 | so paths that differ only in such a component between two backslashes resolve to the same, or fail alike |
| `PathResolution.ResolutionMeaning` | Source/FilesystemDirectorBuilder.cpp:64-100 | resolution succeeds if and only if no parent reference comes where fewer than two components are left and no component where there are as many as there may be; otherwise it reports which happens first; the depth of the result is that of the components |
| `PathResolution.ResolvedComponents` | Source/FilesystemDirectorBuilder.cpp:64-100 | at every depth the result has the component there from which no later parent reference leads back |
| `BuilderStates.UsableDirectoryIsUsable` | Source/FilesystemDirectorBuilder.cpp:293-336 | an accepted origin or target directory is normalised, resolved, has good components and is not a filesystem root |
| `BuilderStates.UsableDirectoryMeaning` | Source/FilesystemDirectorBuilder.cpp:294-337 | a directory can be used if and only if its resolved components begin with a drive, are at least two, and consist of printable, allowed characters, not only periods; it is used without a backslash at the end, and each error is told from the components |
| `BuilderStates.ParentOfUsable` | Source/FilesystemDirectorBuilder.cpp:631-655 | the parent of a usable directory can be used, as it is, unless it is a drive |
| `BuilderStates.RecordMeaning` | Source/FilesystemDirectorBuilder.cpp:464-467 | recording a directory makes it one that is in use, ignoring case, and no other |
| `BuilderStates.ObjectionMeaning` | Source/FilesystemDirectorBuilder.cpp:363-462 | there is an objection if and only if the rule is not acceptable: its name is in use, a pattern is empty or has a bad character, a directory cannot be used, the origin is a target or the target any directory on record; what is reported is really the case |
| `BuilderStates.FullAddsNothing` | Source/FilesystemDirectorBuilder.cpp:478-499 | an acceptable rule fails to be added if and only if its container is full |
| `BuilderStates.AddingKeepsConsistency` | Source/FilesystemDirectorBuilder.cpp:355-509 | a rule that meets no objection keeps all tables consistent: origins, targets and names agree with the tree, targets are distinct and no origins |
| `BuilderStates.OutcomeKeepsConsistency` | Source/FilesystemDirectorBuilder.cpp:464-509 | so does an addition that is refused at the limit or finds an equivalent rule, after the sets were changed |
| `BuilderStates.LacksParentMeaning` | Source/FilesystemDirectorBuilder.cpp:634-640 | the string test for a missing parent is right about components |
| `BuilderStates.AncestorMeaning` | Source/FilesystemDirectorBuilder.cpp:662-692 | the closest ancestor of a target in the tree of all directories tells exactly whether any rule uses a directory above it |
| `BuilderStates.FewerMissing` | Source/FilesystemDirectorBuilder.cpp:569-601 | making the parent of an origin an origin leaves strictly fewer levels that are not origins |
| `BuilderStates.ExtendedFurther` | Source/FilesystemDirectorBuilder.cpp:564-601 | what is generated for generated rules is generated for the rules of the configuration |
| `BuilderStates.ParentAdded` | Source/FilesystemDirectorBuilder.cpp:569-601 | a successful automatic addition makes that progress, keeps all rules and adds one generated for them |
| `BuilderStates.EveryLevelIsPresent` | Source/FilesystemDirectorBuilder.cpp:634-660 | if the constraints hold, every level above an origin is a real directory or an origin |
| `BuilderStates.ConstraintsMakeAccepted` | Source/FilesystemDirectorBuilder.cpp:611-695 | if the constraints hold, no target is below an origin, and none is equal to or below another target or equal to another origin |
| `BuilderStates.BuiltIsAccepted` | Source/FilesystemDirectorBuilder.cpp:550-609 | both hold for what a successful build leaves behind |
| `GeneratedRules.WhyParentsFail` | Source/FilesystemDirectorBuilder.cpp:567-577 | the rule for a missing parent cannot be added only if its name is taken, the parent is a drive that is not there or a target, or the temporary directory cannot be used or is in use |
| `GeneratedRules.ParentResult` | Source/FilesystemDirectorBuilder.cpp:567-577 | where it is acceptable, it is added: a container with just this rule, whose origin is the parent |
| `GeneratedRules.NeededMeaning` | Source/FilesystemDirectorBuilder.cpp:631-655 | the levels that need a rule are those above an origin that are neither real directories nor origins |
| `GeneratedRules.GrownFurther` | Source/FilesystemDirectorBuilder.cpp:564-601 | what any number of generated rules makes of the builder: only levels that need it get a rule, each leads to a temporary directory of its own, which was new, and nothing else comes into use |
| `GeneratedRules.OnlyParentsAreMissing` | Source/FilesystemDirectorBuilder.cpp:611-695 | where a director can be built, generated rules violate no constraint themselves |
| `GeneratedRules.ParentIsAcceptable` | Source/FilesystemDirectorBuilder.cpp:567-577 | and the next one can always be added, as long as nothing clashes |
| `GeneratedRules.GrownToTheEnd` | Source/FilesystemDirectorBuilder.cpp:564-609 | when all constraints hold, every level that needed a rule has got one, and the rules, the filesystem and the temporary directories were as they have to be |
| `FilesystemDirectorBuilders.FilesystemDirectorBuilder.CheckRule` | Source/FilesystemDirectorBuilder.cpp:355-462 | the checks succeed if and only if the rule is acceptable, otherwise they report a conflict that really exists, the first in the order of the code |
| `FilesystemDirectorBuilders.FilesystemDirectorBuilder.EmplaceIntoTree` | Source/FilesystemDirectorBuilder.cpp:464-497 | the tree changes at the origin of the rule only, by exactly this rule |
| `FilesystemDirectorBuilders.FilesystemDirectorBuilder.AddRule` | Source/FilesystemDirectorBuilder.cpp:355-509 | a rule that is not acceptable changes nothing and is refused for a conflict that really exists; any other is added, or dropped for an equivalent one, or refused exactly if its container is full; its name and directories, and no others, come into use, its patterns let through what they say, and the tables stay consistent |
| `FilesystemDirectorBuilders.FilesystemDirectorBuilder.CollectDirectories` | Source/FilesystemDirectorBuilder.cpp:622-660 | visiting the rules in any order finds a violated origin constraint or collects exactly the directories of all rules |
| `FilesystemDirectorBuilders.FilesystemDirectorBuilder.VerifyPreBuildConstraints` | Source/FilesystemDirectorBuilder.cpp:611-695 | reports a constraint that is really violated, and none only if all hold |
| `FilesystemDirectorBuilders.FilesystemDirectorBuilder.AddParentRule` | Source/FilesystemDirectorBuilder.cpp:569-601 | succeeds if and only if the rule for the missing parent is acceptable, and then adds exactly that rule, which leaves strictly fewer levels without an origin; otherwise nothing changes and the reason really holds |
| `FilesystemDirectorBuilders.FilesystemDirectorBuilder.SatisfyConstraints` | Source/FilesystemDirectorBuilder.cpp:564-601 | the loop terminates, with all constraints satisfied and one generated rule for every level that needs one, or with a reason that really holds in the state reached; it does nothing if the constraints hold already, and succeeds wherever the rules, the filesystem and the temporary directories allow it |
| `FilesystemDirectorBuilders.FilesystemDirectorBuilder.Build` | Source/FilesystemDirectorBuilder.cpp:550-609 | success gives a director with all rules that were added and exactly one rule for every level above their origins at which there is nothing, an accepted rule set in ordered containers, and something to list at every level; it is only possible if what was added and the temporary directories are as they have to be, and then certain unless a generated name or directory clashes; if the constraints hold already, nothing is generated; a failure names a constraint that is violated, or the rule that cannot be added and why |
| `Volumes.System.EnsureDirectoryExists` | Source/FilesystemOperations.cpp:71-105 | opens or creates one directory |
| `DirectoryHierarchies.CreateLevelsMeaning` | Source/FilesystemOperations.cpp:276-290 | creating level after level creates exactly missing levels, from the top down without a gap |
| `DirectoryHierarchies.CreateHierarchyMeaning` | Source/FilesystemOperations.cpp:231-291 | exactly the missing levels down to some level are created, nothing else changes; it succeeds if and only if that is the requested one, and then the whole chain exists |
| `DirectoryHierarchies.FindExistingDirectory` | Source/FilesystemOperations.cpp:243-265 | the loop up ends at the deepest level that is a directory |
| `DirectoryHierarchies.CreateBelow` | Source/FilesystemOperations.cpp:267-290 | the loop down creates the levels below it one after the other until one fails |
| `DirectoryHierarchies.CreateDirectoryHierarchy` | Source/FilesystemOperations.cpp:231-291 | both loops together compute what the lemmas are about |
| `Executors.LastAttemptDecides` | Source/FilesystemExecutor.cpp:1512-1600 | however many attempts are made, the outcome is that of the last one on the volume as it was before |
| `Executors.InstructionIsDecidedByLastAttempt` | Source/FilesystemExecutor.cpp:1512-1600 | only the last attempt of an instruction can change the filesystem, and its path is the one that is stored as opened |
| `Executors.OverlayOpenOrCreate` | Source/FilesystemExecutor.cpp:937-980 | open-or-create, overwrite and supersede under Overlay do in every state what one call does on the target if it exists, else the origin if it exists, else the target if its parent exists |
| `Executors.OverlayCreate` | Source/FilesystemExecutor.cpp:974-978 | create-only under Overlay does in every state what one call does on the target if that exists or its parent does, and otherwise on the origin |
| `Executors.OverlayCreateIgnoresOrigin` | Source/FilesystemDirector.cpp:772-777 | with the file present on the origin side, create-only fails if and only if the target exists, has no parent, or is refused; otherwise a file is created on the target side |
| `Scenarios.CreateOnlySucceedsDespiteOrigin` | Source/FilesystemDirector.cpp:772-777 | a configuration, accepted by the builder's criteria, and a volume in which create-only succeeds although the application sees a file of that name |
| `Executors.OpenReachesFirstExisting` | Source/FilesystemExecutor.cpp:1526-1597 | opening or overwriting reaches the first of the files that exists and no other, and fails as not found if none does |
| `Executors.OpeningReaches` | Source/FilesystemExecutor.cpp:1512-1600 | the same for every instruction |
| `Executors.WorksOnFirstExisting` | Source/FilesystemExecutor.cpp:1512-1600 | opening or overwriting an existing file does, whatever the instruction, what one call does on the first of its files that exists, and fails as not found, without a change, if none does |
| `Volumes.OnlyNotFoundIsTriedAgain` | Source/FilesystemExecutor.cpp:1060-1076 | the next file is tried after exactly four answers, which all mean that something is not there |
| `Executors.OneFileOneCall` | Source/FilesystemExecutor.cpp:893-897 | with one file to try and no preference the system is called exactly once, for that file and with the application's own create disposition |
| `Executors.PreferringCreationOnlyCreates` | Source/FilesystemExecutor.cpp:899-935 | with a preference for creation and one file, an operation that opens or creates only creates |
| `Executors.SomethingIsTried` | Source/FilesystemExecutor.cpp:1512-1600 | every instruction leads to at least one attempt |
| `Executors.OperationIsOneCall` | Source/FilesystemExecutor.cpp:1452-1618 | every file operation comes down to one call on one of its files, for what the application asked for or one half of it, once the directory that it needs is there; if that fails, to nothing |
| `Executors.AttemptFiles` | Source/FilesystemExecutor.cpp:1526-1597 | the inner loop makes the attempts for one disposition in order |
| `Executors.AttemptAll` | Source/FilesystemExecutor.cpp:1512-1600 | the nested loops make all attempts in order until trying another is pointless; what that does is stated by OneFileOneCall, WorksOnFirstExisting, OverlayOpenOrCreate and OverlayCreate |
| `Executors.NewFileHandle` | Source/FilesystemExecutor.cpp:1452-1618 | pre-operation, attempts and recording of the handle together; a failed pre-operation ends it; what it comes down to is stated by OperationIsOneCall |
| `EndToEnd.RecordedHandle` | Source/FilesystemExecutor.cpp:1090-1146 | a recorded handle is known by the path the application used, without a backslash at its end, and was opened for that path or the one it is redirected to |
| `EndToEnd.RecordedExactly` | Source/FilesystemExecutor.cpp:1090-1146 | a handle is recorded if and only if the operation succeeds and a rule redirects the path, or no rule is about it but there is an origin at or below it |
| `EndToEnd.OtherPathsAreNotTouched` | Source/FilesystemDirector.cpp:549-557 | a path without a drive letter is never touched: one call with the path and the disposition as they are, and nothing is recorded |
| `EndToEnd.SharesAreNotTouched` | Source/FilesystemDirector.cpp:549-557 | network shares, for instance |
| `EndToEnd.RecordedHandleIsNoInternalError` | Source/FilesystemDirector.cpp:435-441 | enumerating a handle that any file operation recorded is never an internal error |
| `EndToEnd.OpeningReachesWhatIsListed` | Source/Test/IntegrationTestSupport.cpp:448-455 | opening a listed name, as a file or as a directory, reaches the entity that is listed, and opening a name that is not listed fails as not found |
| `EndToEnd.FilteredScanOffers` | Source/DirectoryOperationQueue.cpp:143-198 | a queue over a complete scan for a pattern, in any order and however it is cut into batches, offers exactly the matching names that the enumeration yields, or fails as the system does when nothing in the directory matches |
| `EndToEnd.NamesThrough` | Source/DirectoryOperationQueue.cpp:260-280 | if no directory fails, the merged stream has a name exactly if one of its queues has it and the queue of names to insert does not fail before some queue comes to it |
| `EndToEnd.CompleteRunDelivers` | Source/FilesystemExecutor.cpp:399-516 | a complete run delivers a name exactly if it matches the pattern, some directory yields it, no directory fails, and the names to insert do not cut it off |
| `EndToEnd.DeliveredFromFirst` | Source/FilesystemExecutor.cpp:589-603 | the delivered entry is that of the directory whose listing comes to the name lowest, the first one on ties; it is that of the first directory that yields the name, whose entity is the first listing, if and only if no later listing comes to the name lower |
| `EndToEnd.FailureMakesMergeFail` | Source/DirectoryOperationQueue.cpp:375-400 | if a directory fails, because its path is a file or nothing in it matches the pattern, the merged stream is nothing but the first such error |
| `EndToEnd.ApplicationsSeeWhatTheyCanOpen` | Source/Test/IntegrationTestSupport.cpp:448-455 | a complete run over the streams of a handle delivers a name exactly if it matches the pattern, opening it would find something, no directory fails, and the names to insert do not cut it off |
| `DirectoryViews.DirectoryOffers` | Source/DirectoryOperationQueue.cpp:39-90 | a queue over one path offers what the enumeration yields for the pattern, whether or not the directory exists, and nothing but an error if the path is a file or nothing matches |
| `DirectoryViews.InsertionStreamInserts` | Source/DirectoryOperationQueue.cpp:200-258 | the inserted names are exactly those of origin directories directly inside that match the pattern, whose chosen target exists, and that sort before every one whose target should be in what is a file; if there is such a one, the queue ends in the error that it is not a directory |
| `DirectoryViews.QueuesShowHandle` | Source/FilesystemExecutor.cpp:577-616 | the queues made for an instruction of the director start with the streams of the handle, for any file pattern |
| `DirectoryViews.ShownIfAndOnlyIfOpenable` | Source/Test/IntegrationTestSupport.cpp:448-455 | instruction, queues, pattern, merging, removal of duplicates and buffers together, whatever the order in which directories are listed: a name is delivered if and only if it matches the pattern, opening it would find something, none of the enumerated directories fails, and the enumeration gets as far as the name |
| `DirectoryViews.ShownWhenSorted` | Include/Pathwinder/Internal/DirectoryOperationQueue.h:265-268 | where the system lists directories in order, how far the enumeration gets is decided by the rules and the filesystem |
| `DirectoryViews.ShownEntryIsOpened` | Include/Pathwinder/Internal/DirectoryOperationQueue.h:268-273 | what is delivered for a name is about the entity that opening it reaches if and only if, after the first directory that yields the name, no other listing comes to it lower; so it is where all are sorted |
| `DirectoryViews.ShownForUnredirectedHandle` | Source/FilesystemDirector.cpp:444-456 | for a handle on record as opened for itself: when a name is delivered, when it can be opened, and exactly when the two agree |
| `DirectoryViews.FailureInTheWay` | Source/DirectoryOperationQueue.cpp:375-400 | if an enumerated path is a file, or a directory in which nothing matches the pattern, nothing is delivered in any number of calls and every call reports the first such failure |
| `DirectoryViews.BlockedTargetInTheWay` | Source/FilesystemOperations.cpp:465-492 | if the target of a deeper rule should be in what is a file, every call that finds or reaches the end reports that it is not a directory; if no name is inserted before, nothing is delivered and every call reports it |
| `Scenarios.FileHidesDirectory` | Source/FilesystemDirector.cpp:363-433 | a configuration with a file on the origin side where the target side has a directory: the directory and the file in it can be opened, but an enumerated path is a file |
| `Scenarios.NothingShownOfSub` | Source/DirectoryOperationQueue.cpp:69-80 | in that configuration nothing is ever delivered for the directory |
| `Scenarios.BlockedTargetHidesDirectory` | Source/DirectoryOperationQueue.cpp:234-251 | a configuration and a filesystem in which nothing of an ordinary directory is listed although the file in it can be opened, because a rule for another name in it has a target below a file |
| `Scenarios.PatternHidesFile` | Source/FilesystemExecutor.cpp:406-417 | an Overlay configuration in which a file that matches the pattern and can be opened is not listed, because nothing in the origin directory matches |
| `Scenarios.OriginEntrySurvives` | Include/Pathwinder/Internal/DirectoryOperationQueue.h:268-273 | two queues of which the first is not sorted: what survives of the name they share is the entry of the second |
| `Scenarios.ListsOneOpensAnother` | Include/Pathwinder/Internal/DirectoryOperationQueue.h:268-273 | an Overlay configuration in which the target directory is listed out of order: the entry delivered for a name is that of the origin directory, and opening it reaches the file in the target directory |
| `Scenarios.NameIsListed` | Include/Pathwinder/Internal/DirectoryOperationQueue.h:268-273 | in that configuration every complete run delivers the name |
| `DirectoryViews.DeeperOriginIsShown` | Source/FilesystemDirector.cpp:458-530 | the name of a deeper origin directory is delivered if and only if it matches the pattern, its chosen target exists or an enumerated directory shows it, no directory fails, and the enumeration gets as far as the name |
| `DirectoryViews.OpeningAnOrigin` | Source/FilesystemDirector.cpp:605-657 | opening an origin directory finds something if and only if the first rule's target exists, or that rule is Overlay and there is something at the origin |
| `DirectoryViews.DeeperOriginAgreement` | Source/FilesystemDirector.cpp:60-77 | exactly when listing and opening agree about the name of a deeper origin directory |
| `Scenarios.ShownButNotOpenable` | Source/FilesystemDirector.cpp:60-77 | a configuration in which the name of an origin directory is listed and cannot be opened, because only the second rule has a target |
| `NewFiles.PreparedDirectoryExists` | Source/FilesystemExecutor.cpp:760-791 | a successful pre-operation leaves the requested directory behind and adds nothing but levels of it |
| `NewFiles.OriginSideIsNoLevel` | Source/FilesystemDirector.cpp:714-759 | making the directory for a redirected file never creates the path the application asked for |
| `NewFiles.NewFilesGoToTheTarget` | Source/FilesystemDirector.cpp:714-801 | creating a file or directory that is not on the target side and not opened on the origin side instead, where the application can see the parent, creates it at the redirected path, whose directory is made first, and adds nothing else; the handle is recorded under the path the application used |
| `NewFiles.DriveAloneIsRefused` | Source/FilesystemOperations.cpp:238-241 | a pre-operation for a drive alone, as for a target in the root of a drive, always fails |
| `Scenarios.OriginStaysOpenAsItself` | Source/FilesystemExecutor.cpp:1526-1616 | an open-or-create of an existing Overlay origin directory without a target leaves a handle recorded as opened for itself |
| `Scenarios.CreatedFileIsNotListed` | Source/FilesystemDirector.cpp:444-456 | a file then created through the program in that directory is not listed by the handle although opening it succeeds |

## Left out

- Windows calls, Hookshot, hooks, logging and configuration: foreign calls and plumbing. The system's create call is the function `NtCreate` with arbitrary refusals; scans and queries are arbitrary answers of the required form.
- Asynchronous completion, the thread pool and APCs: wrappers around the synchronous advance, which is modelled.
- `QueryByHandle` and `RenameByHandle`: they use the attempt loop over file names that `AttemptFiles` models, without dispositions; what a rename does to the handle store is part of `HandleProtocol`.
- Paths relative to a root-directory handle: file operations are modelled from the composed absolute path on, and executed on path strings rather than object attributes.
- Reference resolution in `AddRule`: paths are taken after it. Configuration parsing, temporary-path creation and clean-up: temporary directories are a parameter of `Build`.
- FilesystemDirectorBuilders.FilesystemDirectorBuilder.Build: between `Buildable` and success lies only what `NothingClashes` names, where the outcome depends on the order in which a hash table is visited.
- Unsupported information classes, and forced results for malformed instructions: the queues are modelled for supported structures, the executor for the instructions the director issues.
- Moving a prefix tree: one tree that stays in place is modelled. Null queues and queues of merged queues do not occur.
- Doubled backslashes in queries: the agreement of the string view and the component view is stated for normalised paths, which is what the builder produces.
- The order in which hash tables are visited is arbitrary in the model; `std::sort` is an insertion sort, since only its result matters.
- HandleProtocol.HandleStaysOpenWhileUsed: applications are taken not to close a handle while one of their own threads is using it, as in `CarefulRunsAreInTime`; the other results about handles do without.
- Enumerations that are left to the system, where there is no queue (`PassThroughUnmodifiedQuery`): the results about what is shown then speak of the one scan that the system delivers by itself, as if a queue over it delivered it.
- Advancing an enumeration while another thread replaces or closes it: `HandleProtocol` says which opening an enumeration is about, not what its queue does meanwhile.
- Timing of locks: each method of the handle store is one atomic step; lock implementation is not modelled.
- RuleContainers.EmplaceRule: works on a value rather than an ordered set object; the container is stored back into the tree by the caller.
- Short names: the system is taken to match a pattern against a file's name only, in the same way as the program does, and which drive roots list themselves and their parents is left open.
- DirectoryViews.ShownIfAndOnlyIfOpenable: says nothing about names of deeper origin directories, which `DeeperOriginAgreement` covers, and is about the filesystem as it is during enumeration, without the directories that opening may create first; the system is taken to refuse nothing but what is not there, a file where a directory should be, and a pattern that nothing matches.
- Agreement.HandleIsClassified: needs the handle to have been opened under the same rules, and takes drive-letter paths.
- NewFiles.NewFilesGoToTheTarget: supposes that the pre-operation succeeds, and that the system does not refuse the new file.
- NameInsertionQueues.InsertionStreamMeaning: assumes that answers do not change between queries; the queue itself is proved for changing answers.
- Names longer than the buffer for a single entry are cut off by `WriteFileName`; `ShownIfAndOnlyIfOpenable` requires that inserted names fit.
