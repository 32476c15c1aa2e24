# BitBake's core, modelled in Dafny

This project models the stateful heart of BitBake: the datastore behind every variable, the parallel
parser with the state machine that drives it, the caches, the dependency closure behind task hashes,
the small graph algorithms over tasks and layers, and the in-place ELF rewriting of the SDK relocation
script. Run `dafny verify dfyconfig.toml` to check all of it.

## How it is put together

Code that changes objects step by step is a class (or a method with loops) in the same shape; each of its
methods is tied by its contract to a specification function, and the laws are lemmas about those functions.

| files | what they model |
|---|---|
| `OverrideScan`, `OverrideOrder`, `OverrideChoice`, `OverrideNames` | picking the variant of a variable by OVERRIDES: the string rewriting loop, the same on lists of segments, and the theorems about the winner |
| `Text`, `Words` | the string operations used: split, join, replace, words and whitespace |
| `Expansion`, `EvalSteps`, `ThoroughReads`, `OverrideRounds` | what reading a variable means under given overrides; OVERRIDES as a fixed point; what a read depends on |
| `StoreOps`, `StoreLaws`, `StoreRuns` | what each write does to the contents of a store; reading back; what writes touch and keep; runs of writes |
| `ConditionalEdits`, `ReadBack`, `DeepVariants` | reading back operators with conditions, weak defaults, references, and variants of any number of segments |
| `StoreRename`, `RenameVariants`, `StoreKeys` | renaming a variable together with its variants; the keys of a store |
| `CacheFacts`, `DataStore` | the datastore on the heap: dictionaries linked through "_data", lists held by reference, the overrides in force and the expansion cache with the sets of removes that its entries share |
| `StoreCommands`, `WatchedOverrides` | commands one after another, and when they are safe for the cache; how a write of OVERRIDES makes it so |
| `SharedVariants`, `StaleReads` | variables with one variant; runs after which a read is wrong |
| `CopyOnWrite` | the copy-on-write dictionary that keeps the history of variables |
| `ParsePipeline`, `Cooker` | parser processes, queue and consumer; commands and states of the cooker; every interleaving |
| `SiggenStream`, `VirtualNames`, `RecipeCache`, `MultiProcessCache` | the caches |
| `Dependencies`, `TaskChains`, `LayerPriority`, `FifoMessages` | dependency closure and hash text, tasks between two tasks, layer priorities, message framing |
| `Relocation`, `ElfLayout` | rewriting interpreter, loader cache, gcc prefixes and library directories of an ELF file; the layout of its headers |

Conventions. Strings are sequences of characters, also where the program works on bytes; the relocation
works on bytes. Python dictionaries and sets whose order does not matter are maps and sets, and loops over
them take elements in any order; where the order is visible (`active` in the override scan, cache files) it
is kept. Recursion that the program bounds only by its stack takes a depth. Reading is defined by "some depth
finishes with this result" (`Reads`, `Settles`), so the bound takes nothing away from what is said about
results; that a read goes through is said for overrides in force and a depth at which every text on its way
expands (`Thorough`), also those that a cached value would spare it. The parser pipeline and the multi-process
cache are runs of atomic steps in any order; a step is what happens between two points at which another
process can interfere.

In a cached value, `Parsed` keeps apart the removes that took effect in it (`own`) and those that variables
added later, of which it is the variant (`lent`); the program has the union of them in one set. `Coherent`
says that every cached entry, without what was lent, is what a read from scratch gives under the overrides in
force, and that these are the ones that OVERRIDES settles on.

## Where the code does less than one might expect

Each of these is stated as a lemma with the input, or shows up as the exact hypothesis of a theorem.

- The override scan cuts suffixes with `str.replace`, so an override in which a later segment is a prefix of
  an earlier one breaks it (`PrefixSegmentIsLost`); `Text.StripsLastSegment` says exactly when the cut is right.
- Reading a variable adds its active `:remove` texts to the set of the cached value of its variant. Another
  variable with the same variant then loses those words too, and what a read gives depends on what was read
  before (`RemoveOfAnother`). `SharedVariants.Harmless` is the exact condition for any number of reads without
  references (`ReadInTurn`). Coherence over whole runs of commands (`DataSmart.Run`) is proved for reads of
  stores with `RemovesAgree`: no variant that can have removes is recorded under two names with different
  `:remove` operations.
- `delVar` never lets the overrides settle again (`DelLeavesOverridesStale`), and neither does writing a
  variant of a watched variable (`VariantOfWatchedIsMissed`). `StoreCommands.IsSafe` says when a write keeps
  cache and overrides right; where whatever settling touches is watched, it is enough that the write touches
  nothing watched (`QuietIsSafe`).
- A plain `setVar` of a variable with recorded variants makes overrides that are not in force settle before
  the content is written (`Stale`). If OVERRIDES depends on the variable, what it settled on and what it has
  cached are out of date afterwards (`WriteBehindOverrides`); `StaleIsSafe` is the condition under which both
  are right.
- `renameVar` drops every flag but the value and the operators (`RenameVariants.Kept`), and renames variants
  with `str.replace`, which also changes an override that contains the old name (`RenameMixesNames`).
- When OVERRIDES does not settle in five rounds, or a read inside fails, overrides and cache are left as they
  stand; nothing is stated about the store after that.
- A name without a colon is recorded under itself less its last character, as if it were a variant, when an
  operator is applied to it (`ShortNamesCollide`; `OrderFreeIff` says for which variables that matters).
- A KeyboardInterrupt inside the wait of the parser makes the next command take the parse for finished
  (`InterruptLosesRecipes`; `RunningMeansParsed` says that nothing else does).
- "Not all recipes parsed" does not need a result that was lost. A recipe that fails shuts the parser down, but
  the next command goes on with that parser and gets this report when no process is left
  (`FailedIsNotAllParsed`); so it does when a shutdown drained results (`DrainedIsNotAllParsed`).
  `NotAllParsedAddsUp` says exactly when something was lost.
- A variant name with an empty piece after the multiconfig loses its class (`EmptyPieceIsDropped`).
- `save_merge` does not read the cache file again, so of two merging processes one can undo the other
  (`UpdateIsLost`); `MergeKeepsDiskIff` has the exact condition.
- The size of `.sysdirs` is not checked (`DirsThatDoNotFit`), and `.sysdirs` without `.sysdirslen` ends in an
  exception, because another variable was initialised (the failure `NoLengths`).
- In `COW.py` a deleted key hides every later list (`CowDict.SetList`).

## Model

| member | source | states |
|---|---|---|
| `OverrideScan.Choose` | poky/bitbake/lib/bb/data_smart.py:791-819 | The imperative selection, dictionary copies and string rewriting included, returns exactly the winner of the specification `Chosen`; it terminates on every input. |
| `OverrideScan.WalkOverrides` | poky/bitbake/lib/bb/data_smart.py:802-814 | The `while mod` loop ends, because the weight of the keys of `active` falls whenever something was rewritten, and computes `Walk`. |
| `OverrideScan.StripSegment` | poky/bitbake/lib/bb/data_smart.py:805-814 | One walk over a copy of `active` for one element of OVERRIDES: suffixes are cut with `str.replace`, exact matches win and go. |
| `OverrideOrder.WalkSteps` | poky/bitbake/lib/bb/data_smart.py:802-814 | Invariant of the walk on segments: every key still active is what is left of a recorded override at this time, and among overrides with the same rest the leader is kept. |
| `OverrideOrder.BeatsIsAsymmetric` | poky/bitbake/lib/bb/data_smart.py:802-814 | The preference between two overrides, by the times at which their segments are consumed, is strict. |
| `OverrideOrder.WinnerIsUnique` | poky/bitbake/lib/bb/data_smart.py:802-814 | At most one recorded override beats all others. |
| `OverrideOrder.SingleSegmentOrder` | poky/bitbake/lib/bb/data_smart.py:802-814 | Between single segments the preference is by first occurrence in OVERRIDES: the later one wins. |
| `OverrideChoice.ChosenIsWinner` | poky/bitbake/lib/bb/data_smart.py:789-821 | A variant is found exactly when some recorded override lies wholly in OVERRIDES, and then it is the unique one that beats all others. |
| `OverrideChoice.OrderDoesNotMatter` | poky/bitbake/lib/bb/data_smart.py:789-821 | The variant found does not depend on the order in which overrides were recorded. |
| `OverrideChoice.RightmostWins` | poky/bitbake/lib/bb/data_smart.py:789-821 | With single-segment overrides the one whose first occurrence in OVERRIDES is rightmost wins. |
| `OverrideChoice.PrefixSegmentIsLost` | poky/bitbake/lib/bb/data_smart.py:810-813 | Counterexample without the clean-segment hypothesis: `a:ox:o` lies wholly in OVERRIDES, but `str.replace` cuts into `:ox` and nothing is chosen. |
| `OverrideChoice.StripIsDropLast` | poky/bitbake/lib/bb/data_smart.py:808-812 | For clean overrides, cutting with `str.replace` drops exactly the last segment. |
| `OverrideChoice.ScanAllKeys` | poky/bitbake/lib/bb/data_smart.py:805-814 | The walk over the string dictionary refines the step on segment lists, in whatever order the keys are visited. |
| `Text.StripsLastSegment` | poky/bitbake/lib/bb/data_smart.py:811 | `str.replace` of a final pattern drops just that suffix if and only if the pattern does not occur earlier. |
| `Words.DropIsExact` | poky/bitbake/lib/bb/data_smart.py:875-891 | Removing words keeps every other word, in order, and every whitespace character, in order. |
| `Words.DropNothing` | poky/bitbake/lib/bb/data_smart.py:875-891 | A text without the named words comes back unchanged. |
| `Words.DropWords` | poky/bitbake/lib/bb/data_smart.py:880-891 | The loop over the pieces of the whitespace split computes `Drop`. |
| `Expansion.EvalMono` | poky/bitbake/lib/bb/data_smart.py:771-901 | A read that finishes at some recursion depth has the same result at every greater depth. |
| `Expansion.ReadsIsFunctional` | poky/bitbake/lib/bb/data_smart.py:771-901 | Under fixed overrides a variable reads as one value only. |
| `OverrideRounds.SettlesIsFunctional` | poky/bitbake/lib/bb/data_smart.py:488-510 | OVERRIDES settles on one list at most. |
| `OverrideRounds.SettledIsFixedPoint` | poky/bitbake/lib/bb/data_smart.py:488-510 | The list that it settles on is the value of OVERRIDES read under that very list. |
| `OverrideRounds.RoundsStay` | poky/bitbake/lib/bb/data_smart.py:488-510 | Once two successive rounds are equal, all later rounds are. |
| `OverrideRounds.EvalFrame` | poky/bitbake/lib/bb/data_smart.py:771-901 | A read depends only on the flags and recorded overrides of the variables that it touches. |
| `OverrideRounds.SettlesFrame` | poky/bitbake/lib/bb/data_smart.py:488-510 | A change to variables that settling does not touch leaves the settled overrides settled. |
| `OverrideRounds.SettlesWithinStays` | poky/bitbake/lib/bb/data_smart.py:488-510 | After such a change settling touches the same variables as before. |
| `OverrideRounds.SettlesWithinFive` | poky/bitbake/lib/bb/data_smart.py:488-510 | OVERRIDES settles on a list if and only if one of the rounds one to five gives it and the next round gives it again. |
| `EvalSteps.ReadAll` | poky/bitbake/lib/bb/data_smart.py:786-901 | A read is put together from the variant, the operators, the expansion and the removed words, whatever depth each of them took. |
| `EvalSteps.ExpandOnce` | poky/bitbake/lib/bb/data_smart.py:451-483 | One substitution that changes the text, followed by an expansion, is an expansion. |
| `ThoroughReads.ThoroughIsOk` | poky/bitbake/lib/bb/data_smart.py:771-901 | If every text that a read could expand, whatever is in the cache, expands at some depth, the read finishes at that depth. |
| `ThoroughReads.TouchedIsRead` | poky/bitbake/lib/bb/data_smart.py:771-901 | Every variable that such a read touches, directly or on the way, can be read itself, and touches no more than that. |
| `OverrideNames.ChosenIsRecorded` | poky/bitbake/lib/bb/data_smart.py:789-821 | What the scan finds is the name of one of the recorded overrides. |
| `StoreOps.ShadowIsInvisible` | poky/bitbake/lib/bb/data_smart.py:528-537 | A shadow copy of the flags changes nothing that is written later. |
| `StoreOps.FlagReadsBack` | poky/bitbake/lib/bb/data_smart.py:740-757 | An ordinary flag holds the text written, and all other flags, variables and records are as before. |
| `StoreLaws.SetReadsBack` | poky/bitbake/lib/bb/data_smart.py:542-623 | After a plain `setVar(v, x)` the unexpanded value of `v` is x, whatever operators, variants and overrides there were or will be. |
| `StoreLaws.EditsReadBack` | poky/bitbake/lib/bb/data_smart.py:703-711 | After that, appends a1..an and prepends p1..pm in any interleaving read as pm..p1 x a1..an, under any overrides. |
| `StoreLaws.RemovesTakeEffect` | poky/bitbake/lib/bb/data_smart.py:863-893 | A read drops exactly the words named by the removes in effect, its own active ones and those handed on by the variant, each expanded, and keeps all other words and all whitespace of the expanded value in order. |
| `StoreLaws.RemovesReadBack` | poky/bitbake/lib/bb/data_smart.py:863-893 | In particular, for a value that was written and built up without references, the words are those that the active removes name literally. |
| `StoreLaws.RemoveBuilds` | poky/bitbake/lib/bb/data_smart.py:567-591 | A `:remove` adds its text to the removes of the variable and leaves the unexpanded value that was built up as it is. |
| `StoreLaws.OperatorIsParsed` | poky/bitbake/lib/bb/data_smart.py:33 | `v:append` and the like name the operator for `v` whenever `v` itself holds none. |
| `StoreLaws.SetTouchesOnly` | poky/bitbake/lib/bb/data_smart.py:542-656 | `setVar` changes flags and recorded overrides of the named variable, of its colon prefixes, and of the deleted variants with theirs; of nothing else. |
| `StoreLaws.DelTouchesOnly` | poky/bitbake/lib/bb/data_smart.py:713-738 | `delVar` changes the variable and its colon prefixes only. |
| `StoreLaws.StillSettles` | poky/bitbake/lib/bb/data_smart.py:488-510 | Overrides stay settled over a write that settling does not look at. |
| `StoreLaws.DelLeavesOverridesStale` | poky/bitbake/lib/bb/data_smart.py:713-738 | `delVar` never makes the overrides settle again: after deleting OVERRIDES the ones in force are wrong. |
| `StoreLaws.VariantOfWatchedIsMissed` | poky/bitbake/lib/bb/data_smart.py:622-638 | Nor does writing a variant of a watched variable: with OVERRIDES = foo, writing `OVERRIDES:foo` leaves overrides in force that are no fixed point. |
| `StoreLaws.EntryFromBeforeIsStale` | poky/bitbake/lib/bb/data_smart.py:599-619 | Any entry that holds another unexpanded value than the one written is wrong after a plain write of its variable. |
| `ConditionalEdits.ConditionalsReadBack` | poky/bitbake/lib/bb/data_smart.py:832-856 | After a plain write of x and any edits written as `v:append:a:b` and the like, the variable reads as x with the texts of just those appends and prepends around it all of whose segments are in the overrides. |
| `ConditionalEdits.ConditionalRemovesReadBack` | poky/bitbake/lib/bb/data_smart.py:863-893 | And the words gone are those of just those removes all of whose segments are in the overrides, for texts without references. |
| `ConditionalEdits.UpperCaseIsNoCondition` | poky/bitbake/lib/bb/data_smart.py:33 | What follows `v:append:` is a condition if and only if there is no upper-case letter in it. |
| `DeepVariants.DeepVariantReadsBack` | poky/bitbake/lib/bb/data_smart.py:542-656 | After `setVar("k:a:b", x)` each of `k` and `k:a`, without operators or other variants before, reads as x if all the segments behind it are in force and as its own value if not; for any number of clean segments, unexpanded, and expanded if there are no references. |
| `DeepVariants.EveryPrefixRecords` | poky/bitbake/lib/bb/data_smart.py:640-656 | The name is recorded under each of its prefixes for the rest of its segments, and nowhere else. |
| `DeepVariants.RecordedOnce` | poky/bitbake/lib/bb/data_smart.py:640-656 | Recording it again changes nothing. |
| `DeepVariants.DeletedDeepIsForgotten` | poky/bitbake/lib/bb/data_smart.py:713-738 | Deleting it after the write leaves no record of it under any prefix, and their values as they were. |
| `ReadBack.ActiveVariantsGo` | poky/bitbake/lib/bb/data_smart.py:599-623 | A plain write of a variable removes exactly those of its variants all of whose segments are in the overrides that decide, keeps the flags of every other variable, and leaves the variable with the text and without operators and records. |
| `ReadBack.WeakReadsBack` | poky/bitbake/lib/bb/data_smart.py:823-827 | A weak default is read exactly as long as there is no content. |
| `ReadBack.WeakVariantReadsBack` | poky/bitbake/lib/bb/data_smart.py:740-762 | The weak default of `k:o` makes a variant of `k` as a value does. |
| `ReadBack.ReferenceReadsBack` | poky/bitbake/lib/bb/data_smart.py:108-118 | A value with one reference in it reads as the text around it with the value of the other variable put in. |
| `ReadBack.NestedReferenceReadsBack` | poky/bitbake/lib/bb/data_smart.py:451-483 | In `${${k}}` the inner reference is replaced first, and what it reads as is the name for the outer one. |
| `ReadBack.SelfReferenceFails` | poky/bitbake/lib/bb/data_smart.py:108-113 | A variable that refers to itself cannot be read at any depth. |
| `StoreRuns.RunKeepsRecorded` | poky/bitbake/lib/bb/data_smart.py:640-701 | Over every run of writes, deletions and renames, each recorded override is `k:cond` under `k`, or a name without colon under itself less one character; renames only while the names of the variants follow. |
| `StoreRuns.RenameKeeps` | poky/bitbake/lib/bb/data_smart.py:661-701 | A rename keeps this form if `str.replace` gives each variant, and each variant of a variant, the name of a variant of the new name for the same override. |
| `StoreRuns.RenameMixesNames` | poky/bitbake/lib/bb/data_smart.py:688-692 | Without that it does not: renaming `a`, with the variant `a:a`, to `B` records `B:B` for the override `a`, and between it and a later `B:a` the recording order decides. |
| `StoreRuns.OrderFreeIff` | poky/bitbake/lib/bb/data_smart.py:640-656 | In all reachable stores the variant that a read of `v` picks is free of the recording order, if and only if `v` is not a name without colon that is empty or starts in lower case or with a digit (and does not contain the old operator syntax, which no write accepts). |
| `StoreRuns.OthersAreOrderFree` | poky/bitbake/lib/bb/data_smart.py:640-656 | The one half: for the other names any reordering of the records of a reachable store picks the same. |
| `StoreRuns.ShortNamesCollide` | poky/bitbake/lib/bb/data_smart.py:585 | The other half, for every such `v`: an operator on `vx` records `vx` under `v`, where it competes with the variant `v:vx`, and of the two the later one is picked. |
| `StoreRename.RenameMoves` | poky/bitbake/lib/bb/data_smart.py:661-701 | Renaming a variable without variants to an unused name: the new name reads, unexpanded and under any overrides, exactly as the old one did, and the old name is gone. |
| `StoreRename.RenameMerges` | poky/bitbake/lib/bb/data_smart.py:661-701 | Renaming to a name in use, both without variants: the value of the old name, if there is one, takes the place of that of the new one; the operators of the new name apply to it first and those of the old name after them; and the old name is gone. |
| `StoreRename.RenameTouchesOnly` | poky/bitbake/lib/bb/data_smart.py:661-701 | `renameVar` changes flags and recorded overrides of the two names, of their colon prefixes, and of the variants with theirs; of nothing else. |
| `StoreRename.RenameAlike` | poky/bitbake/lib/bb/data_smart.py:661-701 | What renaming makes of a store, errors included, depends only on what can be read from it. |
| `RenameVariants.VariantsFollow` | poky/bitbake/lib/bb/data_smart.py:688-692 | The recursion over the recorded variants: all of them follow in their order with value and operators, the old names are gone, and every other name keeps flags and records. For variants of one segment whose new names are free and in which the old name occurs only as prefix. |
| `RenameVariants.SameOverrideWins` | poky/bitbake/lib/bb/data_smart.py:791-815 | The scan that picks the variant does not look at names: before and after the renaming the same override wins. |
| `RenameVariants.RenameKeepsValue` | poky/bitbake/lib/bb/data_smart.py:661-701 | Hence under any overrides the new name has the unexpanded value that the old one had, whichever variant is active. |
| `StoreKeys.OnlyKeysRead` | poky/bitbake/lib/bb/data_smart.py:1026-1061 | A name that iteration does not list reads as nothing. |
| `StoreKeys.WritesMakeKeys` | poky/bitbake/lib/bb/data_smart.py:1026-1061 | Writing makes a name a key and deleting unmakes it, under any overrides. |
| `DataStore.VarDict.KeyList` | poky/bitbake/lib/bb/data_smart.py:1029-1045 | The walk up the chain with its set of deleted names finds exactly the names whose nearest entry is not empty. |
| `DataStore.VarDict.FindVar` | poky/bitbake/lib/bb/data_smart.py:517-526 | The loop along "_data" finds the flags in the nearest dictionary of the chain. |
| `DataStore.DataSmart.NeedOverrides` | poky/bitbake/lib/bb/data_smart.py:488-510 | Within five rounds it fails, or leaves in force the list that OVERRIDES settles on, with every remaining cache entry read under it, of variables that this read touches. It does not fail if some round up to the fifth is stable and every text read expands within the depth. |
| `DataStore.DataSmart.OverrideRound` | poky/bitbake/lib/bb/data_smart.py:495-507 | One iteration: from round k to round k + 1, or stable with a right cache. |
| `DataStore.DataSmart.TakeOverrides` | poky/bitbake/lib/bb/data_smart.py:496-503 | The dummy overrides, the first read of an iteration and the cache reset. |
| `DataStore.DataSmart.GetEntry` | poky/bitbake/lib/bb/data_smart.py:771-901 | Through cache, overrides and recursion: if the cache is right and the removes agree, the entry returned and cached is what a read from scratch gives under the overrides in force, and with overrides in force the read goes through whenever every text on its way expands within the depth. In any case the entry is put together from what the cache holds for the chosen variant, with all the removes that were added to it. |
| `DataStore.DataSmart.GetVariant` | poky/bitbake/lib/bb/data_smart.py:787-821 | The variant that takes the place of the variable, read recursively, and whether its parsed value has a set of removes that the variable will add to. |
| `DataStore.DataSmart.RawValue` | poky/bitbake/lib/bb/data_smart.py:823-856 | Content or weak default under active appends and prepends, for every list that the overrides can still turn out to be. |
| `DataStore.DataSmart.ExpandText` | poky/bitbake/lib/bb/data_smart.py:451-483 | The substitution loop reaches the expansion of the text and collects the variables referred to, those among them that stand in the text. |
| `DataStore.DataSmart.SubRefs` | poky/bitbake/lib/bb/data_smart.py:108-118 | One pass of the substitution, with the self-reference error; the variables referred to are just those that stand in the text. |
| `DataStore.DataSmart.GetWords` | poky/bitbake/lib/bb/data_smart.py:863-880 | The words of active `:remove` operations and of those handed on by the variant, each text expanded. |
| `DataStore.DataSmart.LendActive` | poky/bitbake/lib/bb/data_smart.py:863-872 | `removes.add(r)` writes into the cached parsed value of the variant: exactly the active texts of the variable are added there, and nothing else in the cache changes. |
| `DataStore.DataSmart.SplitRemoves` | poky/bitbake/lib/bb/data_smart.py:876-880 | The loop over the removes, one expansion each; when such an expansion adds to the set that the loop walks over, it fails. |
| `DataStore.DataSmart.WithoutRemoved` | poky/bitbake/lib/bb/data_smart.py:863-896 | The value without the removed words, put together with all the removes that the variant carries by then; right if the cache was and the removes agree. |
| `DataStore.DataSmart.Compute` | poky/bitbake/lib/bb/data_smart.py:823-896 | The new entry from its parts, and what computing it adds to the cache. |
| `DataStore.DataSmart.GetVar` | poky/bitbake/lib/bb/data_smart.py:658-659 | In a coherent store whose removes agree, `getVar` gives the value of a read from scratch, from the cache or not, and leaves the store coherent; with overrides in force it goes through whenever every text on its way expands within the depth. |
| `DataStore.DataSmart.GetRaw` | poky/bitbake/lib/bb/data_smart.py:771-861 | `getVar` with expand=False: operators applied, nothing expanded, nothing cached for the variable; the active removes go into the set of the variant all the same. |
| `CacheFacts.RightEntriesAgree` | poky/bitbake/lib/bb/data_smart.py:771-901 | Two right entries for a variable are equal: a cached entry is what a fresh copy with an empty cache computes. |
| `DataStore.DataSmart.SetVar` | poky/bitbake/lib/bb/data_smart.py:542-623 | The new contents for every branch (old syntax, operator, plain, parsing); what it does to cache and overrides; which overrides decided about the variants it deletes. After a write of a watched variable the references in the value are watched. |
| `DataStore.DataSmart.Set` | poky/bitbake/lib/bb/data_smart.py:542-623 | `setVar` keeps cache and overrides coherent as long as settling, done before or inside the call, does not look at what the call still writes. When the overrides settle inside it, the removes have to agree, and unless a variant is deleted every text that settling reads has to expand. It goes through if the overrides are in force or settle, or nothing asks for them. |
| `DataStore.DataSmart.ClearVariants` | poky/bitbake/lib/bb/data_smart.py:601-614 | The variants that a plain write deletes are those active under the overrides in force, which settle first if needed; the cache is empty then if there was one, and otherwise holds what settling has read. |
| `DataStore.DataSmart.UpdateOverrides` | poky/bitbake/lib/bb/data_smart.py:640-656 | The loop over the colons records the name under each of its prefixes, and writes to no list that existed before. |
| `DataStore.DataSmart.UpdateOverrideVars` | poky/bitbake/lib/bb/data_smart.py:625-638 | After a write of a watched variable the overrides have to settle again and the cache is empty. Every name that stands as a reference in the value is watched then; and with overrides in force and a right cache the names watched are exactly those from before, those that expanding the value refers to, and those that expanding these in turn refers to. |
| `DataStore.DataSmart.MakeShadowCopy` | poky/bitbake/lib/bb/data_smart.py:528-537 | The flags of the nearest ancestor appear in the own dictionary, with the same lists. |
| `DataStore.DataSmart.DelVar` | poky/bitbake/lib/bb/data_smart.py:713-738 | The new contents after `delVar`; recorded lists are replaced, not changed. |
| `DataStore.DataSmart.Delete` | poky/bitbake/lib/bb/data_smart.py:713-738 | `delVar` keeps coherence if settling does not look at what it deletes. |
| `DataStore.DataSmart.Edit` | poky/bitbake/lib/bb/data_smart.py:703-711 | `appendVar` and `prependVar` add one operator to the variable, as `:append` or `:prepend` writes do, and keep coherence under the same condition as `setVar`. |
| `DataStore.DataSmart.SetWeak` | poky/bitbake/lib/bb/data_smart.py:740-762 | `setVarFlag` of the weak default, with its effect on recorded overrides and, when the variable is watched, the references of the value watched as well. |
| `DataStore.DataSmart.SetFlag` | poky/bitbake/lib/bb/data_smart.py:740-757 | `setVarFlag` of an ordinary flag changes that flag of that variable only, on the own dictionary, and empties the cache. |
| `DataStore.DataSmart.RenameVar` | poky/bitbake/lib/bb/data_smart.py:661-701 | The loops and recursion of `renameVar` on the heap end in the renamed store of the specification, up to what can be read from it, with the same errors; overrides never come into force, and the cache is empty. |
| `DataStore.DataSmart.MoveVariants` | poky/bitbake/lib/bb/data_smart.py:688-692 | The loop over the recorded variants, which changes the lists that it walks, by way of the recursive calls. |
| `DataStore.DataSmart.Rename` | poky/bitbake/lib/bb/data_smart.py:661-701 | `renameVar` keeps coherence if settling does not look at what it touches. |
| `DataStore.DataSmart.Keys` | poky/bitbake/lib/bb/data_smart.py:1026-1061 | `__iter__` lists exactly the names with flags in the nearest dictionary that has them and the names with an active variant; so it lists all that can read as something. If the removes agree, it leaves the store coherent. |
| `DataStore.DataSmart.Execute` | poky/bitbake/lib/bb/data_smart.py:488-769 | What any command makes of the contents, and that it changes overrides in force and watched variables only with a write to a watched variable, after which the references of the value are watched. It keeps the store coherent, unless it fails or settling looks at what it touches; reads and iterations need removes that agree. |
| `DataStore.DataSmart.Run` | poky/bitbake/lib/bb/data_smart.py:488-769 | A store that was coherent is coherent after any sequence of commands that goes through, if each was safe in the situation in which it came; the trace of situations follows from the commands. |
| `DataStore.DataSmart.CreateCopy` | poky/bitbake/lib/bb/data_smart.py:983-1003 | A copy holds exactly what its parent holds, through the same lists, with no overrides in force and an empty cache. |
| `DataStore.RunOnCopies` | poky/bitbake/lib/bb/data_smart.py:983-1003 | No script of sets, appends, prepends, deletes, renames, flags, reads, iterations and copies on a copy, on copies of it and so on changes what the parent holds, nor any object that existed before. |
| `CacheFacts.LoansDoNoHarm` | poky/bitbake/lib/bb/data_smart.py:821-893 | If the removes agree, a variable finds in the shared set of its variant, with its own active texts, just the removes that it finds from scratch. |
| `CacheFacts.LoanIsHarmlessIff` | poky/bitbake/lib/bb/data_smart.py:863-872 | One addition to a shared set leaves the removes of another variable as they are if and only if that one, or the variant, has the added texts already. |
| `CacheFacts.StaleWriteIsRight` | poky/bitbake/lib/bb/data_smart.py:599-619 | A plain write inside which the overrides settle: what settling left in the cache is right after the write, if settling does not look at what is written; with an active variant the cache is empty. |
| `CacheFacts.CacheSurvives` | poky/bitbake/lib/bb/data_smart.py:488-510 | The entries that settling leaves are those of variables that it touches, so all of them stay right over a write of others. |
| `StoreCommands.QuietIsSafe` | poky/bitbake/lib/bb/data_smart.py:542-769 | Where whatever settling touches is watched, every command is safe that touches nothing watched, and so is every write of a watched variable. |
| `StoreCommands.QuietStaysCovered` | poky/bitbake/lib/bb/data_smart.py:542-769 | A command that touches nothing watched leaves it so that whatever settling touches is watched. |
| `StoreCommands.QuietRunIsSafe` | poky/bitbake/lib/bb/data_smart.py:542-769 | So with that at the start, a run of commands other than renames that never touches anything watched is safe throughout, and the overrides in force stay as they are. |
| `WatchedOverrides.DirectIsCovered` | poky/bitbake/lib/bb/data_smart.py:488-510 | When OVERRIDES refers only to variables without references and variants, and one substitution expands it, then settling touches just OVERRIDES and what stands in its value; so it is enough that these are watched. |
| `WatchedOverrides.WriteOverrides` | poky/bitbake/lib/bb/data_smart.py:542-638 | A write of OVERRIDES to a coherent store, after which something needs the overrides: OVERRIDES holds the value, and its references are watched; if the removes agree, the store is coherent with overrides in force; and if OVERRIDES refers only to variables as above, settling is covered by what is watched. |
| `SharedVariants.ReadInTurn` | poky/bitbake/lib/bb/data_smart.py:771-901 | Any number of variables with one variant, read one after another from an empty cache, all texts free of references: each loses the words that those before it remove; and the cache is right after that if and only if each text added before a variable is in the removes of that variable or of the variant, or names no word of it. |
| `SharedVariants.MoreTextsShow` | poky/bitbake/lib/bb/data_smart.py:875-891 | More texts to remove change a parsed value if and only if one of the new ones names a word of it. |
| `SharedVariants.ReadsFromScratch` | poky/bitbake/lib/bb/data_smart.py:787-893 | What the variant and the variables read as from scratch. |
| `SharedVariants.AgreeingIsHarmless` | poky/bitbake/lib/bb/data_smart.py:821-872 | If the removes agree, the condition holds for every such list of variables. |
| `StaleReads.RemoveOfAnother` | poky/bitbake/lib/bb/data_smart.py:821-872 | With OVERRIDES `b:c`, `A:b:c` = "y z" with a `:remove`, and `A:remove` = "y": after reads of the variant and of `A`, `A:b` is read as " z" instead of "y z". |
| `StaleReads.SharingIsReachable` | poky/bitbake/lib/bb/data_smart.py:542-623 | Four calls of `setVar` make such a store. |
| `StaleReads.WriteBehindOverrides` | poky/bitbake/lib/bb/data_smart.py:599-619 | A write of `V`, on which OVERRIDES depends through two references: the overrides settle inside it on the value from before, and stay in force and in the cache. |
| `CopyOnWrite.CowDict.GetMutable` | poky/bitbake/lib/bb/COW.py:60-80 | Asking for a list to change copies it into this class first; nothing shown changes. |
| `CopyOnWrite.CowDict.SetList` | poky/bitbake/lib/bb/COW.py:53-58 | Setting a list; a key that once held an immutable value or a deletion goes on hiding it. |
| `CopyOnWrite.CowDict.GetReadonly` | poky/bitbake/lib/bb/COW.py:82-104 | Lookup along the class chain, immutable values before lists, deletions as missing. |
| `CopyOnWrite.CowDict.Copy` | poky/bitbake/lib/bb/COW.py:44-48 | A fresh copy shows under every key what the original shows, and has no entries of its own. |
| `CopyOnWrite.CowDict.Record` | poky/bitbake/lib/bb/data_smart.py:265-286 | One more entry at the end of the history of one variable; all other histories stay. |
| `CopyOnWrite.CowDict.RenameHistory` | poky/bitbake/lib/bb/data_smart.py:286-294 | The history of one variable is added behind that of another, in a list of this class; all other keys keep theirs. |
| `CopyOnWrite.CowDict.ForgetHistory` | poky/bitbake/lib/bb/data_smart.py:399-405 | A new list, empty or without some entries, takes the place of the history of one variable. |
| `CopyOnWrite.OthersStay` | poky/bitbake/lib/bb/data_smart.py:399-405 | Forgetting a history keeps every other entry, in order. |
| `CopyOnWrite.RunOnCopies` | poky/bitbake/lib/bb/COW.py:44-107 | No script of records, deletions, renamed and forgotten histories on copies, and copies of copies, changes what the original shows. |
| `ParsePipeline.DealConserves` | poky/bitbake/lib/bb/cooker.py:2163-2165 | Dealing jobs out by `lst[i::n]` gives each job to exactly one process. |
| `ParsePipeline.Slice` | poky/bitbake/lib/bb/cooker.py:2163-2165 | The strided slice `willparse[i::n]` takes the elements at i, i + n, i + 2n and so on, in order. |
| `ParsePipeline.StepConserves` | poky/bitbake/lib/bb/cooker.py:2055-2081 | No step of a process or of the consumer loses or doubles a job without accounting for it. |
| `ParsePipeline.StepKeeps` | poky/bitbake/lib/bb/cooker.py:2255-2293 | The invariant of parser and processes over every step: removed processes have ended, ended ones hold nothing, counters match what was consumed, a shut down parser has no live process. |
| `ParsePipeline.RunConserves` | poky/bitbake/lib/bb/cooker.py:2055-2081 | In every run, jobs left, held, queued, consumed, drained and lost add up, as multisets, to the recipes to be parsed. |
| `ParsePipeline.CleanCompletion` | poky/bitbake/lib/bb/cooker.py:2255-2293 | Results exhausted without error: every recipe to be parsed was consumed exactly once, every cached recipe was loaded, and nothing is left anywhere. |
| `ParsePipeline.ReachableLoads` | poky/bitbake/lib/bb/cooker.py:2250-2253 | In every reachable state the recipes loaded from the cache and those still to come add up to those found in it, and once the generator is past them all were loaded. |
| `ParsePipeline.NotAllParsedAddsUp` | poky/bitbake/lib/bb/cooker.py:2255-2276 | Whenever "Not all recipes parsed" comes, after a shutdown or without one, nothing is under way any more: each recipe was consumed, as parsed or as failed, or drained by a shutdown, or lost with a process. Some were lost if and only if those consumed and drained are fewer than the recipes. |
| `ParsePipeline.NotAllParsedMeansLost` | poky/bitbake/lib/bb/cooker.py:2275-2276 | So, as long as the parser was not shut down, it comes only when exactly the missing results were lost with a process before they reached the queue. |
| `ParsePipeline.FailedIsNotAllParsed` | poky/bitbake/lib/bb/cooker.py:2175-2276 | A run in which nothing is lost: the only recipe fails to parse, which shuts the parser down, and the next call of `parse_next` that finds no process left gets this report. |
| `ParsePipeline.DrainedIsNotAllParsed` | poky/bitbake/lib/bb/cooker.py:2175-2276 | Another one: of two recipes that both parse, the shutdown at the end of a command drains the second. |
| `ParsePipeline.ReachableWaits` | poky/bitbake/lib/bb/cooker.py:2255-2293 | In every reachable state the consumer waits only while a result is missing, and a KeyboardInterrupt has hit only a consumer that waited. |
| `ParsePipeline.CookerParser.constructor` | poky/bitbake/lib/bb/cooker.py:2154-2173 | The parser as it starts: the jobs dealt out to the processes by strided slices, nothing parsed or queued, the cached recipes still to come. |
| `ParsePipeline.CookerParser.Turn` | poky/bitbake/lib/bb/cooker.py:2057-2077 | One iteration of the loop of a process that goes on: a pending result comes first, else the next job is parsed, and the result is handed on, or kept as pending when the queue is full. |
| `ParsePipeline.CookerParser.ParseNext` | poky/bitbake/lib/bb/cooker.py:2279-2331 | `parse_next` up to where it waits: cached recipes, the loop test, reaping, completion and errors. |
| `ParsePipeline.CookerParser.Generate` | poky/bitbake/lib/bb/cooker.py:2255-2276 | `parse_generator` from its loop test on: dead processes are reaped, and it ends, fails or waits for the queue exactly as the step function says. |
| `ParsePipeline.CookerParser.ParseGot` | poky/bitbake/lib/bb/cooker.py:2265-2360 | The rest of `parse_next`: timeout, a parsed recipe, or a failed one with shutdown. |
| `ParsePipeline.CookerParser.Shutdown` | poky/bitbake/lib/bb/cooker.py:2175-2232 | `shutdown` is done once: the queue is drained, every process ends, late results are left in the queue. |
| `CookerStates.StepKeeps` | poky/bitbake/lib/bb/cooker.py:1586-1652 | Every step of commands, updates, shutdown requests, reloads and processes keeps the invariant on the state of the cooker. |
| `CookerStates.RunningMeansParsed` | poky/bitbake/lib/bb/cooker.py:1586-1652 | Over every interleaving: in state `running` the results are exhausted with no error, and everything was parsed, exactly once, with all cached recipes loaded, if and only if no KeyboardInterrupt hit the wait; commands that need the cache were executed in `running` only. |
| `CookerStates.InterruptLosesRecipes` | poky/bitbake/lib/bb/command.py:109-142 | A run in which a KeyboardInterrupt ends the generator and the next command finds the cooker `running` with a recipe unparsed. |
| `CookerStates.RequestKeepsFromRunning` | poky/bitbake/lib/bb/cooker.py:1714-1723 | Over every run: after a shutdown request no command is executed and the cooker is not running, until the command under way is finished, a client disconnects or the configuration is reset. |
| `CookerStates.CachedCommandRuns` | poky/bitbake/lib/bb/cooker.py:1586-1652 | With every recipe in the cache, a command that needs the cache is executed in state running with all of them loaded, however many there are. |
| `CookerStates.CachedCommandRunsAgain` | poky/bitbake/lib/bb/cooker.py:1586-1615 | And the next such command is executed too, without a new parse. |
| `CookerStates.NewParserTakesAll` | poky/bitbake/lib/bb/cooker.py:1586-1640 | A new parse is for all recipes that the setup names, cached or not. |
| `CookerStates.BBCooker.RunCommand` | poky/bitbake/lib/bb/command.py:104-107 | An asynchronous command is accepted exactly when none is under way; it is registered then, and otherwise nothing changes. |
| `CookerStates.BBCooker.RunAsyncCommand` | poky/bitbake/lib/bb/command.py:109-142 | The idle function: error states shut down, commands that need the cache wait for `running`. |
| `CookerStates.BBCooker.UpdateRecipes` | poky/bitbake/lib/bb/cooker.py:1586-1633 | `updateCache`: reload, reuse of a valid parser, or a new one. |
| `CookerStates.BBCooker.FinishUpdate` | poky/bitbake/lib/bb/cooker.py:1635-1652 | The end of `updateCache`: more to do, an error, or `running`. |
| `CookerStates.BBCooker.FinishAsyncCommand` | poky/bitbake/lib/bb/command.py:144-152 | Finishing a command puts the cooker back into its initial state, shuts its parser down and forgets the command. |
| `CookerStates.BBCooker.RequestStop` | poky/bitbake/lib/bb/cooker.py:1714-1723 | A shutdown request at any time: the state becomes shutdown or forceshutdown and the parser is shut down. |
| `SiggenStream.RoundTrip` | poky/bitbake/lib/bb/cache.py:290-326 | Restoring a saved dictionary with the numbers known so far gives it back, None values included. |
| `SiggenStream.InfoRoundTrip` | poky/bitbake/lib/bb/cache.py:328-338 | From any numbered writer and a reader that knows what it wrote, restoring a saved object gives back its three tables, and the reader knows all that the writer has written then. |
| `SiggenStream.StreamDefinesFirst` | poky/bitbake/lib/bb/cache.py:290-304 | In a stream written from a reset on, every number referred to was defined earlier. |
| `SiggenStream.StepRestores` | poky/bitbake/lib/bb/cache.py:275-338 | Invariant of many writers and one reader: what is under way in each stream comes out as it went in. |
| `SiggenStream.StreamsRoundTrip` | poky/bitbake/lib/bb/cache.py:275-338 | For every interleaving of writers, writer resets and reads in order, each read gives exactly what was saved. |
| `SiggenStream.StreamSendsOnce` | poky/bitbake/lib/bb/cache.py:290-314 | In the stream of one writer no number is defined twice. |
| `SiggenStream.RestoreIff` | poky/bitbake/lib/bb/cache.py:290-338 | For any reader and writer: an object is read without an error if and only if the reader has something under each number that the object refers to, and as it was saved if and only if these are the right values. |
| `SiggenStream.ReaderResetLosesNumbers` | poky/bitbake/lib/bb/cache.py:282-287 | After a reset of the reader inside a stream, any objects that follow are read if and only if no value in them was sent before the reset; and then they are read as they were saved. |
| `SiggenStream.SiggenRecipeInfo.SaveDict` | poky/bitbake/lib/bb/cache.py:290-304 | The loop of `_save` writes the back-references and definitions of the specification and leaves the writer's map and counter as it does. |
| `SiggenStream.SiggenRecipeInfo.RestoreDict` | poky/bitbake/lib/bb/cache.py:307-326 | The loop of `_restore` gives back the table or the missing number, extends the map of this process as specified, and leaves the streams of other processes alone. |
| `SiggenStream.SiggenRecipeInfo.GetState` | poky/bitbake/lib/bb/cache.py:328-333 | Saving an object saves its three tables one after another through one map and counter. |
| `SiggenStream.SiggenRecipeInfo.SetState` | poky/bitbake/lib/bb/cache.py:335-338 | Restoring an object restores the three tables in the same order from the stream of its process, and touches no other stream. |
| `VirtualNames.RoundTrip` | poky/bitbake/lib/bb/cache.py:341-366 | Decoding undoes encoding if and only if the multiconfig has no colon, a file with a class has none, and a file without one does not look like a prefix. |
| `VirtualNames.EncodeIsInjective` | poky/bitbake/lib/bb/cache.py:358-366 | Two decodable names never share an encoding. |
| `VirtualNames.VariantIsEncoded` | poky/bitbake/lib/bb/cache.py:368-379 | `variant2virtual` and `realfn2virtual` agree on what a variant stands for if and only if it is a valid one. |
| `VirtualNames.VariantIsInjective` | poky/bitbake/lib/bb/cache.py:368-379 | Two variants of files never share a name. |
| `VirtualNames.EmptyPieceIsDropped` | poky/bitbake/lib/bb/cache.py:374-378 | Counterexample for other variants: the class after a second colon is dropped. |
| `RecipeCache.StepKeeps` | poky/bitbake/lib/bb/cache.py:555-713 | In every state a file marked clean has all its variants with one info per cache class. |
| `RecipeCache.CleanStaysLoadable` | poky/bitbake/lib/bb/cache.py:541-670 | Once a file is checked and clean, loading it gives all variants, complete and unchanged, in every state that checks, each with the disk as it is then, removals of other files and additions reach. |
| `RecipeCache.StepKeepsEntries` | poky/bitbake/lib/bb/cache.py:555-713 | No step on another file touches the entries of a clean file or of its variants. |
| `RecipeCache.CheckedIsClean` | poky/bitbake/lib/bb/cache.py:555-564 | A positive check of a file keeps the cache invariant and leaves the file both checked and clean. |
| `RecipeCache.ValidIff` | poky/bitbake/lib/bb/cache.py:566-658 | A file not yet checked gets a positive answer if and only if it is cached, its time stamp is not 0 and is the one kept, every dependency has the time stamp kept for it, every checksum file exists exactly when the entry says so, the appends are the same, and all variants are there whole; if one of the conditions on the disk fails, the entry is gone. Variants are marked together with their file. |
| `RecipeCache.OtherVersionEnds` | poky/bitbake/lib/bb/cache.py:465-495 | A cache file of another version is not loaded, and neither is any behind it. |
| `RecipeCache.LoadFindsGrouped` | poky/bitbake/lib/bb/cache.py:465-513 | Loading what `sync` wrote finds under each key the infos grouped class by class, and no other keys. |
| `RecipeCache.FilesRoundTrip` | poky/bitbake/lib/bb/cache.py:465-513 | With one info per class in order, `sync` and `load_cachefile` rebuild the cache entry for entry. |
| `RecipeCache.Cache.CacheValid` | poky/bitbake/lib/bb/cache.py:555-564 | The fast check does the thorough one only for a file not yet checked, and answers from `clean` otherwise. |
| `RecipeCache.Cache.CacheValidUpdate` | poky/bitbake/lib/bb/cache.py:566-658 | The thorough check: state and answer after testing time stamps, dependencies, checksum files, appends and variants, with stale entries and virtual names removed. |
| `RecipeCache.Cache.IsCurrent` | poky/bitbake/lib/bb/cache.py:578-627 | A cached file is current exactly when its time stamp, its dependencies, its checksum files and its appends all are what they were. |
| `RecipeCache.Cache.MarkVariants` | poky/bitbake/lib/bb/cache.py:629-658 | The variants are marked clean together with their file if all of them have whole info arrays, and all are unmarked otherwise. |
| `RecipeCache.Cache.LoadCached` | poky/bitbake/lib/bb/cache.py:541-553 | `loadCached` returns the info arrays of the file and of all its variants in order, or the key that is missing. |
| `RecipeCache.Cache.LoadCachefile` | poky/bitbake/lib/bb/cache.py:465-513 | Loading goes through the files class by class, up to one of another version, and appends each info under its key. |
| `RecipeCache.Sync` | poky/bitbake/lib/bb/cache.py:672-694 | `sync` writes one file per class, with both versions in front and then each key with its info of that class. |
| `MultiProcessCache.StepKeeps` | poky/bitbake/lib/bb/cache.py:869-936 | The invariant on locks, files and saved keys over every step of savers, crashes and mergers. |
| `MultiProcessCache.RunsAreSafe` | poky/bitbake/lib/bb/cache.py:869-936 | With any number of processes that load, save, crash, merge and end, no two write the same file and no file that is there is opened for writing. |
| `MultiProcessCache.MergeKeepsDiskIff` | poky/bitbake/lib/bb/cache.py:903-936 | A merge leaves in the cache file all that was there and in valid extras files, if and only if each key of the cache file is in the memory of the merging process or in an extras file, or nothing is there to merge. |
| `MultiProcessCache.SavingWaitsForNobody` | poky/bitbake/lib/bb/cache.py:869-893 | Whatever locks others hold and whatever files there are, a process that saves gets to the end by steps of its own, and its data is in the first free file from where it starts to look. |
| `MultiProcessCache.SavedKept` | poky/bitbake/lib/bb/cache.py:869-936 | Everything ever saved is in a valid extras file or in the cache file, over every step but a merge that does not cover the cache file. |
| `MultiProcessCache.RunsLoseNothing` | poky/bitbake/lib/bb/cache.py:869-936 | So a run in which every merge covers the cache file loses nothing. |
| `MultiProcessCache.OneMergerCovers` | poky/bitbake/lib/bb/cache.py:903-936 | If one process only merges, and has all of the cache file in memory at the start, every merge of the run covers it. |
| `MultiProcessCache.UpdateIsLost` | poky/bitbake/lib/bb/cache.py:903-936 | With two merging processes an update is lost: both load before either merges, and the second writes over what the first merged, for any two keys. |
| `MultiProcessCache.MergeTakesAll` | poky/bitbake/lib/bb/cache.py:903-936 | After a merge every key of every valid file is cached, cached keys keep their value, every other value comes from such a file, and no file is left. |
| `MultiProcessCache.OthersGiveNothing` | poky/bitbake/lib/bb/cache.py:912-934 | Extras files of another version or that cannot be read change neither the cache nor the cache file, and are removed all the same. |
| `MultiProcessCache.Cache.Merge` | poky/bitbake/lib/bb/cache.py:897-901 | `merge_data` adds the keys that are missing and keeps the values of those that are there, class by class. |
| `MultiProcessCache.Cache.SaveMerge` | poky/bitbake/lib/bb/cache.py:903-936 | Under the exclusive lock `save_merge` merges every valid extras file of the current version, in whatever order they are listed, deletes all of them, and writes the cache file if there was one to merge. |
| `Dependencies.GenerateDependencies` | poky/bitbake/lib/bb/data.py:375-405 | The worklist ends on every finite graph, looks up exactly the tasks and all that they reach, and leaves no reference that a later lookup would miss. |
| `Dependencies.FollowTask` | poky/bitbake/lib/bb/data.py:390-404 | One task: `seen` is exactly what it reaches by one or more references. |
| `Dependencies.GenerateDependencyHash` | poky/bitbake/lib/bb/data.py:407-440 | `taskdeps` of each task is exactly its closure, and what is hashed is its value, then the sorted closure with values. |
| `Dependencies.HashDependsOnClosure` | poky/bitbake/lib/bb/data.py:410-438 | What is hashed for a task depends only on its own node and on the nodes in its closure, in whatever order sets are walked over. |
| `Dependencies.HashTellsValues` | poky/bitbake/lib/bb/data.py:412-435 | The other direction: if two graphs give a task the same closure and agree on all values in it and its own except for one, the hashed texts are different. |
| `Dependencies.ListTellsNames` | poky/bitbake/lib/bb/data.py:430-435 | Nor does the hashed text stay the same when one name in the list is exchanged for another with the same value. |
| `Dependencies.LessIsLexicographic` | poky/bitbake/lib/bb/data.py:430 | The order in which the names are sorted is that of Python strings: the first difference decides, and a prefix comes first. |
| `Dependencies.SortedIsUnique` | poky/bitbake/lib/bb/data.py:431 | A set of names has only one sorted list, so iteration order cannot reach the hashed text. |
| `Dependencies.SameClosure` | poky/bitbake/lib/bb/data.py:419-429 | Graphs that agree on what a task reaches give it the same closure. |
| `TaskChains.FindTasksBetween` | poky/bitbake/lib/bb/build.py:996-1023 | It ends; the result has no duplicates and holds exactly the tasks on ways from start to end that stop at the first end; a failure is a real cycle or a task without dependencies flag. |
| `TaskChains.TasksBetween.FollowChain` | poky/bitbake/lib/bb/build.py:1004-1021 | The depth-first walk restores its chain and adds exactly the chain and what lies on the way, if that arrives. |
| `TaskChains.ResultIsBetween` | poky/bitbake/lib/bb/build.py:996-1023 | On acyclic dependencies with distinct ends these are exactly the tasks on some dependency path between the two. |
| `TaskChains.NoCycleReported` | poky/bitbake/lib/bb/build.py:1007-1008 | On acyclic dependencies no cycle is reported. |
| `TaskChains.ReportedCycleIsReal` | poky/bitbake/lib/bb/build.py:1007-1008 | A reported cycle is one through at least two tasks, reachable from the start. |
| `LayerPriority.LayerCollection.CalcLayerPriority` | poky/bitbake/lib/bb/cooker.py:1209-1219 | The memoised recursion ends, keeps what has been computed, and computes the final priority of the layer. |
| `LayerPriority.LayerCollection.CalcAll` | poky/bitbake/lib/bb/cooker.py:1131-1147 | Explicit priorities are kept and every other layer gets 1 + the greatest of the smallest explicit priority and its dependencies. |
| `LayerPriority.LayerCollection.ReadPriorities` | poky/bitbake/lib/bb/cooker.py:1131-1147 | The first loop reads the explicit priorities of all layers and their running minimum, which starts at 0 and counts 0 as not set. |
| `LayerPriority.MinPrioIsLeast` | poky/bitbake/lib/bb/cooker.py:1142-1143 | The running minimum is the least explicit priority, or 0 without any. |
| `LayerPriority.PrioritiesAreUnique` | poky/bitbake/lib/bb/cooker.py:1209-1219 | On an acyclic layer graph the priorities are determined by that equation. |
| `LayerPriority.OrderDoesNotMatter` | poky/bitbake/lib/bb/cooker.py:1131-1223 | Any order of BBFILE_COLLECTIONS gives the same priorities. |
| `FifoMessages.FifoReader.ReadFifo` | poky/bitbake/lib/bb/build.py:478-516 | Dispatches the complete messages of buffer and data, in order, up to the first whose handler raises; the rest stays in the buffer. |
| `FifoMessages.ReadAll` | poky/bitbake/lib/bb/build.py:478-516 | However the stream is cut, exactly its NUL-terminated messages are dispatched and the buffer holds the unterminated tail. |
| `FifoMessages.CutAnywhere` | poky/bitbake/lib/bb/build.py:481-516 | What arrives later changes nothing about complete messages. |
| `FifoMessages.MessagesComeBack` | poky/bitbake/lib/bb/build.py:483 | Messages without NUL come back from the stream that they make up. |
| `FifoMessages.StreamIsItsMessages` | poky/bitbake/lib/bb/build.py:483 | Messages and tail make up the stream again. |
| `Relocation.InterpFrame` | poky/scripts/relocate_sdk.py:72-112 | The interpreter rewrite keeps file length and all bytes outside the entry, which is left alone or holds the new path with at least one NUL. |
| `Relocation.InterpIsFirst` | poky/scripts/relocate_sdk.py:79-92 | The entry is the first PT_INTERP of the table. |
| `Relocation.InterpIsRewritten` | poky/scripts/relocate_sdk.py:92-112 | An interpreter of size 0 or in one of the five system directories is left alone; any other holds the new path afterwards if that is shorter than its place, and otherwise there is no room for it. |
| `Relocation.RolesByName` | poky/scripts/relocate_sdk.py:144-168 | Which sections are rewritten, by name, and only if they are of the type PROGBITS. |
| `ElfLayout.ProgramHeaderReadBack` | poky/scripts/relocate_sdk.py:72-90 | A program header packed field by field as ELF lays it out, for either word size and byte order, gives type, offset and size in the file. |
| `ElfLayout.SectionHeaderReadBack` | poky/scripts/relocate_sdk.py:114-141 | The same for section headers: name, type, offset and size. |
| `ElfLayout.InterpreterReadBack` | poky/scripts/relocate_sdk.py:79-92 | The first packed header of type 3 gives the place of the interpreter. |
| `ElfLayout.NameReadBack` | poky/scripts/relocate_sdk.py:141 | The name of a section goes from its place in the string table up to the next NUL. |
| `ElfLayout.PrefixIsReplaced` | poky/scripts/relocate_sdk.py:155-167 | Each occurrence of the old prefix, from the left, becomes the new one, and the text between them stays. |
| `Relocation.PlaceFrame` | poky/scripts/relocate_sdk.py:155-167 | A rewritten `.ldsocache` holds its relocated text and at least one NUL; nothing else changes. |
| `Relocation.SlotsFrame` | poky/scripts/relocate_sdk.py:168-184 | The same for each 4096-byte slot of `.gccrelocprefix`; a rest shorter than a slot is left alone. |
| `Relocation.SlotsReadBack` | poky/scripts/relocate_sdk.py:168-184 | Every slot of 4096 bytes that lies wholly in the section is rewritten from its own contents, and what is behind the last one stays. |
| `Relocation.SectionsFrame` | poky/scripts/relocate_sdk.py:134-184 | With the section headers apart from the places rewritten, the loop keeps length and all bytes outside those places. |
| `Relocation.SectionRewritten` | poky/scripts/relocate_sdk.py:134-184 | A section apart from the others ends up rewritten from its own original contents. |
| `Relocation.DirsFrame` | poky/scripts/relocate_sdk.py:185-209 | Writing back `.sysdirs` and `.sysdirslen` changes only the bytes written, and stays in the section if and only if the new paths fit. |
| `Relocation.DirsRewritten` | poky/scripts/relocate_sdk.py:185-209 | When they fit and the sections are apart, `.sysdirs` holds the new paths with a NUL behind each and NULs up to its end, and `.sysdirslen` their packed lengths. |
| `Relocation.DirsReadBack` | poky/scripts/relocate_sdk.py:186-207 | Such a section, read again, gives the relocated paths. |
| `Relocation.PackReadBack` | poky/scripts/relocate_sdk.py:197-200 | A length that fits its word is read back from it. |
| `Relocation.DirsThatDoNotFit` | poky/scripts/relocate_sdk.py:202-207 | When they do not fit, what follows the section is overwritten. |
| `Relocation.SysdirsFrame` | poky/scripts/relocate_sdk.py:114-209 | The rewriting of all sections together keeps the file length, and every byte outside the rewritten sections, slots and library directories. |
| `Relocation.RelocationFrame` | poky/scripts/relocate_sdk.py:247-254 | The interpreter and then the sections: length and all other bytes are kept, and an interpreter apart from the sections still holds the new path in the end. |
| `Relocation.ElfFile.Relocate` | poky/scripts/relocate_sdk.py:247-254 | The two rewrites of one file, one after the other, leave in it what the specification says, or the same failure. |
| `Relocation.ElfFile.ChangeInterpreter` | poky/scripts/relocate_sdk.py:72-112 | The loop over the program headers, with its seeks, reads and writes, leaves in the file what the specification of the interpreter rewrite says, or the same failure. |
| `Relocation.ElfFile.ChangeDlSysdirs` | poky/scripts/relocate_sdk.py:114-209 | Reading the string table, looping over the sections and writing back the library directories leaves in the file what the specification says, or the same failure. |
| `Relocation.ElfFile.RewriteSlots` | poky/scripts/relocate_sdk.py:168-184 | The slot loop, in which each read goes on where the last write ended, rewrites each 4096-byte slot as specified. |
| `Relocation.ElfFile.WriteDirs` | poky/scripts/relocate_sdk.py:185-209 | The library directories are written back up to the first empty path, and their lengths as packed words. |

## Left out

- `${@...}` Python expansion, `DataContext`, anonymous functions and event handlers: arbitrary Python. Only `${VAR}` references are expanded.
- `delVarFlag`, `delVarFlags` and `expandVarref` are not modelled.
- RenameVariants.VariantsFollow: only for variants of one segment without variants of their own; for others `renameVar` is specified by `StoreRename.AfterRename` and `RenameTouchesOnly` alone.
- `__exportlist` and the table of renamed variables, which copies share with their parent, are not modelled; the isolation theorem does not speak about them.
- `getVarFlag` of flags other than the content, and `noweakdefault`; reads with `parsing` appear only inside `renameVar`.
- The messages of the datastore, `VariableHistory.emit`, logging, events, progress and profiling.
- DataStore.DataSmart.Set: nothing about the cache when the call fails. `StoreCommands.IsSafeToSet` is sufficient and not necessary: when settling looks at what the write changes, whether its result changes depends on the values; `StaleReads.WriteBehindOverrides` is a store where it does.
- DataStore.DataSmart.GetVar: coherence over all runs for stores with `RemovesAgree`; other stores can stay coherent, depending on which variables are read in which order, and the exact condition is given for variables without references that share a variant, in `SharedVariants.ReadInTurn`. Nor does it say that the first read of a store without overrides in force goes through; `NeedOverrides` says when settling does.
- StoreCommands.QuietRunIsSafe: for runs without renames; a rename is safe by `StoreCommands.QuietIsSafe`, but that it leaves the watched variables alone is not stated.
- DataStore.DataSmart.Delete: coherence only if settling does not look at what is deleted; the other direction depends on the values involved and not on the call.
- DataStore.DataSmart.UpdateOverrideVars: does not claim that the watched variables are closed under references, because the program looks for references in the values as expanded, where none are left; `WatchedOverrides.DirectIsCovered` says when that is enough. Which names are added beyond those that stand in the value is said for overrides in force and a right cache.
- DataStore.RunOnCopies: writes to the parent after a copy was made, after which the caches of copies are out of date in the program as well.
- OverrideChoice.ChosenIsWinner: for overrides without repeated segments and without a segment that is a prefix of an earlier one other than the first; `PrefixSegmentIsLost` shows why.
- Shutdown of the parser is one step: how long each process is waited for, and the signals sent, appear only as the number of results that still get out.
- What `updateCache` does besides parsing (preferred providers, priorities, stamps), and exceptions in it after `parse_next`.
- Pickle bytes, hashes, time stamps of files, locks and directory listings are abstract: pickle files are sequences of items, the hash input is the text before hashing, locks are atomic.
- RecipeCache.Cache.IsCurrent: the string form of checksum lists is taken as split into files and flags already.
- MultiProcessCache.Cache.SaveMerge: a process that dies while writing leaves an unreadable file, which is discarded; a file cut off in the middle of a pickle would raise an exception that the program does not catch.
- `build_dependencies` is an abstract function from names to references and values; `emit_func` and `emit_func_python` repeat the same worklist.
- `addtask`, `deltask` and `preceedtask`: edits of one list each.
- LayerPriority.LayerCollection.CalcAll: explicit priorities of 0 and below, cyclic dependencies and dependencies that are not enabled, for which the program recurses without end or stops with an error.
- FifoMessages.FifoReader.ReadFifo: which logger a command goes to; a handler is only known to raise or not.
- Relocation: `get_arch` and `parse_elf_header` (the header values are given), backslashes in the new prefix, file permissions, and struct.pack of lengths beyond its range.
- `bb.runqueue`, `bb.taskdata`, `bb.providers`, `bb.siggen` and the fetchers are not part of this model.
