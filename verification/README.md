# BitBake's metadata engine in Dafny

A model of the parts of BitBake that hold real state, with proofs that each of them agrees with a
simple specification. `dafny verify dfyconfig.toml` checks everything.

| file | what it models |
|---|---|
| `Text.dfy`, `Sorting.dfy`, `Wrappers.dfy` | string splitting, references, Python's `sorted`, results that may raise |
| `OverrideChoice.dfy` | the loops that choose an override variant |
| `DataModel.dfy` | the uncached evaluator on a flattened store, what it reads, and when a memo table agrees with it |
| `StoreUpdates.dfy` | what each write does to a store, as functions |
| `Renaming.dfy` | which renames end, variants included |
| `DataSmartStore.dfy` | the store itself: shared dictionaries and lists on the heap, tombstones, override index, memo table, computed overrides |
| `DataSmartRuns.dfy` | whole runs: coherence of the memo table, isolation of copies, and a write after which a memo is stale |
| `CowDict.dfy` | the copy-on-write dictionary behind the history store |
| `ParserPool.dfy` | workers, feeders, queue and generator as a step relation |
| `InterningCodec.dfy` | the interning stream codec of recipe data, with many writers |
| `VirtualNames.dfy` | virtual file names |
| `Dependencies.dfy`, `Signatures.dfy`, `ChecksumDiff.dfy` | dependency closures, hashed texts built and rebuilt, the diff of file checksums |
| `MessageFifo.dfy`, `TasksBetween.dfy` | the splitter of FIFO messages, the search for tasks between two tasks |
| `Providers.dfy` | the choice among recipe files |
| `DiskMonitor.dfy` | the disk monitor |

How the main results read:

- **The memo table refines plain evaluation.** `DataModel` defines what a lookup gives on the flattened
  store, with the set of variables it reads. `DataSmart.GetVarFlag` and everything it calls, down to the
  nested computation of OVERRIDES through the same table, is proved to give that value and to keep the
  table right; `DataSmartRuns.Run` lifts this to sequences of operations. One kind of write is excluded,
  `Exposed`: a `setVar` outside parsing that has to compute the overrides first, drops no variant, is not of
  a tracked variable, and turns out to set a variable that OVERRIDES was read through to a new value. For
  names without colon this is the exact condition: `SetOne` states that the table is coherent afterwards if
  and only if the write was not exposed, and `ExposedWriteGoesStale` builds a store where one is. For names
  with colon the same holds when the override keys are single parts and OVERRIDES was not read through the
  name with that value before. The evaluator is defined for stores
  with no `:remove` on a name that has an index place: a variant, or a colon-free name that looks like an
  override, such as `foo`.
- **Copies are isolated.** The store, its levels, flag dictionaries, delayed lists and index lists are
  objects, shared exactly as `createCopy` and the shadow copies share them, so isolation is a statement
  about the heap. It holds for all operations and names, after operations that raise too, and for
  `renameVar` of a variable with variants, which appends to an index list in place: that list is shown
  never to be an inherited one.
- **When a rename ends is exact.** `renameVar` recurses over the override variants. For a variable
  with a value and index lists in order it ends if and only if the new name is not one of its variants.
- **The parser pool never fails falsely**, because dead workers are reaped before the queue is read: the
  invariant behind it counts every recipe in every interleaving. **And it ends**: with the workers gone
  only boundedly many steps are left, and a run that cannot go on, without a kill or a failed parse, has
  delivered every recipe once.
- **The copy-on-write dictionary** reads the nearest write on the ancestor chain, except for one family of
  cases that the proof pins down: a deletion leaves an attribute under the plain name, and a mutable value
  written afterwards is stored under another name and stays invisible. The condition is an if and only if,
  and needs no assumption that keys keep their kind.
- **Recomputed signatures** agree with the original ones in the text that is hashed. The file part always
  agrees; the dependency part agrees when dependencies with the same pn:task id have the same unihash; the
  taint part agrees exactly when `TaintKept` holds.

Things found in the code while modelling it, each kept as it is:

- With a keyword name such as `foo:append`, the index update runs on `foo`, where `rfind` gives -1; for a
  lower-case name without colon this enters `foo` under the name `fo` (`ColonFreePlaces`).
- `setVar` outside parsing may leave a stale memo (`ExposedWriteGoesStale`, with the condition in `SetOne`).
- `renameVar` to a variant of the same variable recurses for ever (`RenameEndsIff`, and `NeverEnds` for more
  names).
- A mutable value written to a copy-on-write key after its deletion is not seen (`RewriteAfterDeleteIsLost`).
- With `BB_NUMBER_PARSE_THREADS` at 0 and recipes to parse, the generator raises (`FailsWithoutWorkers`).
- With an unmet REQUIRED_VERSION, `_filterProviders` returns the files listed so far, not the empty list.
- The version pattern of `findPreferredProvider` never captures a revision, since its middle part is greedy
  (`RevisionIsNotSplit`).
- In `filterProvidersRunTime` the first removal takes a file out of the list that is being walked, so the
  walk may skip one (`SecondIsSkipped`).
- At zero free space the disk monitor warns at every check (`FullDiskWarnsEveryTime`).
- A taint left over from a taint file that is gone makes the dumped task hash differ (`PreparedTaintIsKept`).

Python values are strings or None, sets and dictionaries are Dafny's, and the order of a Python set or of a
dictionary that is walked is any order. `Raised` stands for every exception that leaves a call.

## Model

| member | source | states |
|---|---|---|
| `OverrideChoice.SelectOverride` | bitbake/lib/bb/data_smart.py:791-815 | the loops end for every list of overrides and every index entry, and give the specified choice; the loop variant is the total length of the keys |
| `OverrideChoice.VisitAll` | bitbake/lib/bb/data_smart.py:806-815 | a round over a snapshot of the keys never deletes an absent key, does not lengthen the keys, and shortens them in total whenever it changes anything |
| `OverrideChoice.Del` | bitbake/lib/bb/data_smart.py:810-815 | the key that is rewritten or taken was there, and is gone |
| `OverrideChoice.ActiveTable` | bitbake/lib/bb/data_smart.py:795-801 | no key has two slots |
| `OverrideChoice.ActiveTableIsLast` | bitbake/lib/bb/data_smart.py:795-801 | for each active key the table holds the name of the last entry with that key |
| `OverrideChoice.RightmostOverrideWins` | bitbake/lib/bb/data_smart.py:803-815 | with single-part active keys something is chosen exactly when a key is active, and it is the last entry whose key first occurs rightmost in OVERRIDES |
| `Text.UnparseTokens` | bitbake/lib/bb/data_smart.py:451-483 | cutting a value into literals and `${NAME}` references loses nothing: an unsubstituted reference stays as it was |
| `Text.ConcatPieces` | bitbake/lib/bb/data_smart.py:882-891 | splitting a value at single blanks and joining it again gives it back |
| `DataModel.EvalsToUnique` | bitbake/lib/bb/data_smart.py:771-901 | the value of a lookup and what it reads do not depend on how deep the evaluator may recurse |
| `DataModel.EvalsToFrame` | bitbake/lib/bb/data_smart.py:771-901 | a lookup depends only on the variables it reads: any store that agrees there gives the same value and the same reads |
| `DataModel.RoundStays` | bitbake/lib/bb/data_smart.py:488-510 | once a round of computing OVERRIDES is stable all later rounds give the same list |
| `DataModel.StableUnique` | bitbake/lib/bb/data_smart.py:488-510 | at most one list can be the outcome of the five rounds |
| `DataModel.SettledStable` | bitbake/lib/bb/data_smart.py:488-510 | a list settled on within the rounds is stable: OVERRIDES evaluated under it and split is that list |
| `DataModel.CacheOkFrame` | bitbake/lib/bb/data_smart.py:542-623 | memos whose reads avoid what changed stay equal to the recomputed value |
| `DataModel.SeededNames` | bitbake/lib/bb/data_smart.py:488-510 | after computing the overrides the memo table holds exactly the variables OVERRIDES is read through |
| `StoreUpdates.Places` | bitbake/lib/bb/data_smart.py:640-656 | every index place of a name is under a shorter name |
| `StoreUpdates.ColonFreePlaces` | bitbake/lib/bb/data_smart.py:640-648 | a name without colon has an index place exactly when it looks like an override: the whole name as key, under the name without its last character; `foo` goes under `fo` |
| `StoreUpdates.WithData` | bitbake/lib/bb/data_smart.py:528-537 | a write to one variable goes to the top level only and changes no other variable |
| `StoreUpdates.LastWriteWins` | bitbake/lib/bb/data_smart.py:591-620 | after setVar outside parsing the unexpanded value is the one written, under every override list and whatever content, delayed operations, removals or variants the store or an ancestor held; the name is iterated. Only a name listed among its own active variants is excluded, where setVar raises |
| `StoreUpdates.ListStays` | bitbake/lib/bb/data_smart.py:602-612 | after the active variants are deleted the index list is still there exactly when the name was not one of them |
| `StoreUpdates.DeletedIsGone` | bitbake/lib/bb/data_smart.py:713-737 | after delVar the variable has no value and is not iterated, under every override list |
| `StoreUpdates.AssignedFrame` | bitbake/lib/bb/data_smart.py:591-620 | a setVar that drops no variant and changes no choice leaves every other variable as it was for the evaluator, and the variable itself too if it had the value |
| `StoreUpdates.ColonFreeChoicesStay` | bitbake/lib/bb/data_smart.py:591-620 | a setVar of a colon-free name that drops no variant changes no choice of variant |
| `StoreUpdates.MemoOfWritten` | bitbake/lib/bb/data_smart.py:601-620 | a memo of the written variable itself is right afterwards only if it holds the value written |
| `StoreUpdates.AfterSeed` | bitbake/lib/bb/data_smart.py:601-620 | if no choice changes, the memos made while settling the overrides during setVar are right afterwards exactly when OVERRIDES was not read through the variable, or it had the value already |
| `StoreUpdates.AfterSeedIff` | bitbake/lib/bb/data_smart.py:601-620 | with single-part keys, unless OVERRIDES was read through the variable with the same value: the memos are right afterwards exactly when no choice changes and the variable was not read |
| `StoreUpdates.ChangedChoice` | bitbake/lib/bb/data_smart.py:640-656 | a write that changes the choice of another variable makes it choose the written variant |
| `StoreUpdates.SetVarClean` | bitbake/lib/bb/data_smart.py:568-620 | a setVar that is no `:remove` on a variant keeps the store free of those |
| `StoreUpdates.SuffixParses` | bitbake/lib/bb/data_smart.py:703-711 | `name:append` and `name:prepend` are read by setVar as that operation on that name, for colon-free names |
| `StoreUpdates.RenameMoves` | bitbake/lib/bb/data_smart.py:661-701 | a rename leaves the old name without dictionary entries or index list, with or without variants; without variants the new name has the value and the delayed operations behind its own |
| `StoreUpdates.VariantMoves` | bitbake/lib/bb/data_smart.py:688-692 | a variable and its only variant move together: both new names have the old values and both old names are empty, when the four names differ |
| `StoreUpdates.RenameOther` | bitbake/lib/bb/data_smart.py:661-701 | a rename without variants touches no other variable |
| `StoreUpdates.RenamedMono` | bitbake/lib/bb/data_smart.py:688-692 | a deeper recursion limit changes nothing about a rename that ends |
| `StoreUpdates.RenamedClean` | bitbake/lib/bb/data_smart.py:661-701 | when a rename without variants leaves no `:remove` on a variant |
| `Renaming.NeverEnds` | bitbake/lib/bb/data_smart.py:688-692 | a rename ends at no recursion limit if the new name contains the old one and is listed under it once it has the value, for all names and index lists |
| `Renaming.RenameEnds` | bitbake/lib/bb/data_smart.py:661-701 | a rename ends, with all variants and theirs, if the lists at and below the old name hold names below their owners and the new name is not below the old one; with lists of variants only, if it is no variant of the old one |
| `Renaming.PlainRenameEnds` | bitbake/lib/bb/data_smart.py:661-701 | without variants a rename ends at once |
| `Renaming.RenameEndsIff` | bitbake/lib/bb/data_smart.py:661-701 | a rename of a variable with a value, whose lists hold variants of their owners, ends if and only if the new name is not one of its variants |
| `Renaming.PlainRenameGoes` | bitbake/lib/bb/data_smart.py:661-701 | a rename without variants raises nothing if the new name is not tracked and not in the old syntax |
| `Renaming.PlaceIsBelow` | bitbake/lib/bb/data_smart.py:640-656 | a name is listed under names it is a variant of, but for colon-free names |
| `Renaming.VariantHasPlace` | bitbake/lib/bb/data_smart.py:640-656 | and under every name it is a variant of |
| `DataSmartStore.DataSmart.constructor` | bitbake/lib/bb/data_smart.py:425-443 | a new store is empty, valid and coherent |
| `DataSmartStore.DataSmart.FindVar` | bitbake/lib/bb/data_smart.py:517-526 | the dictionary found is that of the nearest level that has the name, tombstones included |
| `DataSmartStore.DataSmart.MakeShadowCopy` | bitbake/lib/bb/data_smart.py:528-537 | the top level gets its own dictionary with the same contents; the lists in it stay shared and nothing below changes |
| `DataSmartStore.DataSmart.NeedOverrides` | bitbake/lib/bb/data_smart.py:488-510 | when it computes overrides from a coherent memo table and returns, the list is stable and is the one the evaluator settles on; it succeeds when that list exists within the recursion limit |
| `DataSmartStore.DataSmart.GetVarFlag` | bitbake/lib/bb/data_smart.py:771-901 | with a coherent memo table a lookup that returns gives what the uncached evaluator gives on the flattened store, keeps the table coherent, and only adds memos for what it reads |
| `DataSmartStore.DataSmart.EvaluateContent` | bitbake/lib/bb/data_smart.py:786-896 | a value without memo is computed as raw value, expansion and removal of words, and memoised |
| `DataSmartStore.DataSmart.ApplyAppends` | bitbake/lib/bb/data_smart.py:830-841 | every applicable `:append` is added in order, under the list of overrides in force, which is computed first |
| `DataSmartStore.DataSmart.ApplyPrepends` | bitbake/lib/bb/data_smart.py:843-855 | every applicable `:prepend` is put in front in order |
| `DataSmartStore.DataSmart.ApplyDelayed` | bitbake/lib/bb/data_smart.py:830-855 | appends first, then prepends |
| `DataSmartStore.DataSmart.ChosenVariant` | bitbake/lib/bb/data_smart.py:789-821 | the value of the chosen variant, if one is chosen and has a value |
| `DataSmartStore.DataSmart.RawValue` | bitbake/lib/bb/data_smart.py:786-855 | the unexpanded value is the evaluator's; a variable without index list and delayed operations gives its content without raising, whatever the memo table holds |
| `DataSmartStore.DataSmart.ExpandWithRefs` | bitbake/lib/bb/data_smart.py:451-483 | expansion is a chain of rounds of substitution that stops when nothing is left to substitute or nothing changes; the references collected are those of every text on the way, no more and no less |
| `DataSmartStore.DataSmart.Substitute` | bitbake/lib/bb/data_smart.py:108-118 | one round replaces each reference that has a value, keeps the others, and raises on a direct self-reference |
| `DataSmartStore.DataSmart.TrimValue` | bitbake/lib/bb/data_smart.py:863-893 | the words of the applicable removals, expanded, are dropped and the blanks kept |
| `DataSmartStore.DataSmart.CollectBad` | bitbake/lib/bb/data_smart.py:864-880 | the words of the removals that apply, each expanded |
| `DataSmartStore.DataSmart.GetVar` | bitbake/lib/bb/data_smart.py:658-659 | getVar gives the evaluator's value whatever the memo table holds, as long as it is coherent |
| `DataSmartStore.DataSmart.GetVarUnexpanded` | bitbake/lib/bb/data_smart.py:658-659 | getVar(v, False) gives the evaluator's unexpanded value |
| `DataSmartStore.DataSmart.UpdateOverrides` | bitbake/lib/bb/data_smart.py:640-656 | the name is entered at each of its index places, replacing lists instead of changing shared ones |
| `DataSmartStore.DataSmart.DropOverrides` | bitbake/lib/bb/data_smart.py:722-738 | the name is taken out of each of its index places, replacing lists instead of changing shared ones |
| `DataSmartStore.DataSmart.UpdateOverrideVars` | bitbake/lib/bb/data_smart.py:625-638 | the tracked names grow by at least the references of the value, and the overrides and all memos are forgotten |
| `DataSmartStore.DataSmart.DelVar` | bitbake/lib/bb/data_smart.py:713-738 | the top level gets a tombstone, the index loses the variants and the name, all memos are forgotten |
| `DataSmartStore.DataSmart.SetDelayed` | bitbake/lib/bb/data_smart.py:568-589 | an append, prepend or remove goes behind the inherited ones, in a list of this store's own |
| `DataSmartStore.DataSmart.ActiveVariants` | bitbake/lib/bb/data_smart.py:602-609 | the variants to drop are those whose key is active under the list in force, which is computed if need be |
| `DataSmartStore.DataSmart.ClearVar` | bitbake/lib/bb/data_smart.py:594-612 | delayed operations and active variants of the name go, and nothing else; a name listed among its own variants raises |
| `DataSmartStore.DataSmart.DropActive` | bitbake/lib/bb/data_smart.py:610-612 | the active variants are deleted, then the index list, which must still be there |
| `DataSmartStore.DataSmart.SetPlain` | bitbake/lib/bb/data_smart.py:591-620 | the whole store after a plain setVar, with or without parsing |
| `DataSmartStore.DataSmart.SetVar` | bitbake/lib/bb/data_smart.py:542-623 | the whole store after setVar; the memo table is empty afterwards except when the write itself had to compute the overrides, and then exactly the variables OVERRIDES is read through have memos; when it must succeed, and that a name that is its own active variant makes it raise |
| `DataSmartStore.DataSmart.AppendVar` | bitbake/lib/bb/data_smart.py:703-706 | the store after setVar of the longer name, and when it succeeds; for a colon-free name one `:append` item goes last; memos are empty |
| `DataSmartStore.DataSmart.PrependVar` | bitbake/lib/bb/data_smart.py:708-711 | the same for `:prepend` |
| `DataSmartStore.DataSmart.SetVarFlag` | bitbake/lib/bb/data_smart.py:740-762 | the flag is set in the top level's own dictionary; a default value also enters the index |
| `DataSmartStore.DataSmart.DelVarFlag` | bitbake/lib/bb/data_smart.py:903-918 | the flag is gone from the top level; a variable without dictionary or with an empty one is left alone |
| `DataSmartStore.DataSmart.Gather` | bitbake/lib/bb/data_smart.py:678-686 | the delayed operations of one name go behind those of another, in lists of this store's own |
| `DataSmartStore.DataSmart.RenameVar` | bitbake/lib/bb/data_smart.py:661-701 | the whole store after a rename, variants and the variants of variants included, and that it succeeds when the recursion ends within the limit and no name set on the way is tracked or in the old syntax; index lists are new ones or stay under their names, so that the list changed in place is never an inherited one |
| `DataSmartStore.DataSmart.MoveEach` | bitbake/lib/bb/data_smart.py:690-692 | the loop over the variants, over a list object that nothing in it changes; a nested rename that takes the new list away raises |
| `DataSmartStore.DataSmart.MoveVariant` | bitbake/lib/bb/data_smart.py:691-692 | the new name of a variant is appended in place, then the variant is renamed |
| `DataSmartStore.DataSmart.AppendIndex` | bitbake/lib/bb/data_smart.py:691-691 | an append in place to an index list of the store's own shows under that one name only |
| `DataSmartStore.DataSmart.CreateCopy` | bitbake/lib/bb/data_smart.py:983-1003 | the copy reads as the original, has an empty memo table, and shares everything below its own new level |
| `DataSmartStore.DataSmart.ActiveOwners` | bitbake/lib/bb/data_smart.py:1048-1055 | the names collected are exactly those with an active variant |
| `DataSmartStore.DataSmart.KeyList` | bitbake/lib/bb/data_smart.py:1029-1046 | a name is listed exactly when its topmost dictionary is not empty and no override owns it |
| `DataSmartStore.DataSmart.Keys` | bitbake/lib/bb/data_smart.py:1026-1061 | iteration yields each name once, exactly when its topmost dictionary is not empty or it has an active override, and succeeds when the overrides settle |
| `DataSmartRuns.SetOne` | bitbake/lib/bb/data_smart.py:542-623 | after setVar the memo table is coherent if and only if the write was not exposed: it had to compute the overrides, dropped no variant, was not tracked, and OVERRIDES was read through the variable with another value or through a variable whose choice it changes; for colon-free names, and for names with a colon when keys are single parts and the value is new to OVERRIDES |
| `DataSmartRuns.SpoilsIff` | bitbake/lib/bb/data_smart.py:601-620 | whether a write is exposed is decided by the list it settles on |
| `DataSmartRuns.WriteThenRead` | bitbake/lib/bb/data_smart.py:542-623 | setVar outside parsing followed by getVar(v, False) gives the value written, stale memos or not |
| `DataSmartRuns.Apply` | bitbake/lib/bb/data_smart.py:542-770 | one operation keeps a coherent memo table coherent unless it is an exposed setVar or leaves a `:remove` on a variant; and when each operation succeeds |
| `DataSmartRuns.RunOnCopy` | bitbake/lib/bb/data_smart.py:983-1003 | no sequence of operations on a copy, whatever the names and also after operations that raise, changes any field of the original, or of any dictionary or list it reaches |
| `DataSmartRuns.Run` | bitbake/lib/bb/data_smart.py:542-770 | after any sequence of operations, none exposed when it ran and none leaving a `:remove` on a variant, every memo equals the value recomputed from the store |
| `DataSmartRuns.ExposedWriteGoesStale` | bitbake/lib/bb/data_smart.py:601-620 | a store built from nothing and one setVar after which a memo is stale, at every recursion limit at which the overrides settle |
| `DataSmartRuns.ExampleSettles` | bitbake/lib/bb/data_smart.py:488-510 | in that store the overrides settle at every limit from some depth on |
| `ParserPool.ChunksPartition` | bitbake/lib/bb/cooker.py:2163-2165 | for at least one worker the chunks together are the list, each recipe in one chunk |
| `ParserPool.StepKeepsEverything` | bitbake/lib/bb/cooker.py:2058-2081 | no step of any process loses or duplicates a recipe |
| `ParserPool.StepKeepsInv` | bitbake/lib/bb/cooker.py:2255-2276 | every step of a worker, a feeder, a kill or the generator keeps the invariant |
| `ParserPool.EveryRecipeIsInOnePlace` | bitbake/lib/bb/cooker.py:2058-2081 | in every run each recipe is counted once among jobs, pending lists, buffers, queue, consumed results and what killed workers took along |
| `ParserPool.EndedMeansDelivered` | bitbake/lib/bb/cooker.py:2255-2276 | when the generator ends each recipe was delivered exactly once and none failed |
| `ParserPool.NeverFailsFalsely` | bitbake/lib/bb/cooker.py:2255-2276 | "Not all recipes parsed" is raised only after a worker was killed, provided there was a worker |
| `ParserPool.FailsWithoutWorkers` | bitbake/lib/bb/cooker.py:2146-2173 | with recipes to parse and no worker the generator does raise |
| `ParserPool.WorkersAdvance` | bitbake/lib/bb/cooker.py:2058-2081 | a worker step that the queue does not refuse brings the worker nearer to its exit |
| `ParserPool.WorkersCanMove` | bitbake/lib/bb/cooker.py:2058-2081 | a live worker always has a step |
| `ParserPool.GeneratorAdvances` | bitbake/lib/bb/cooker.py:2255-2276 | with all workers gone every step brings the generator nearer to its end |
| `ParserPool.GeneratorCanMove` | bitbake/lib/bb/cooker.py:2255-2276 | the generator has a next step until it has ended or raised |
| `ParserPool.GeneratorStepsBounded` | bitbake/lib/bb/cooker.py:2255-2276 | in any run, once no worker is alive, the steps that are left are at most the rank of the state then |
| `ParserPool.WorkerStepsBounded` | bitbake/lib/bb/cooker.py:2058-2081 | in any run the steps of workers, feeders and kills are at most the rank of the pool at the start and twice the refused puts |
| `ParserPool.HaltedIsFinished` | bitbake/lib/bb/cooker.py:2255-2276 | nothing can move exactly when no worker is alive and the generator has ended, raised or aborted |
| `ParserPool.RunsDeliver` | bitbake/lib/bb/cooker.py:2255-2276 | a run that cannot go on, with no worker killed and no failed parse, has ended with every recipe delivered exactly once; with the workers gone only boundedly many steps are left before that |
| `ParserPool.AlwaysFinishes` | bitbake/lib/bb/cooker.py:2255-2276 | from every reachable state some run, without a kill, leads to a state where nothing moves |
| `InterningCodec.DepsRoundTrip` | bitbake/lib/bb/cache.py:289-326 | decoding what one writer encoded gives the dictionary back, None and empty ones included, and keeps reader and writer in step |
| `InterningCodec.InfoRoundTrip` | bitbake/lib/bb/cache.py:328-338 | the same for the three dictionaries of one recipe |
| `InterningCodec.SiggenRecipeInfo.Reset` | bitbake/lib/bb/cache.py:281-287 | both numberings start over |
| `InterningCodec.SiggenRecipeInfo.Save` | bitbake/lib/bb/cache.py:289-304 | the shared writer state and the encoded list are the specified ones |
| `InterningCodec.SiggenRecipeInfo.Restore` | bitbake/lib/bb/cache.py:306-326 | only the numbers of that pid change; a number never seen raises |
| `InterningCodec.SiggenRecipeInfo.GetState` | bitbake/lib/bb/cache.py:328-333 | the three dictionaries are encoded in the order of the source, with the pid |
| `InterningCodec.SiggenRecipeInfo.SetState` | bitbake/lib/bb/cache.py:335-338 | the three dictionaries are decoded in the same order |
| `InterningCodec.HappenKeeps` | bitbake/lib/bb/cache.py:281-338 | each write or read keeps every writer in step with what the reader has consumed, and a read returns what was written |
| `InterningCodec.ReadersGetWhatWritersWrote` | bitbake/lib/bb/cache.py:281-338 | for any interleaving of any number of writers, each stream in order since the last reset, every read returns exactly what was written |
| `InterningCodec.ResetInMidStreamRaises` | bitbake/lib/bb/cache.py:281-287 | a reset of the reader within a stream makes the second use of a value raise |
| `VirtualNames.ParseUndoesPrint` | bitbake/lib/bb/cache.py:341-366 | parsing a printed name gives file, class and multiconfig back, for colon-free file and multiconfig names and any class |
| `VirtualNames.PrintIsInjective` | bitbake/lib/bb/cache.py:358-366 | no two such triples print alike |
| `VirtualNames.RoundTripIff` | bitbake/lib/bb/cache.py:341-366 | the round trip holds if and only if the multiconfig name has no colon, with a class the file name has none, and without one it does not start with `virtual:` nor, with no multiconfig, look like mc:X:rest |
| `VirtualNames.PlainVariant` | bitbake/lib/bb/cache.py:368-379 | for variants not of the form mc:X:rest the two printers agree |
| `VirtualNames.FromMulticonfig` | bitbake/lib/bb/cache.py:374-378 | what the variant printer makes of mc:X:rest |
| `VirtualNames.MulticonfigVariant` | bitbake/lib/bb/cache.py:374-378 | on mc:X:rest the printers agree exactly when X is not empty and rest is empty or does not begin with a colon |
| `CowDict.Level.Cow` | bitbake/lib/bb/COW.py:44-51 | a new level on top of this one, with nothing of its own |
| `CowDict.Level.SetItem` | bitbake/lib/bb/COW.py:53-58 | the write is stored at this level only and is seen only by readers of that key at or below it; an immutable value is then read here, a mutable one exactly when no level of the chain has the plain attribute |
| `CowDict.Level.DelItem` | bitbake/lib/bb/COW.py:106-107 | the key is missing here afterwards, and no other key or outside level sees it |
| `CowDict.Level.GetAttr` | bitbake/lib/bb/COW.py:88-93 | the attribute of the nearest level that has it |
| `CowDict.Level.GetMutable` | bitbake/lib/bb/COW.py:60-78 | an inherited object is copied into this level unless the read is readonly; no level's view changes |
| `CowDict.Level.GetItem` | bitbake/lib/bb/COW.py:88-104 | a missing or deleted key gives the default or raises; nobody's view changes; an object read for writing is held by this level alone |
| `CowDict.Level.HasKey` | bitbake/lib/bb/COW.py:114-121 | true exactly for keys that can be read, and nothing changes |
| `CowDict.Level.Edit` | bitbake/lib/bb/COW.py:60-78 | changing a list in place after reading it is seen only by readers of that key at or below the level |
| `CowDict.Level.Dir` | bitbake/lib/bb/COW.py:123-126 | the attribute names are those found on the chain |
| `CowDict.Level.ListItems` | bitbake/lib/bb/COW.py:123-146 | items are exactly the readable keys with their values, each once when no key has both attribute names; nobody's view changes |
| `CowDict.WriteStaysBelow` | bitbake/lib/bb/COW.py:53-58 | a store reaches only readers of that key at or below the level |
| `CowDict.WriteTakesEffect` | bitbake/lib/bb/COW.py:53-58 | what the writer reads afterwards, with the exact condition under which a mutable value is seen |
| `CowDict.CopyChangesNoView` | bitbake/lib/bb/COW.py:67-78 | the copy made by a read is seen by nobody |
| `CowDict.EditStaysBelow` | bitbake/lib/bb/COW.py:60-78 | an object held by one level is seen only at or below it |
| `CowDict.NearestWriteDecides` | bitbake/lib/bb/COW.py:88-107 | a level reads the nearest write on its chain if and only if that write is not a mutable value above which the chain still has the plain attribute |
| `CowDict.RewriteAfterDeleteIsLost` | bitbake/lib/bb/COW.py:53-107 | a list written after the key was deleted stays missing |
| `CowDict.RunOnCopy` | bitbake/lib/bb/COW.py:44-104 | no sequence of writes, deletions, reads and changes in place on a copy is seen by any older level |
| `Dependencies.Closure` | bitbake/lib/bb/data.py:420-429 | the worklist ends on every graph and gives exactly the names reachable in one or more steps; it raises exactly when the task or a reachable name is missing |
| `Dependencies.Expand` | bitbake/lib/bb/data.py:424-429 | one round collects the direct dependencies of all names, or raises on a missing one |
| `Dependencies.BaseData` | bitbake/lib/bb/data.py:413-436 | the hashed text: the task's value, then each dependency in sorted order with its value |
| `Dependencies.GenerateDependencyHash` | bitbake/lib/bb/data.py:407-440 | taskdeps is the reachable set, the base hash is taken of the specified text, and KeyError is raised exactly when a needed name is missing |
| `Dependencies.GenerateDependencies` | bitbake/lib/bb/data.py:387-405 | the maps hold exactly the tasks and what they reach, with what was built for each, and point nowhere else; it ends over a finite universe of names, cycles included |
| `Dependencies.BuiltIsComplete` | bitbake/lib/bb/data.py:387-440 | the maps of generate_dependencies never make generate_dependency_hash miss a key |
| `Dependencies.TidInjective` | bitbake/lib/bb/data.py:437-439 | base hash keys of different tasks of a recipe differ |
| `Sorting.SortedUnique` | bitbake/lib/bb/data.py:431 | there is one increasing order of a set of names |
| `Signatures.CalcBasehash` | bitbake/lib/bb/siggen.py:1206-1220 | KeyError exactly when a dependency has no value in the dump; otherwise the same text function as the base hash |
| `Signatures.CalcTaskhash` | bitbake/lib/bb/siggen.py:1222-1240 | the hash of the text rebuilt from the dump; KeyError exactly when an id has no hash |
| `Signatures.SiggenBasic.PrepTaint` | bitbake/lib/bb/siggen.py:368-382 | the taint of a task after preparing, and no other taint changes |
| `Signatures.SiggenBasic.GetTaskhash` | bitbake/lib/bb/siggen.py:386-407 | the hash of base hash, sorted dependencies' unihashes, sorted file sums and taint; only this task's hash changes |
| `Signatures.SiggenBasic.DumpBase` | bitbake/lib/bb/siggen.py:445-452 | the values and dependencies kept are exactly those not ignored, with the task's own value |
| `Signatures.SiggenBasic.DumpRun` | bitbake/lib/bb/siggen.py:454-474 | ids, names, sums and taint that are dumped, with the unihash of every dependency when ids tell them apart |
| `Signatures.SiggenBasic.DumpSigtask` | bitbake/lib/bb/siggen.py:424-482 | it raises exactly when an ignored variable other than the task is a dependency or a value is missing; the recomputed base hash agrees, and the recomputed task hash agrees when ids tell dependencies apart and the taint is kept |
| `Signatures.DumpedNameTells` | bitbake/lib/bb/siggen.py:457-461 | the dumped file name contains `./` exactly when the full name contains `/./` |
| `Signatures.SumsTextsAgree` | bitbake/lib/bb/siggen.py:1228-1232 | file sums give the same text before and after dumping |
| `Signatures.DepsTextsAgree` | bitbake/lib/bb/siggen.py:1225-1226 | dependency hashes give the same text before and after dumping |
| `Signatures.TaintTextsAgree` | bitbake/lib/bb/siggen.py:1234-1238 | the taint gives the same text after dumping exactly when it has the marker in front, or is what the taint file says |
| `Signatures.TaskTextsAgree` | bitbake/lib/bb/siggen.py:1222-1240 | the rebuilt text equals the hashed one if and only if the taint is kept, for ids that tell dependencies apart |
| `Signatures.DumpedBaseText` | bitbake/lib/bb/siggen.py:1206-1220 | the base text needs only the dumped values |
| `Signatures.PreparedTaintIsKept` | bitbake/lib/bb/siggen.py:368-382 | with an unchanged taint file the taint is kept exactly when the file has the marker in front or not at all and no taint of a removed file is left over |
| `ChecksumDiff.Counted` | bitbake/lib/bb/siggen.py:1033-1036 | the counter holds the difference of the two counts, below zero included |
| `ChecksumDiff.Surplus` | bitbake/lib/bb/siggen.py:1037-1041 | what is collected is the multiset difference |
| `ChecksumDiff.FileChecksumsDiff` | bitbake/lib/bb/siggen.py:1025-1056 | removed and old halves are what only the old list has, added and new halves what only the new one has, a change keeps the name and not the checksum, and no name is both added and removed |
| `ChecksumDiff.DiffConserves` | bitbake/lib/bb/siggen.py:1025-1056 | the old list without the removed and old halves, with the added and new halves, is the new list |
| `MessageFifo.SplitIsUnique` | bitbake/lib/bb/build.py:482-515 | a stream has one split into NUL-free messages and rest |
| `MessageFifo.SplitIsExact` | bitbake/lib/bb/build.py:482-515 | messages and rest put together are the stream, and hold no NUL |
| `MessageFifo.MoreArrives` | bitbake/lib/bb/build.py:479-483 | after more bytes the messages are the old ones and those of the old rest with the new bytes |
| `MessageFifo.Reader.ReadFifo` | bitbake/lib/bb/build.py:479-516 | what was handled and what is kept depend only on all bytes received; it raises exactly when an ended message cannot be handled |
| `MessageFifo.ReadAll` | bitbake/lib/bb/build.py:479-516 | any cutting of the same bytes into reads handles the same messages and keeps the same rest |
| `TasksBetween.Search.FollowChain` | bitbake/lib/bb/build.py:1004-1021 | it ends on every graph, raises exactly when a continuation of the chain steps back onto itself before the end, and otherwise restores the chain and records exactly the tasks on its continuations to the end |
| `TasksBetween.Search.Record` | bitbake/lib/bb/build.py:1013-1016 | the chain's tasks are recorded once each |
| `TasksBetween.AcyclicPaths` | bitbake/lib/bb/build.py:996-1023 | on an acyclic graph no chain steps back and the paths of the search are all dependency paths |
| `TasksBetween.TasksBetween` | bitbake/lib/bb/build.py:996-1023 | on an acyclic graph with a task besides the end, without duplicates, exactly the tasks on a dependency path from start to end |
| `TasksBetween.TwoTasks` | bitbake/lib/bb/build.py:1010-1012 | two tasks are enough for one of them not to be the end |
| `Providers.Tabulate` | bitbake/lib/bb/providers.py:71-80 | the table holds, for each priority and preference, the files that have them in their order |
| `Providers.SortPriorities` | bitbake/lib/bb/providers.py:63-88 | the groups flatten to a permutation of the files, have strictly falling priorities and rising preferences, and keep the order of like files |
| `Providers.FindPreferredProvider` | bitbake/lib/bb/providers.py:118-197 | the first file in group order that matches the wanted version, a required one before a preferred one |
| `Providers.RevisionIsNotSplit` | bitbake/lib/bb/providers.py:144-154 | a wanted version_revision is compared as a whole with the version: the revision is never captured |
| `Providers.FirstMatchIsPreferred` | bitbake/lib/bb/providers.py:159-167 | that file has the highest priority of all that match, and the lowest preference there |
| `Providers.FindLatestProvider` | bitbake/lib/bb/providers.py:199-216 | a file of the greatest preference and the greatest version at it, negative preferences included |
| `Providers.FindBestProvider` | bitbake/lib/bb/providers.py:218-235 | without a match the best file of all: highest priority, then preference, then version; with one the preferred file; IndexError without files |
| `Providers.TopOf` | bitbake/lib/bb/providers.py:229 | the first group holds all files of the highest priority and no others |
| `Providers.Collate` | bitbake/lib/bb/providers.py:251-257 | the files are grouped by recipe name in their order |
| `Providers.AddPreferred` | bitbake/lib/bb/providers.py:261-269 | names are taken in order up to the first with an unmet required version, and exactly the preferred files are listed |
| `Providers.AddLatest` | bitbake/lib/bb/providers.py:271-276 | every name without a preferred file gets its best one |
| `Providers.ItemFirst` | bitbake/lib/bb/providers.py:281-291 | the list is permuted so that the item's own file is first, if it has one |
| `Providers.EligibleProviders` | bitbake/lib/bb/providers.py:237-293 | with every required version met one file for each name, the chosen one, with the item's own name first; otherwise the preferred files of the names before the first unmet one |
| `Providers.PreferName` | bitbake/lib/bb/providers.py:308-317 | a permutation with the first file of that name in front, if there is one |
| `Providers.DataCache.FilterProviders` | bitbake/lib/bb/providers.py:295-321 | a permutation of the eligible files; unique exactly when the remembered preference names one of them, which is then in front |
| `Providers.DataCache.FilterProvidersRunTime` | bitbake/lib/bb/providers.py:323-379 | a permutation of the eligible files; a preferred runtime provider is in front, otherwise the inferred ones are, and none are found exactly when none can be inferred; else exactly the files that the walk finds, the last one in front |
| `Providers.DataCache.Infer` | bitbake/lib/bb/providers.py:349-372 | the walk over a list that changes under it permutes, finds something exactly when something can be inferred, and puts in front exactly what a plain walk over all files but the skipped one finds |
| `Providers.OneSkipped` | bitbake/lib/bb/providers.py:352-367 | the walk looks at every file once, but for at most one |
| `Providers.RemovedTail` | bitbake/lib/bb/providers.py:365-366 | the file skipped is the first one found if the walk has not passed it, and the next one in the list otherwise |
| `Providers.SecondIsSkipped` | bitbake/lib/bb/providers.py:352-367 | two recipes that are both preferred, of which only the first is found |
| `Providers.NothingSkipped` | bitbake/lib/bb/providers.py:352-367 | the walk looks at every file if and only if no file but the last names a preferred recipe |
| `DiskMonitor.Monitor.constructor` | bitbake/lib/bb/monitordisk.py:169-193 | memories start at zero; the monitor is on exactly with directories and both intervals |
| `DiskMonitor.Monitor.CheckSpace` | bitbake/lib/bb/monitordisk.py:215-231 | the space half of one check of one key |
| `DiskMonitor.Monitor.CheckInodes` | bitbake/lib/bb/monitordisk.py:233-258 | the inode half, which gives up on dynamic inode counts |
| `DiskMonitor.Monitor.Check` | bitbake/lib/bb/monitordisk.py:195-261 | every key takes its own step and affects no other; nothing happens when the monitor is off |
| `DiskMonitor.SpaceWarningsFrom` | bitbake/lib/bb/monitordisk.py:215-220 | with free space above zero each warning after the first is more than the interval below the one before |
| `DiskMonitor.SpaceWarningsBounded` | bitbake/lib/bb/monitordisk.py:215-220 | n warnings mean (n - 1) * interval < minSpace, however the space moves |
| `DiskMonitor.FullDiskWarnsEveryTime` | bitbake/lib/bb/monitordisk.py:217-220 | at zero free space every check warns, so that bound needs its hypothesis |
| `DiskMonitor.WarningsWithZeros` | bitbake/lib/bb/monitordisk.py:215-220 | the bound for every run: each reading of zero adds one warning and room for all the others again |
| `DiskMonitor.InodeWarningsFrom` | bitbake/lib/bb/monitordisk.py:236-247 | the same bound for inodes |
| `DiskMonitor.FinishesFrom` | bitbake/lib/bb/monitordisk.py:222-258 | over any run finish_runqueue is asked for at most once for a key, space and inodes together |
| `DiskMonitor.FinishIff` | bitbake/lib/bb/monitordisk.py:222-258 | it is asked for exactly when the action stops builds and some check finds too little |
| `DiskMonitor.Watch` | bitbake/lib/bb/monitordisk.py:195-261 | a new monitor over any sequence of checks: both bounds for every key |

## Left out

- `${@...}` expansion and the `contains` sets it feeds: they run Python. Values hold `${NAME}` references only.
- `:remove` on override variants: the parser's set of removed words is aliased there, which the evaluator does not model. What a lookup gives, and that memos are right, is claimed for stores free of it; writes, and the isolation of copies, are modelled for all stores.
- DataSmartStore.DataSmart.UpdateOverrideVars: states only that the tracked names grow, and bounds its rounds by the recursion limit; following already expanded values, it does not always find indirect references, which is why coherence is stated with a guard on the write.
- DataSmartStore.DataSmart.RenameVar: which value each variant has afterwards is stated by the recursive specification of the loop, and proved about it for a variable with no variant or with one that has none of its own; the recursion is bounded by the limit, beyond which it raises.
- Renaming.RenameEndsIff: not for a variable without a value whose new name is one of its variants, where the end depends on which of its variants have values, nor for the empty name; `NeverEnds` and `RenameEnds` cover part of that.
- DataSmartRuns.Run: does not claim that the list of overrides itself is current after every write, only that each memo is right for the list in force; it stops at the first operation that raises.
- DataSmartRuns.RunOnCopy: stops after an exception inside the computation of the overrides, which leaves the store in the middle of it.
- DataSmartRuns.SetOne: for a name with a colon the converse asks for single-part override keys and a value that OVERRIDES was not already read with.
- DataSmartStore.DataSmart.GetVarFlag: default arguments and flags that hold text; not noweakdefault, not flags that hold lists, and memo keys are (variable, flag) pairs instead of joined text. Recursion is bounded by a limit for each chain of lookups, beyond which it raises.
- `__exportlist`, `_var_renames`, history records, warnings, `localkeys`, `getVarFlags`, `setVarFlags`, `delVarFlags`, `expandVarref` and hashing of a store.
- OverrideChoice.RightmostOverrideWins: single-part active keys only; for compound keys `replace` works on substrings, and only termination and absence of missing keys are claimed.
- Whitespace is ASCII whitespace, and version numbers have ASCII digits.
- ParserPool.EndedMeansDelivered: a queue read times out only when the pipe is empty; the quit event and the shutdown that sets it, the cached recipes and what parse_next does with a result besides counting are not modelled.
- InterningCodec: pickling, the process identity call and the dictionary order of Python beyond the order given.
- COW sets, `__revertitem__`, keys that end in the suffix of mutable names, nested copy-on-write values, `iterkeys` of deleted keys, and keys that clash with metaclass attributes; the order in which `dir` lists names.
- CowDict.Level.SetItem: an object handed over must not be held by any level already.
- `build_dependencies` is any function from names to dependencies and value, and its exclusions, code parser and export rules are not modelled; SHA-256 is any function.
- Signatures.SiggenBasic.DumpSigtask: the file that is written, its name and the logging are not modelled; a missing task entry or an unprepared task is a precondition, and `get_unihash` is any function that does not change in between.
- MessageFifo.Reader.ReadFifo: decoding and `int` are any functions that may raise; what the log calls do is not modelled.
- TasksBetween.TasksBetween: every task has a `deps` flag.
- Providers.FindPreferredProvider: file names are not empty, and the log output is not modelled; facts about every file are in the cache.
- `vercmp` is any total preorder; sorting of the available versions for a message is left out.
- DiskMonitor.Monitor.Check: parsing of the configuration, mount points, usage events and the run queue itself are not modelled.
- The rest of the cooker, the fetchers, the server and UI, events, hash equivalence, the configuration and recipe parsers, and `FileChecksumCache.merge_data`, whose membership test looks in a list of another shape.
