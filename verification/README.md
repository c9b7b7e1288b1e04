# krab, modelled and proved

krab renders a Kapitan inventory and compiles targets from it. Almost everything hard in
it is a shortcut that must agree with the slow way: cached class closures, a daemon that
renders only what a change affects, a compile that skips targets whose record still
holds, items whose previous output is copied, a merge that works in place, a glob loop
that remembers one star. Here each shortcut is written down next to the slow way, and the
two are proved equal, or the exact condition under which they are equal is proved.

`dafny verify dfyconfig.toml` checks everything.

## How it is laid out

Shared: `Wrappers`, `Order` (sorting without duplicates), `Strings` (split and join),
`Decimal`, `Values` (the value tree, where every node has an origin).

*Incremental inventory.* A tree maps paths to texts; directories are the prefixes of
files. Parsing, hashing, merging and `${...}` evaluation are function fields of an `Env`.
`ClassLoader` is loading a class from scratch with its recorded `files` and `probes`,
`ClassNames` what names and patterns mean; `Footprint` proves what these determine;
`Gathering` is what a closure gathers from its files, in the order in which they come up,
`Remarks` where its probes and warnings come from and `Failures` what a failed one says;
`Linear` why closures may be merged as wholes; `FileNames` is which names stand for which
files; `Rendering` is target discovery and rendering, and `Rendered` what a rendered target
is in terms of its files; `Forgetting` is which cached closures an invalidation has to drop;
`Inventories.Inventory` is the object with the two caches; `Daemon` is what a change batch
does to the daemon's state, and the theorems about every run; `Server.State` is the daemon
as a program. `Fnmatch` is the glob matcher.

*Incremental compile.* `Digest` is exactly which bytes are hashed, `DigestRun` the program
that collects and hashes them, `Install` what installing and cleaning up leave on disk
together with the program `Disk`, `TargetDirs` where a target's directory is, `Readers`
programs that read the world question by question, `Staleness` what a target's record is
worth, `Engine` the programs that write and check records, `CompileRun` a whole run,
`Items` and `ItemRun` the reuse of kadet items.

*Merge.* `PythonEq` is Python's `==`; `Merging` the merge as a function of two trees, and
its algebra; `MergeInPlace` the merge that pushes and pops a path, logs and expands
placeholders, and `Expanding` what expanding amounts to.

*Self-contained algorithms.* `Distance`, `YamlLoader`, `YamlMerge`, `YamlIndex`,
`YamlAgree`, `JsonText`, `KeyPaths` and `BracketPaths`, `Normalise`.

An object whose methods change it is a class; each such method is tied by its contract to
a function of the old state, and the theorems are about these functions.

## What is assumed

- Hashes are collision-free and print without `NUL`, newline or `-` alone
  (`Digest.Hashes`, which `Digest.SpellingIsAHash` shows can be met); JSON serialisation
  is injective (`Staleness.Faithful`).
- What a compile reports as read is all it read (a compile is any `Reader`, a program
  from the answers it has had to its next question or its output); reads lie below the
  repository root, and the compile does not rewrite them (`Staleness.Recorded`,
  `Items.Reported`).
- File names are proper names, and what is above an entry is a directory
  (`Digest.NamesOk`, `Install.Grounded`).
- No symbolic links, one change batch at a time, nothing runs in parallel.

Caches that are wrong and batches that leave differences unreported are inside the model.

## What the proofs found

- Merging class closures is not associative in general, although the comment at
  `crates/krab-inventory/src/inventory.rs:112-114` says so: a list, a scalar that replaces
  it and a list again give different results in the two orders
  (`Merging.ReplacedListComesBack`). `Merging.Associativity` is the exact condition, in
  terms of the trees; trees whose kinds agree meet it, and for them the comment's
  conclusion holds (`Linear.ClosuresServeEveryTarget`).
- Integers are compared as doubles: `2^53` and `2^53 + 1` are one item to a
  unique-extending list merge. `PythonEq.IntegersCollide` says of every 64-bit integer
  whether another one equals it: below `2^53` none does, and of those up to `2^54` every
  second even one, starting with `2^53 + 2`, is still alone.
- A target whose record nothing contradicts can differ from a fresh compile in two ways.
  When a nested target has left the inventory and its directory is gone, files the parent
  wrote into that directory are not restored (`Staleness.NestedOutputCanBeLost`); and as
  the digest of the output covers files only, an empty output directory that was deleted,
  or a stray one, is not seen (`Staleness.EmptyDirectoryCanBeLost`).
  `Staleness.UpToDateIsSound` has the exact condition, for the files and for all entries.
- The digest of all documents does not contain the targets' names
  (`crates/krab-compile/src/engine.rs:257-258`): it tells the documents in name order
  (`Staleness.EverythingIsListed`), so it tells documents apart exactly between
  inventories with the same target names (`Staleness.EverythingDetermines`). Documents
  that name their targets are always told apart (`Staleness.NamedDocumentsDetermine`).
  Every document starts out with its target's name in `_kapitan_` and `_reclass_`
  (`crates/krab-inventory/src/model.rs:12-49`), so a renaming goes unseen
  (`Staleness.RenamingIsNotSeen`) only of targets whose files replace both and use the
  name nowhere else.
- Reusing an item does not notice that `parameters.multiline_string_style` or
  `parameters.kapitan.secrets` changed: the writer takes them from the document
  (`crates/krab-compile/src/native.rs:130-147`), but no item records them
  (`Items.StyleIsNotSeen`). `Items.WritingDecides` shows that this is the only gap of a
  single record.
- Records are matched to items by digest and position. When an item resolves to other
  inputs than before, the record of one input is restored for another, whatever
  evaluating that one would write (`ItemRun.OtherInputIsRestored`).
  `ItemRun.InputsDecide` is exact: for all items at once, a compile that reuses records is
  right exactly when the `n`-th time an item comes up it has the input it had then.
- `cleanup` deletes the output of a target whose name has an empty part (`a..b`), unless
  another target's directory is around it (`Install.EmptyPartIsLost`): it looks for the
  parts, and the directory is without the empty ones. `Install.OwnOutputIsKept` is exact,
  and `Install.SparedExactly` says it of every directory. A name that starts with a dot
  makes an absolute directory outside `compiled/`.
- With wildcards, a new class file must also be reported to something that knows the
  listing of `classes/`: neither `invalidate` of the file nor `invalidate_under` of a
  directory strictly below `classes/` reaches the closures that list it
  (`Forgetting.OneIsNotEnough`, `Forgetting.UnderIsNotEnough`). The daemon gives the same
  path to `invalidate_dependents` first, which does. `Forgetting.CoveringDecides` is
  exact: a change at one place can leave a stale closure exactly when no call forgets the
  place, or a file comes or goes where patterns look and no call forgets the listing.
- A relative class reference in a file directly in `classes/` also tries `classes/.yml`;
  the model keeps this.
- The editor's index and the loader disagree on keys that are not stored as they are
  written, such as `yes`; on `8080` they agree. `YamlAgree.TwoWalkersAgree` is exact for
  documents that load, and `YamlAgree.OneKeyDecides` for every single key, errors and
  `<<` included.
- A mapping with several `<<` keys: a list of maps overrides what earlier ones gave, a
  single map does not; among lists the last one wins, among maps the first
  (`YamlMerge.MappingHolds`).
- A printed key path comes back from `parse` exactly when each key is read as it is
  (`KeyPaths.DottedReturns`, and `BracketPaths.BracketsReturn` for the other form; both for
  all paths): a dot or an opening bracket in a name, a backslash before a dot, a bracket
  or `=`, a name that is a number and an empty name behind others prevent it, and the
  bracket form drops an empty name in front.
- Replacing a list as a whole (`ListMode::Replace`) is the one change the merge log does
  not mention (`MergeInPlace.ChangesAreLogged`, `MergeInPlace.ReplacedListIsNotLogged`).
  Nothing in the repository asks for it: `merge()` extends
  (`crates/krab-inventory/src/resolvers/builtin.rs:152`), and the inventory extends
  uniquely.

## Model

| member | source | states |
|---|---|---|
| Fnmatch.FnMatch | crates/krab-inventory/src/inventory.rs:920-1000 | the greedy loop that remembers only the last `*` terminates and accepts exactly when some assignment of runs to all the `*` tokens fits the name token by token |
| Fnmatch.UnfoldedIsMatches | crates/krab-inventory/src/inventory.rs:920-1000 | choosing runs for the stars is the same as the usual recursive reading of a pattern |
| Fnmatch.GreedyIsExact | crates/krab-inventory/src/inventory.rs:978-999 | from every position the loop can be in, backtracking to the last star only loses no match |
| Fnmatch.Tokenize | crates/krab-inventory/src/inventory.rs:927-968 | the tokens read from a pattern, for unclosed, negated, reversed and `]`-first bracket sets |
| Fnmatch.RangesAreTheBody | crates/krab-inventory/src/inventory.rs:948-962 | a bracket set's ranges accept exactly the characters its body lists, alone or between two ends |
| Fnmatch.SetsMean | crates/krab-inventory/src/inventory.rs:927-968 | as whole patterns, `?` accepts any one character, `[...]` one that its body lists and `[!...]` one that it does not |
| Inventories.Inventory.LoadFile | crates/krab-inventory/src/inventory.rs:433-450 | a cached file is returned as it is, a new one is remembered, an error is not; with right caches the result is what loading now gives |
| Inventories.Inventory.ResolveClassFile | crates/krab-inventory/src/inventory.rs:456-510 | the first existing candidate wins, with every path tried on the way, relative names and fallbacks included |
| ClassLoader.TryFrom | crates/krab-inventory/src/inventory.rs:484-509 | the first candidate that is a file wins; everything tried before it is not there |
| ClassNames.OrdinaryCandidates | crates/krab-inventory/src/inventory.rs:456-503 | the eight files an ordinary dotted name can be, in order, fallbacks last, whatever file includes it |
| FileNames.RelativeCandidates | crates/krab-inventory/src/inventory.rs:456-510 | the eight files a relative name can be, from any including file; in `classes/` itself and at the root a fallback looks for an extension without a name |
| FileNames.FallbackIsNotTheName | crates/krab-inventory/src/inventory.rs:484-510 | a class is found by a fallback exactly when what is found is none of the files its name stands for, and when the warning says that nothing of the name is left |
| FileNames.ClassFileIsItsClass | crates/krab-inventory/src/inventory.rs:528-549 | the name patterns see a class file under leads back to that file, and not by a fallback, `init` files included |
| FileNames.AvailableExactly | crates/krab-inventory/src/inventory.rs:528-549 | patterns see exactly the names of the YAML files below `classes/` that are not hidden |
| ClassNames.ExpansionIsExact | crates/krab-inventory/src/inventory.rs:560-585 | expansion fails exactly on a pattern without match, and otherwise lists every class some entry stands for, once |
| ClassNames.ClassListIsExpanded | crates/krab-inventory/src/inventory.rs:518-586 | a class list is left alone, or is what its entries stand for, matches in name order, the first of each name; or the first unmatched pattern is the error |
| Inventories.Inventory.ExpandClassPatterns | crates/krab-inventory/src/inventory.rs:518-586 | wildcard and reference entries become the matching class names, in order and once each, or the error of a pattern that matches nothing |
| Inventories.Inventory.ClassClosure | crates/krab-inventory/src/inventory.rs:588-597 | a memoised closure is returned as it is, a new one is remembered, and nothing is forgotten; with right caches the result is the closure built from scratch below the same stack; terminates on every finite, possibly cyclic class graph, whatever the caches hold |
| Inventories.Inventory.Build | crates/krab-inventory/src/inventory.rs:601-612 | building a closure through the caches equals building it from scratch, keeps the caches right, and caches every file of the closure, if they were right; whatever they hold, it terminates and forgets no file |
| Inventories.Inventory.BuildInner | crates/krab-inventory/src/inventory.rs:614-776 | the same for what follows once the file is loaded |
| Inventories.Inventory.DiscoverTargets | crates/krab-inventory/src/inventory.rs:302-358 | sorted target files become specs; the first repeated name is the error |
| Rendering.DiscoveryFails | crates/krab-inventory/src/inventory.rs:302-358 | discovery fails without a `targets/` directory, and at the first target in path order whose name an earlier one has |
| FileNames.TargetIsItsPath | crates/krab-inventory/src/inventory.rs:302-358 | a target is named by its path below `targets/` with dots, or by its last part, and its initial parameters get this path without the extension |
| Rendering.SpecsAreComplete | crates/krab-inventory/src/inventory.rs:302-358 | unless discovery fails, every target file has its spec |
| Rendering.SpecsAreProper | crates/krab-inventory/src/inventory.rs:302-358 | discovered names are unique and every spec is that of a target file |
| Inventories.Inventory.DigestInput | crates/krab-inventory/src/inventory.rs:821-828 | the digest loop finds every file of the closure in the cache and hashes path and digest of each |
| Inventories.Inventory.RenderTarget | crates/krab-inventory/src/inventory.rs:780-850 | with right caches, rendering equals rendering from scratch, errors included, and leaves them right, and every field of the target is what the closure and the evaluation of its parameters give; in any case an error carries the target's name and the document's digest is that of the document |
| Inventories.Inventory.Invalidate | crates/krab-inventory/src/inventory.rs:240-252 | exactly the file and the closures that read or probed it are dropped, and reported |
| Inventories.Inventory.InvalidateDependents | crates/krab-inventory/src/inventory.rs:259-272 | exactly the closures that read one of the paths, or probed a path at or above one, are dropped |
| Inventories.Inventory.InvalidateUnder | crates/krab-inventory/src/inventory.rs:275-284 | exactly the files and closures with something below the directory are dropped |
| Forgetting.SurvivorsAreFresh | crates/krab-inventory/src/inventory.rs:240-289 | a closure that survives calls that cover every difference between two trees, in whatever order, is what the new tree gives |
| Forgetting.CoveringDecides | crates/krab-inventory/src/inventory.rs:240-289 | covering is exact: for all class files at once, a change at one place can leave a stale closure exactly when the calls do not forget the place, or a listed file comes or goes and they do not forget the listing of `classes/` |
| Forgetting.OneIsNotEnough | crates/krab-inventory/src/inventory.rs:240-252 | with wildcards, `invalidate` of a new class file can leave a stale closure |
| Forgetting.UnderIsNotEnough | crates/krab-inventory/src/inventory.rs:275-284 | so can `invalidate_under` of a directory strictly below `classes/` |
| Forgetting.SurvivingFilesAreFresh | crates/krab-inventory/src/inventory.rs:240-289 | a parsed file that survives is what the new tree holds, if each difference is forgotten by some call, wildcards or not |
| Footprint.FootprintIsEnough | crates/krab-inventory/src/inventory.rs:456-776 | two trees that agree on the content of `files`, the existence of `probes` and, if probed, the names of the classes below `classes/` give the same closure with the same `files`, `probes` and `classes` |
| Footprint.StackOnlyStopsCycles | crates/krab-inventory/src/inventory.rs:601-612 | a closure builds below an include stack exactly when it builds from scratch and uses no file of the stack, and is then the same |
| Footprint.MemoHit | crates/krab-inventory/src/inventory.rs:588-597 | a memo hit equals a rebuild: nothing on the stack that led here can be in the memoised closure |
| Footprint.SucceedsIffAcyclicAndSound | crates/krab-inventory/src/inventory.rs:601-776 | loading succeeds exactly when no walk along the class graph meets an unreadable file, a class that is not found, or the same file twice |
| Footprint.FilesAreExactlyReached | crates/krab-inventory/src/inventory.rs:614-776 | the recorded files are exactly those a chain of class references reaches |
| Gathering.ClosureGathers | crates/krab-inventory/src/inventory.rs:614-776 | a closure's classes, applications and log are those of its files, each file after the classes it includes: names, lists and events concatenated in this order |
| Remarks.ClosureAccounts | crates/krab-inventory/src/inventory.rs:640-752 | its probes are exactly what its files try; its own warnings come first, every warning is one of its files, and none is dropped but for another at the same place |
| Failures.ClosureFailure | crates/krab-inventory/src/inventory.rs:640-752 | a failed load names the cause found at the end of a chain of class references, and its labels are the references of this chain, innermost first |
| Linear.ClosureMergesFiles | crates/krab-inventory/src/inventory.rs:614-776 | where merging is associative, a closure's parameters are those of its files merged one after the other, in the order they come up |
| Linear.ClosureMergesExports | crates/krab-inventory/src/inventory.rs:614-776 | and its exports are its files' exports merged in the same order |
| Linear.ShapedTreesAssociate | crates/krab-inventory/src/inventory.rs:112-114 | on trees of one shape (each key path holds one kind of value) the inventory's merge is associative and stays in the shape |
| Linear.ClosuresServeEveryTarget | crates/krab-inventory/src/inventory.rs:110-131 | so a class rendered once serves every target that includes it: a target's parameters are its files merged one after the other |
| Rendering.RenderFootprint | crates/krab-inventory/src/inventory.rs:780-850 | trees that agree on the footprint of a render give the same render |
| Rendered.TargetIsItsFiles | crates/krab-inventory/src/inventory.rs:780-850 | a rendered target has the classes, applications and merge log of its files in order, exactly the files that references reach, and the probes these files try |
| Rendered.TargetMergesAndEvaluates | crates/krab-inventory/src/inventory.rs:780-850 | where merging is associative, its parameters are those of its files merged in order into the initial ones and then evaluated, its exports are its files' exports, and the document digest is that of these |
| Rendered.TargetFailure | crates/krab-inventory/src/inventory.rs:780-832 | a target that fails to render fails in evaluation, or at the end of a chain of references, and is labelled with its name |
| Rendered.TargetDigestTells | crates/krab-inventory/src/inventory.rs:821-828 | with the same files, equal content digests mean equal texts |
| Rendered.DigestTellsPaths | crates/krab-inventory/src/inventory.rs:821-828 | among the same other files, the content digest tells one file from another with the same text |
| Rendering.UntouchedAgrees | crates/krab-server/src/state.rs:130-177 | a footprint that no changed path touches looks the same before and after the change |
| Rendering.KeptClosureIsFresh | crates/krab-inventory/src/inventory.rs:259-284 | a closure kept by both invalidations is still right |
| Daemon.StepSyncs | crates/krab-server/src/state.rs:130-177 | a batch that reports every difference leaves the specs, targets, errors and index that rendering the new tree from scratch gives |
| Daemon.IncrementalEqualsFull | crates/krab-server/src/state.rs:121-277 | the same over every run of batches after the first full render |
| Daemon.FullRenderSyncs | crates/krab-server/src/state.rs:121-126 | a full render does not depend on the state before it |
| Daemon.UnaffectedStays | crates/krab-server/src/state.rs:130-177 | a target outside the affected set keeps its spec and its render |
| Daemon.AffectedExactly | crates/krab-server/src/state.rs:144-177 | the targets rendered again are exactly those that use a path a change concerns, those that failed, and those that are new |
| Daemon.BatchLeaves | crates/krab-server/src/state.rs:193-277 | a target rendered again has the outcome of rendering it, every other one what it had |
| Daemon.BatchIsPublished | crates/krab-server/src/state.rs:193-277 | a batch publishes the next generation, each changed path, exactly the targets rendered again, and exactly their failures |
| Daemon.SelectedResults | crates/krab-server/src/state.rs:193-277 | rendering a selection gives the outcomes of rendering everything, restricted to the selected names |
| Daemon.BookkeepingIsKept | crates/krab-server/src/state.rs:193-277 | every batch keeps the index exact, targets and errors a partition of the names, and the history the gap-free last 200 generations, whatever rendering gives, so also when differences go unreported and it works from stale caches |
| Daemon.EveryRunIsBookkept | crates/krab-server/src/state.rs:193-302 | the same over every run, with another renderer in every batch, one generation per batch, and 200 of them kept |
| Daemon.WaitReturnsTheTail | crates/krab-server/src/state.rs:280-302 | a client asking for what happened after `since` gets exactly the kept generations after it |
| Server.State.RenderAll | crates/krab-server/src/state.rs:121-126 | the program leaves the state the function gives, which is that of a full render |
| Server.State.ApplyChanges | crates/krab-server/src/state.rs:130-177 | for every batch and whatever the caches hold, the new state is that of rendering the affected targets somehow, and its bookkeeping is right; when the batch reports every difference, the caches are right for the new tree, the state is that of rendering from scratch, and a synced state stays synced |
| Server.State.Rerender | crates/krab-server/src/state.rs:193-277 | withdrawing, entering, recording errors and publishing leave exactly the new state and the returned summary of what rendering gave, and keep the bookkeeping right, whatever the caches hold; with right caches, rendering gave what rendering from scratch gives |
| Server.State.RenderMany | crates/krab-server/src/state.rs:193-277 | what is reported is what rendering each selected target gave, errors in the order of the specs |
| Server.State.Forget | crates/krab-server/src/state.rs:130-150 | the two invalidations leave caches that are right for the new tree, if they were right for the old one and the batch reports every difference |
| Server.State.Changes | crates/krab-server/src/state.rs:280-302 | the loop over the history returns the generations after `since` |
| Digest.FingerprintDetermines | crates/krab-compile/src/digest.rs:50-86 | equal fingerprints mean the same file with the same mode, the same listing, or nothing there, in both trees |
| Digest.ListingDetermines | crates/krab-compile/src/digest.rs:54-71 | a listing tells which entries there are and which of them are directories |
| Digest.TreeDigestDetermines | crates/krab-compile/src/digest.rs:34-110 | equal tree digests mean the same files with the same contents and modes |
| Digest.SameTreeSameDigest | crates/krab-compile/src/digest.rs:34-110 | and equal trees have equal digests |
| DigestRun.Digests.FingerprintOf | crates/krab-compile/src/digest.rs:23-30 | a fingerprint from the table is the one computed now |
| DigestRun.Digests.Collect | crates/krab-compile/src/digest.rs:88-110 | the recursive walk lists every file below the directory outside the skipped entries, once |
| DigestRun.Digests.Tree | crates/krab-compile/src/digest.rs:34-47 | what is fed to the hash in the loop is the tree's text |
| Install.Disk.Install | crates/krab-compile/src/engine.rs:977-1006 | succeeds exactly when no file is in the way of a directory or the other way round, and then leaves exactly the fresh tree, the nested targets' directories (merged into where the fresh output has them) and a kept manifest |
| Install.Disk.MergeDirs | crates/krab-compile/src/engine.rs:1008-1023 | merging entry by entry adds exactly the moved subtree, or fails because it does not fit; nothing outside changes |
| Install.Disk.MovePath | crates/krab-compile/src/engine.rs:1025-1040 | renaming and copying leave the same |
| Install.Disk.Cleanup | crates/krab-compile/src/engine.rs:1043-1068 | the recursive walk leaves exactly what belongs to a target, is above one, or is the root manifest |
| Install.CleanupKeepsExactly | crates/krab-compile/src/engine.rs:1043-1068 | an entry survives, unchanged, exactly when it is inside a target's directory, is the root manifest, is a directory at or above such a directory, or is not below the root |
| Install.InstallSparesOthers | crates/krab-compile/src/engine.rs:963-1006 | installing one target leaves every entry of any other target's directory, nested ones included, unless the fresh output has an entry there |
| Install.InstallSparesParent | crates/krab-compile/src/engine.rs:963-1006 | installing a nested target leaves the files its parent's digest covers |
| Install.SparedExactly | crates/krab-compile/src/engine.rs:1043-1068 | cleaning up keeps every file below a directory, on every disk, exactly when some target's path, empty parts included, leads to it or above it, or it is apart from the root |
| Install.OwnOutputIsKept | crates/krab-compile/src/engine.rs:1043-1068 | a target's own output is kept exactly when its path without empty parts is at or below some target's path, if it does not start with an empty part, as its directory is then not below the root |
| TargetDirs.TargetDirIsJoined | crates/krab-compile/src/engine.rs:842-843 | a target's directory is where its path, joined to the root as text, leads, empty parts and a leading slash included |
| Install.EmptyPartIsLost | crates/krab-compile/src/engine.rs:1043-1068 | so the output of `a..b` is lost when it is the only target, and kept next to `a` |
| Readers.SameAnswersSameRun | crates/krab-compile/src/inputs/mod.rs:54-80 | a deterministic program that gets the same answers asks the same questions and writes the same output |
| Readers.RunsAgree | crates/krab-compile/src/inputs/mod.rs:54-80 | in one world a program has one run |
| Staleness.UpToDateIsSound | crates/krab-compile/src/engine.rs:821-960 | when nothing contradicts a record, compiling again asks the same questions and writes the same output; installing it leaves the files outside nested targets as they are exactly when the output below nested targets is still below nested targets, and leaves every entry, directories included, exactly when moreover the directories there are those of the output |
| Staleness.RecordCoversQuestions | crates/krab-compile/src/engine.rs:846-877 | every question of the recorded run still has its answer; where all targets were read, between inventories with the same target names |
| Staleness.RecordStandsExactly | crates/krab-compile/src/engine.rs:846-960 | a record stands exactly when compiler, settings and own document are the same, the paths read or probed look the same, the other documents read are the same, and the target's own files are those that were left |
| Staleness.RefusalIsExact | crates/krab-compile/src/engine.rs:828-841 | a compile is refused as incomplete exactly when a document of a target that failed to render could change an answer it had |
| Staleness.EverythingIsListed | crates/krab-compile/src/engine.rs:257-258 | the digest of everything is the same exactly when the documents in name order are |
| Staleness.EverythingDetermines | crates/krab-compile/src/engine.rs:257-258 | where it is the same, the documents are the same exactly when the target names are |
| Staleness.NamedDocumentsDetermine | crates/krab-inventory/src/model.rs:12-49 | among documents that hold their targets' names it is the same exactly when the documents are |
| Staleness.RenamingIsNotSeen | crates/krab-compile/src/engine.rs:257-258 | of any document, it does not tell which of two targets it is; at most one of the two is named in it |
| Staleness.NestedOutputCanBeLost | crates/krab-compile/src/engine.rs:950-958 | a concrete record that nothing contradicts although compiling again would write a missing file |
| Staleness.EmptyDirectoryCanBeLost | crates/krab-compile/src/digest.rs:88-110 | and one although compiling again would make a missing directory |
| Staleness.InstalledTree | crates/krab-compile/src/engine.rs:977-1006 | a target's own tree after an install is its fresh files and a kept manifest |
| Engine.WhyStale | crates/krab-compile/src/engine.rs:899-960 | no reason exactly when the record stands; otherwise a reason that is true, with everything checked before it unchanged |
| Engine.Compiler.InstallAndRecord | crates/krab-compile/src/engine.rs:821-896 | an incomplete inventory is refused before anything changes; otherwise the output is installed and the manifest gets exactly the record of what was read, as it is after the install |
| Engine.Compiler.RecordDeps | crates/krab-compile/src/engine.rs:847-862 | the loops record a fingerprint for exactly the paths read or probed below the repository |
| Engine.RecordGlobals | crates/krab-compile/src/engine.rs:863-875 | `*` alone, or exactly the other known targets read |
| CompileRun.RecordIsFresh | crates/krab-compile/src/engine.rs:821-960 | a target just compiled is up to date |
| CompileRun.InstallKeepsStanding | crates/krab-compile/src/engine.rs:821-960 | installing one target leaves the records of all others standing |
| CompileRun.CleanUpKeepsStanding | crates/krab-compile/src/engine.rs:490-500 | so does cleaning up, on disk and in the manifest |
| CompileRun.SecondRunCompilesNothing | crates/krab-compile/src/engine.rs:295-500 | after the stale targets are compiled and leftovers cleaned up, every target is up to date; the very first run, without `compiled/`, included |
| Items.ReusedItemIsTheSame | crates/krab-compile/src/native.rs:213-267 | an item whose record nothing contradicts, written the same way, would read and write the same and get the same record; what is copied is what it would write; target names matter only if it read all targets |
| Items.WritingDecides | crates/krab-compile/src/native.rs:387-420 | for all items at once, reuse is right exactly when the document's writing settings are unchanged |
| Items.StyleIsNotSeen | crates/krab-compile/src/native.rs:130-147 | a record with no reads holds for two documents that are written differently |
| Items.ReusedReadsAreRecorded | crates/krab-compile/src/native.rs:218-224 | what a reused item reports as read gives the target the record that evaluating it gives |
| Items.DocKeyIsCovered | crates/krab-compile/src/native.rs:371-382 | equal digests of the recorded parts mean the same answer to every document question, with `*` collapsing the rest |
| Items.DocReadsAreExact | crates/krab-compile/src/native.rs:371-382 | on the documents themselves: the recorded digests hold exactly when the value at `parameters` and `k` is the same for every `parameters.k` read, the member `k` for every other `k`, and everything for `*` |
| Items.ItemStandsExactly | crates/krab-compile/src/native.rs:387-420 | an item's record stands exactly when these parts, the paths and the other documents read are the same and its output is what it wrote |
| Items.SecretsAreNotSeen | crates/krab-compile/src/native.rs:130-147 | nor does a record with no reads notice other secrets |
| ItemRun.Compile.Reusable | crates/krab-compile/src/native.rs:387-420 | the first unmatched record of the digest is matched, used or not, and returned exactly when nothing contradicts it |
| ItemRun.Compile.RestoreOutputs | crates/krab-compile/src/native.rs:422-436 | exactly the recorded outputs are copied over what is there |
| ItemRun.Compile.WriteOutputs | crates/krab-compile/src/native.rs:228-262 | files are written in order, and the last content of each path is recorded |
| ItemRun.Compile.Units | crates/krab-compile/src/native.rs:210-267 | the loop over items and inputs leaves the state the function gives |
| ItemRun.ReuseIsEvaluation | crates/krab-compile/src/native.rs:213-267 | a compile that reuses records leaves the files, overwritten ones included, and the records of evaluating every item, ready for the next run |
| ItemRun.ReusedExactly | crates/krab-compile/src/native.rs:213-267 | the items counted as reused are exactly those of which the record of the same occurrence stands |
| ItemRun.MatchStep | crates/krab-compile/src/native.rs:393-398 | a record is matched exactly when it is that of the same occurrence of the same item, whatever inputs the items had |
| ItemRun.SameResolutionMatches | crates/krab-compile/src/native.rs:393-398 | when each item resolves to the inputs it had, matching by digest and position pairs equal inputs |
| ItemRun.OtherInputIsRestored | crates/krab-compile/src/native.rs:387-436 | an item that had one input and now has another gets the first one's files back, and the compile is right only if both write the same |
| ItemRun.InputsDecide | crates/krab-compile/src/native.rs:387-436 | for all items at once, reusing records leaves the files and records of evaluating everything exactly when every occurrence of an item has the input it had |
| PythonEq.Reflexive | crates/krab-inventory/src/value.rs:149-176 | a value equals itself exactly when it holds no NaN |
| PythonEq.Symmetric | crates/krab-inventory/src/value.rs:149-176 | equality is symmetric, order-insensitive maps and mixed numbers included |
| PythonEq.Transitive | crates/krab-inventory/src/value.rs:149-176 | and transitive, without any assumption |
| PythonEq.EqualsExactly | crates/krab-inventory/src/value.rs:149-176 | numbers compare by value across types, `true` as one; null and strings equal only themselves, containers only their kind |
| PythonEq.MapsEqualByKey | crates/krab-inventory/src/value.rs:149-176 | maps are equal exactly when they have the same keys and equal values under each |
| PythonEq.IntegersCollide | crates/krab-inventory/src/value.rs:169-176 | a 64-bit integer equals no other one exactly when its magnitude is below 2^53, or below 2^54 and two more than a multiple of four |
| PythonEq.SmallIntegersAreExact | crates/krab-inventory/src/value.rs:169-176 | integers of magnitude up to 2^53 are equal only when they are the same |
| Merging.Associativity | crates/krab-inventory/src/merge.rs:95-160 | merging three trees does not depend on the order, origins, key order and list order included, exactly when no container is first replaced by something and then merged into, except where it gives way |
| Merging.GivesWayExactly | crates/krab-inventory/src/merge.rs:95-160 | a tree gives way to another, a condition on origins, keys and items, exactly when merging the other over it leaves nothing of it |
| Merging.AgreeingTreesAssociate | crates/krab-inventory/src/inventory.rs:112-114 | merging is associative when kinds agree at every shared path |
| Merging.ReplacedListComesBack | crates/krab-inventory/src/inventory.rs:112-114 | a list, null and a list again is a counterexample |
| Merging.MissingIsIdentity | crates/krab-inventory/src/merge.rs:156-157 | `???` leaves what it meets and gives way to what meets it |
| Merging.MergedKeys | crates/krab-inventory/src/merge.rs:105-116 | old keys stay where they are, new ones follow in their order |
| Merging.MergedAt | crates/krab-inventory/src/merge.rs:105-116 | under each key the two values are merged |
| Merging.AppendsExactly | crates/krab-inventory/src/merge.rs:122-135 | a unique-extended list is the old one and then items of the new one that nothing before them equals; no item of the new one is left unrepresented |
| Merging.AppendNewAssociates | crates/krab-inventory/src/merge.rs:117-135 | unique-extending is associative for every transitive equality |
| Merging.MergedIsProper | crates/krab-inventory/src/merge.rs:95-160 | keys stay unique everywhere |
| MergeInPlace.Merger.MergeAt | crates/krab-inventory/src/merge.rs:95-160 | terminates, placeholders expanded or not; changes only the subtree at the path; whatever is gone is at or below a logged path; what is there then and what is logged is the run that `Expanding` is about |
| MergeInPlace.Merger.Expand | crates/krab-inventory/src/merge.rs:136-155 | the same when a container meets a placeholder |
| Expanding.ExpandsFirst | crates/krab-inventory/src/merge.rs:95-160 | a merge that expands placeholders, nested ones included, is the plain merge into the tree in which the placeholders that containers meet are replaced by what they stand for, and apart from their events its log is the log of that merge |
| Expanding.PlaceholderIsFilled | crates/krab-inventory/src/merge.rs:136-155 | a placeholder that stands for a container becomes that container with what met it merged in, and is logged before the changes |
| Expanding.NothingExpands | crates/krab-inventory/src/merge.rs:95-160 | where no placeholder stands for a container it is the plain merge and its log |
| Expanding.ChangesAreTrue | crates/krab-inventory/src/merge.rs:95-179 | every change that is logged tells what was there after expanding, and what is there now |
| Expanding.DereferencesAreTrue | crates/krab-inventory/src/merge.rs:141-151 | every expansion that is logged put a container where a placeholder was written |
| Expanding.MergeWithMode | crates/krab-inventory/src/merge.rs:83-93 | the whole merge: the run at the root, the plain merge into the expanded tree, with every loss logged |
| MergeInPlace.Merger.ReplaceDest | crates/krab-inventory/src/merge.rs:162-179 | the node at the path is replaced and the replacement logged |
| MergeInPlace.GetSet | crates/krab-inventory/src/merge.rs:182-208 | reading a path after writing it gives what was written |
| MergeInPlace.SetElsewhere | crates/krab-inventory/src/merge.rs:182-208 | writing a path changes no place apart from it |
| MergeInPlace.ChangesAreLogged | crates/krab-inventory/src/merge.rs:95-179 | a scalar or list that is no longer what it was is at or below a logged path, or, in the mode that replaces lists, in a list that replaced a list |
| MergeInPlace.EventsAreTrue | crates/krab-inventory/src/merge.rs:95-179 | every logged event tells what was there, and the origin of what is there now |
| MergeInPlace.ReplacedListIsNotLogged | crates/krab-inventory/src/merge.rs:118-121 | a list replaced as a whole is that one exception, in a mode no caller asks for |
| Distance.Distance | crates/krab-inventory/src/classfile.rs:29-44 | the one-row loop returns the length of a shortest insert, delete and substitute script |
| Distance.NextRow | crates/krab-inventory/src/classfile.rs:32-42 | the row is overwritten by the next one in place |
| Distance.Symmetric | crates/krab-inventory/src/classfile.rs:29-44 | the distance is symmetric |
| Distance.Triangle | crates/krab-inventory/src/classfile.rs:29-44 | it satisfies the triangle inequality |
| Distance.ZeroMeansEqual | crates/krab-inventory/src/classfile.rs:29-44 | it is zero exactly for equal strings |
| YamlLoader.BuildsTheMeaning | crates/krab-inventory/src/yaml.rs:106-212 | of the events of one node, whatever follows, the loader makes what they mean, errors, anchors and merge keys included, and stops right after them |
| YamlLoader.BuildReadsOneNode | crates/krab-inventory/src/yaml.rs:106-212 | when it succeeds, what it read was exactly one well-nested node |
| YamlLoader.OneDocumentIsItsMeaning | crates/krab-inventory/src/yaml.rs:42-79 | a stream of one document is that document |
| YamlLoader.DocumentsAreTheirMeanings | crates/krab-inventory/src/yaml.rs:42-79 | a stream of documents is their meanings in order, null for an empty one, none knowing another's anchors; where one is wanted, a second one with content is the error |
| YamlLoader.ScalarsMean | crates/krab-inventory/src/yaml.rs:280-318 | quoted scalars and those tagged as strings are their text, and tags other than the core ones are errors |
| YamlMerge.MappingHolds | crates/krab-inventory/src/yaml.rs:143-242 | the node built of a mapping holds under each key the last value of its own, else that of the last `<<` list that has the key, first map first, else that of the first `<<` map; its keys are in the order in which they first come, merged ones first; and it fails exactly when something in it does or a `<<` is neither a map nor a list of maps |
| YamlMerge.SequenceHolds | crates/krab-inventory/src/yaml.rs:123-142 | a sequence is the list of what its items mean, in order |
| YamlMerge.CollectionTags | crates/krab-inventory/src/yaml.rs:258-278 | a collection with a tag that is not its own is an error, whatever is in it |
| YamlMerge.BuildsProper | crates/krab-inventory/src/yaml.rs:143-242 | in every tree that is built each key comes once |
| YamlMerge.AnchorsStand | crates/krab-inventory/src/yaml.rs:106-212 | after a node its anchor stands for it, and every anchor that is not in it for what it stood for before; those of keys are not kept |
| YamlLoader.Loader.BuildNode | crates/krab-inventory/src/yaml.rs:106-212 | the loops over events and the anchor table do what the function says |
| YamlLoader.ParseStream | crates/krab-inventory/src/yaml.rs:42-79 | the loop over the stream gives the documents, or the error of a second one |
| YamlIndex.Parse | crates/krab-lsp/src/yaml_index.rs:50-114 | the loop with its explicit stack is the walk event by event |
| YamlIndex.WalkNode | crates/krab-lsp/src/yaml_index.rs:50-130 | walking over a node adds that node's entries and takes its key; stack and path are as before |
| YamlAgree.TwoWalkersAgree | crates/krab-lsp/src/yaml_index.rs:50-130 | for a document that loads, with unique keys, no aliases and no `<<`, the index lists exactly the scalars of the loaded tree, with their paths and positions, in order, exactly when every key with a scalar below it is stored as it is written |
| YamlAgree.OneKeyDecides | crates/krab-inventory/src/yaml.rs:152-160 | for every key whatever, the two agree on one scalar below it exactly when the key resolves, is no `<<`, and is stored as it is written |
| YamlAgree.StringKeysPrint | crates/krab-inventory/src/yaml.rs:152-160 | keys that are strings always are |
| JsonText.RoundTrip | crates/krab-inventory/src/pyfmt.rs:9-76 | a reader of the RFC 8259 grammar recovers every float-free value |
| JsonText.PrintingIsInjective | crates/krab-inventory/src/pyfmt.rs:9-76 | different values print differently |
| JsonText.StringComesBack | crates/krab-inventory/src/pyfmt.rs:55-76 | strings come back, escapes and all |
| JsonText.PairComesBack | crates/krab-inventory/src/pyfmt.rs:66-71 | characters above U+FFFF are printed as the right surrogate pair |
| JsonText.DumpIsAscii | crates/krab-inventory/src/pyfmt.rs:9-76 | the output is printable ASCII |
| JsonText.CollectionsAreJoined | crates/krab-inventory/src/pyfmt.rs:15-53 | items and members are joined by a comma and a space, keys and values by a colon and a space |
| JsonText.CharForms | crates/krab-inventory/src/pyfmt.rs:55-76 | a character is itself, one of seven short escapes, or units of four hex digits |
| JsonText.JsonWriter.Write | crates/krab-inventory/src/pyfmt.rs:15-53 | the recursion and loops append exactly the printed value |
| JsonText.JsonWriter.WriteString | crates/krab-inventory/src/pyfmt.rs:55-76 | the loop appends exactly the escaped string |
| KeyPaths.RoundTrip | crates/krab-inventory/src/path.rs:93-191 | parsing either printed form returns the path, if its keys are read as they are, indices included |
| KeyPaths.DottedReturns | crates/krab-inventory/src/path.rs:93-191 | for every path: the dotted form comes back exactly then |
| BracketPaths.BracketsReturn | crates/krab-inventory/src/path.rs:93-191 | for every path, indices and all: so does the bracket form, except behind a leading empty key |
| BracketPaths.TokensArePlain | crates/krab-inventory/src/path.rs:139-191 | whatever the text, no token of it holds a backslash that would escape something |
| KeyPaths.SplitsBack | crates/krab-inventory/src/path.rs:139-191 | texts joined by dots are split into themselves exactly when each one is read as it is, brackets, backslashes and `=` included |
| KeyPaths.SplitKey | crates/krab-inventory/src/path.rs:139-191 | the loop with its flags gives the tokens, for escapes and unbalanced brackets too |
| KeyPaths.ToOmegaConf | crates/krab-inventory/src/path.rs:105-123 | the loop appends each key in its form |
| KeyPaths.RootDoesNotComeBack | crates/krab-inventory/src/path.rs:93-191 | the root prints as a single empty key |
| Normalise.NormaliseJoin | crates/krab-compile/src/fetch.rs:179-200 | the loop gives the normal form |
| Normalise.NormalFormIsThePlace | crates/krab-compile/src/fetch.rs:179-200 | `..` is left only as a leading run of a relative path, and the normal form leads where the components lead, from every directory |
| Normalise.SameFormIffSamePlace | crates/krab-compile/src/fetch.rs:179-200 | two paths have the same normal form exactly when they lead to the same place from everywhere |
| Normalise.NormalisingTwice | crates/krab-compile/src/fetch.rs:179-200 | normalising the normal form's text changes nothing |
| Normalise.SafeJoin | crates/krab-compile/src/oci.rs:196-218 | succeeds exactly for relative paths that never climb above the root at any prefix and end strictly below it, and the result is strictly below the root |
| Normalise.SafeJoinNormalises | crates/krab-compile/src/oci.rs:196-218 | on a normalised root it agrees with `normalise_join` |
| Normalise.OutputAcceptedExactly | crates/krab-compile/src/plan.rs:92-106 | an `output_path` is accepted exactly when it ends in the target's directory, wherever one starts; target paths with empty parts included |

## Left out

- Symbolic links and directory aliases in the daemon; `expand_aliases` only drops repeated paths.
- Sockets, threads, parallel rendering and compiling, timeouts, the condition variable of `wait_for`, process spawning, restart when a registry source changes.
- Secrets, reference back ends, fetching of dependencies, registries and charts.
- The `${...}` parser and evaluator, resolvers, YAML emitters: uninterpreted functions.
- Floats: `py_float_repr` and `parse_float`; numbers have an equality by value only.
- Other input types than kadet: a target's compile is any deterministic reader program.
- Times in records and events, wording of diagnostics (their kinds are kept), order of removed paths reported by `cleanup`.
- Unreadable directories and files: a path is a file, a directory or nothing.
- The Python process that evaluates kadet items and records reads: its reports are taken as complete.
- Engine.WhyStale: which one of several changed dependencies is named first is left open.
- Engine.Compiler.InstallAndRecord: what a failed install leaves half done on disk is not stated, and saving the manifest file cannot fail.
- Install.Disk.Install: what a failed install leaves half done on disk is not stated beyond that it is still a tree.
- Staleness.UpToDateIsSound: that the second install would succeed is not part of the claim.
- CompileRun.SecondRunCompilesNothing: for target names without empty parts, and runs in which every stale target compiles and installs, no compile reads inside `compiled/`, and none writes into another target's directory.
- Items.ReusedItemIsTheSame: for items that read their own document as such, which is how the recorder reports it.
- ItemRun.ReuseIsEvaluation: for compiles without failed items; a directory in the way of a written file is not modelled.
- Linear.ClosuresServeEveryTarget: for parameters of one shape, and merges in which no placeholder is expanded.
- Merging.Associativity: for merges in which no placeholder meets a container that it could expand to.
- MergeInPlace.ChangesAreLogged: for paths of map keys, where logged paths are.
- MergeInPlace.EventsAreTrue: of the plain merge; Expanding.ChangesAreTrue has the one that expands.
- Expanding.ExpandsFirst: for sources in which each key comes once, as in every map of the program.
- YamlIndex.Parse: of each event only the start position is kept.
- YamlLoader.Loader.BuildNode: plain scalars and the core tags other than `str` and `null` resolve by an uninterpreted function.
- JsonText.RoundTrip: floats print by an uninterpreted function.
- Normalise.NormaliseJoin: Unix paths only, on a tree without links.
