# Buildx: a model of its resolvers, protocols and text forms

Buildx reads bake definition files, works out what each target means, talks to a remote
controller and keeps builder instances. This project models the parts of it that are hard
to see through by reading, and proves for all inputs, all runs and all orders what they
promise.

- **Bake definition files** (`HclModel`, `HclSound`, `HclRules`, `HclParser`, `HclMeaning`). A file gives
  every variable, function, global attribute and block attribute one defining equation. The
  resolver is a class with the fields that the Go parser updates; its methods follow the Go
  methods call by call and leave open in which order Go maps are visited. A run reports no
  error exactly when the references are acyclic and the equations have a solution, its values
  are then the one solution, and two runs agree whatever their orders were. What a solution
  gives to each name, with the environment, is said without the equations.
- **Groups, links and inheritance** (`Groups`, `Links`, `Targets`, `Overrides`, `Inherits`,
  `Matrix`, `Slices`). Memoised depth-first walks with in-progress placeholders, compared
  with reachability, least closures and unmemoised definitions; in-place deduplication; the
  expansion of a matrix.
- **Entitlement paths** (`Paths`, `EvalPath`, `DedupPaths`). Following symbolic links as far
  as a path exists, on strings, against a simple walk on components; dropping paths that lie
  below others.
- **Protocols** (`StreamMux`, `Sessions`). Two senders and a receiver on one stream, and
  overlapping builds on sessions, as step systems: the results hold over every run.
- **Log lines** (`VertexLogs`). Chunks of interleaved streams put together into lines, against
  a machine that takes one character at a time.
- **Builder instances** (`NodeGroups`) and **settings as text** (`CsvLine`, `Csv`, `Exports`, `Caches`,
  `SshKeys`, `Attests`): invariants over all commands, and round trips with the exact
  condition under which printing and reading is the identity.

`Common`, `Graphs` and `Texts` hold what several modules share. An object that the Go code
changes in place is a class here; each of its methods is proved against a function on values
or against the promise itself, and the lemmas are about those functions.

Where the code does not meet what one would expect of it, the code is kept, an example shows
the difference and the exact condition is proved: names of nodes that differ only in case
(`NodeGroups.UpdateKeepsNames`), session identifiers that are used again while an old build
still runs (`Sessions.StepKeepsInv`), override keys that differ only behind a dot
(`Overrides.OrderFree`), empty log chunks (`VertexLogs.EmptyChunksHarmless`), registry
references that are empty or hold an equals sign (`Caches.ReadAgain`), values with commas that
were read between quotes (`Exports.RoundTrip`), names that run on from an allowed path
(`DedupPaths.ParentTest`).

## Model

| member | source | states |
|---|---|---|
| `HclModel.Admit` | bake/hclparser/hclparser.go:592-686 | variables, functions and attributes named like a block type or a built-in variable are dropped, and so is an attribute named "function"; all others stay as they are |
| `HclModel.RhsLocal` | bake/hclparser/hclparser.go:90-169 | an equation does not notice values outside the dependencies that are loaded for it |
| `HclModel.Forced` | bake/hclparser/hclparser.go:249-324 | values that satisfy their equations along an order with dependencies first agree with every solution of the file |
| `HclModel.SolutionUnique` | bake/hclparser/hclparser.go:592-876 | a file whose keys can be ordered has at most one solution |
| `HclSound.SoundOrder` | bake/hclparser/hclparser.go:173-324 | the finishing log lists every key once, after its dependencies |
| `HclSound.SoundHolds` | bake/hclparser/hclparser.go:249-324 | the equation of a finished key holds in the final environment, not only when it was stored |
| `HclSound.SoundForced` | bake/hclparser/hclparser.go:249-324 | values worked out so far agree with every solution of the whole file |
| `HclSound.StuckMeansNoSolution` | bake/hclparser/hclparser.go:249-324 | if an evaluation fails after its dependencies were loaded, the file has no solution |
| `HclSound.FinishedMeansAcyclic` | bake/hclparser/hclparser.go:702-870 | when all keys are finished, each was finished exactly once and nothing is cyclic |
| `HclSound.FinishedMeansSolved` | bake/hclparser/hclparser.go:702-870 | when all keys are finished, the environment is the only solution |
| `HclRules.MetAgain` | bake/hclparser/hclparser.go:184-187 | meeting a key that is marked but not finished lies on a real cycle, although marks are never cleared |
| `HclRules.IllFormed` | bake/hclparser/hclparser.go:189-230 | a function without result or parameters, or with an unnamed parameter, makes the file unsolvable |
| `HclRules.ReadyKept` | bake/hclparser/hclparser.go:438-475 | storing one decoded attribute does not change what the others of its block were decoded to |
| `HclRules.RunDecides` | bake/hclparser/hclparser.go:592-876 | a run without errors finished every key once in dependency order; with total evaluation a cycle is reported if and only if there is one; with unique labels there is no error if and only if the file is acyclic and solvable, and the values are then the only solution |
| `HclRules.OrderDoesNotMatter` | bake/hclparser/hclparser.go:697-870 | two runs over the same file agree on success and on every value, whatever the orders of map iteration |
| `HclParser.Parser.ResolveValue` | bake/hclparser/hclparser.go:249-324 | ends for every file; where all names are defined, the value is stored on success and every error it reports is a true statement about the file; what the value is, `HclMeaning.GivenValue`, `HclMeaning.NoDefault` and `HclMeaning.BuiltinValue` say |
| `HclParser.Parser.ResolveFunction` | bake/hclparser/hclparser.go:173-245 | the same for functions; undefined only if neither defined nor in the standard library |
| `HclParser.Parser.LoadDeps` | bake/hclparser/hclparser.go:90-169 | ends for every file; where all names are defined, on success all dependencies of the expression are finished |
| `HclParser.Parser.ResolveTarget` | bake/hclparser/hclparser.go:329-475 | ends for every file; where all names are defined, one attribute of a block is decoded ahead of the others, after its dependencies, or a true cycle is reported |
| `HclParser.Parser.ResolveRest` | bake/hclparser/hclparser.go:329-475 | ends for every file; where all names are defined, what is left of a block is decoded without decoding anything twice |
| `HclParser.Parser.Parse` | bake/hclparser/hclparser.go:592-876 | the resolution loops end in every order of visiting; where all names are defined, their errors and values are such that `RunDecides` applies |
| `HclMeaning.InputsSeen` | bake/hclparser/hclparser.go:90-169 | in every solution an expression sees exactly the values and block attributes it names, and the functions it calls, the standard library first |
| `HclMeaning.SeenOnce` | bake/hclparser/hclparser.go:90-169 | there is only one thing to see, so the following determine the values |
| `HclMeaning.GivenValue` | bake/hclparser/hclparser.go:268-322 | in every solution a global attribute, or a variable with a default, is what its expression gives; a variable that the environment sets is the text of the environment for a string or an unknown type, what the text reads as for a truth value or a number, and a solution excludes other types |
| `HclMeaning.NoDefault` | bake/hclparser/hclparser.go:268-285 | a variable without default is the text of the environment, or empty |
| `HclMeaning.BuiltinValue` | bake/hclparser/hclparser.go:268-285 | a built-in variable has the value of its option, whatever the environment holds |
| `HclMeaning.BlockValue` | bake/hclparser/hclparser.go:329-475 | an attribute of a block is what its expression gives and is never overridden |
| `HclMeaning.FunctionValue` | bake/hclparser/hclparser.go:173-245 | a function has a result and named parameters, and means what its result gives with the parameters left open |
| `HclMeaning.ParseFile` | bake/hclparser/hclparser.go:592-876 | a run on a new parser reports no error if and only if the file is acyclic and solvable, and its values are then the solution of which the rows above speak |
| `Slices.DedupSlice` | bake/bake.go:256-269 | the first occurrences in order |
| `Slices.FirstsElems` | bake/bake.go:256-269 | first occurrences have the same elements and no repetition |
| `Slices.FirstsInOrder` | bake/bake.go:256-269 | kept elements come in the order in which they first occur |
| `Slices.FirstsAbsorb` | bake/bake.go:256-269 | appending elements that are already there adds nothing |
| `Slices.RemoveDupesStr` | bake/bake.go:1445-1460 | in place: kept elements move to the front, the rest of the array still holds what it held |
| `Slices.KeptFacts` | bake/bake.go:1445-1460 | exactly the non-empty elements are kept, each once |
| `Slices.CompactAgain` | bake/bake.go:740-757 | a slice that still sees the whole compacted array compacts to the same sequence and moves nothing |
| `Slices.RemoveDupes` | util/buildflags/utils.go:12-34 | for every equivalence: a permutation of the array whose kept prefix has no two equal elements and covers every input |
| `Slices.SwapAndChop` | util/buildflags/utils.go:20-31 | exchanging a duplicate with the last element and chopping it keeps uniqueness and coverage |
| `Slices.RemoveAttestDupes` | util/buildflags/attests.go:257-269 | slots are overwritten through the index map as the specification says |
| `Slices.KeptAttestsFacts` | util/buildflags/attests.go:257-269 | one entry per type, in order of first appearance, each the last one given for its type |
| `Groups.GroupWalk.Expand` | bake/bake.go:603-633 | ends for every graph and does what the memoised search does as a function; `Groups.WalkWell` says what that finds |
| `Groups.FindFirst` | bake/bake.go:607-613 | of several groups with a name the first counts |
| `Groups.WalkWell` | bake/bake.go:603-633 | whatever was met before: what the search returns is reachable, and complete but for groups that are still being walked |
| `Groups.PathDoesNotMatter` | bake/bake.go:603-633 | without cycles, what a name stands for in a search without memory does not depend on the way taken to it |
| `Groups.WalkIsFlat` | bake/bake.go:603-633 | without cycles, the search with memory and placeholders lists what the search without them lists, in the same order and equally often |
| `Groups.RootComplete` | bake/bake.go:593-633 | from the root nothing reachable is missing, in spite of the placeholders |
| `Groups.CycleReported` | bake/bake.go:603-633 | a group that is not empty shows up among the targets if and only if the root reaches a cycle of groups |
| `Groups.ResolveGroup` | bake/bake.go:593-596 | groups are exactly the reachable groups; the other names returned are exactly the reachable ones that are no group; a group among the targets is empty or on a cycle; nothing is listed twice; without cycles both lists are the first occurrences in the search without memory |
| `Links.MergeEntitlements` | bake/bake.go:510-515 | missing entitlements are appended in order |
| `Links.IsSubset` | bake/bake.go:1549-1556 | true if and only if every element of the first list is in the second |
| `Links.LinkMeans` | bake/bake.go:483-484 | a context names a target if and only if it is "target:" followed by its name |
| `Links.PlatformsMeans` | bake/bake.go:517-521 | only targets for several platforms are compared, and then all platforms of the user must be offered |
| `Links.Linker.LoadLinks` | bake/bake.go:480-525 | ends; succeeds if and only if no link cycle is reachable, every linked name resolves and every reachable link between multi-platform targets fits; then the target is settled |
| `Links.Linker.LinkAll` | bake/bake.go:247-251 | succeeds if and only if all targets do; then exactly the reachable targets are loaded, entitlements are the least closure over links, exactly the targets pulled in are marked linked with one cacheonly output, and on a settled map nothing changes |
| `Links.FreshConsistent` | bake/bake.go:210-231 | targets fresh from resolution are a state from which linking may start |
| `Targets.MergeAssociative` | bake/bake.go:769-861 | merging three targets does not depend on which two are merged first |
| `Targets.TargetObject.Merge` | bake/bake.go:769-861 | the target becomes its merge with the other, field kind by field kind |
| `Targets.MergeEntries` | bake/bake.go:779-802 | a set value of the second map replaces that of the first |
| `Targets.MergeContexts` | bake/bake.go:788-793 | contexts of the second target win |
| `Overrides.ApplyCommutes` | bake/bake.go:863-1017 | two overrides that set different things, or the same thing alike, can be exchanged |
| `Overrides.AnyLast` | bake/bake.go:866-1015 | among overrides of which no two disagree, any one may be the last |
| `Overrides.AddOverrides` | bake/bake.go:863-1017 | fails if and only if some key is unknown, lacks its name or has a value that cannot be read; otherwise the target is that of applying the entries in the order visited |
| `Overrides.ValidMeans` | bake/bake.go:863-1017 | which entries are refused |
| `Overrides.CanonMeans` | bake/bake.go:980-1000 | truth values are kept in their plain spelling, other single values as given |
| `Overrides.OrderFree` | bake/bake.go:866-1015 | every order of the map gives the same target if and only if no two keys set the same thing differently, told by their part in front of the first dot and their values |
| `Overrides.KeysOfLists` | bake/bake.go:963-979 | the keys that add entitlements and annotations |
| `Overrides.KeysOfRun` | bake/bake.go:988-993 | the keys of shared memory, network and limits |
| `Overrides.KeysOfCaching` | bake/bake.go:980-1000 | the keys of no-cache, its filter and pull |
| `Overrides.SuffixIgnored` | bake/bake.go:868-870 | outside args, labels and contexts, what stands behind the first dot of a key is not looked at |
| `Overrides.NamedApart` | bake/bake.go:874-897 | two keys that set the same argument, label or context are the same key |
| `Overrides.ContextClash` | bake/bake.go:866-871 | with the keys "context" and "context.x" and different values, the order of the map decides, for every target |
| `Overrides.NormalizeIdempotent` | bake/bake.go:740-767 | normalising twice is normalising once |
| `Inherits.PathDoesNotMatter` | bake/bake.go:652-687 | on an acyclic graph a definition does not depend on the way taken to the target |
| `Inherits.Resolver.Resolve` | bake/bake.go:652-687 | ends for every graph; on an acyclic one the memory always holds the unmemoised definitions |
| `Inherits.ResolveTarget` | bake/bake.go:635-650 | on an acyclic graph: an error exactly when the target is undefined; otherwise every setting of the definition that is set stays, an unset context is "." and an unset Dockerfile "Dockerfile", nothing is inherited any more, and the target shows for each setting its override, else its own value, else that of the last parent that sets it, else the default, and for each appended list those of the parents in order, its own and the overrides, without repetitions |
| `Inherits.FindFirst` | bake/bake.go:657-663 | of several targets with a name the first counts |
| `Inherits.MergeShowsLast` | bake/bake.go:668-676 | merged parents show the value of the last one that sets it |
| `Inherits.DefinedLists` | bake/bake.go:667-684 | annotations, entitlements, cache filters and limits of a definition are those of all parents in order, then its own; overrides add to the first two and replace the others; host networking adds its entitlement; empty and repeated elements go |
| `Inherits.KeySets` | bake/bake.go:866-999 | an override under the key of a setting sets it and no other, for every setting that has a key |
| `Inherits.LookOverridden` | bake/bake.go:863-1017 | a setting shows its last override if it has one and stays as it was otherwise |
| `Inherits.Precedence` | bake/bake.go:667-684 | override over own value over parents, for single values, arguments, labels, contexts, tags and platforms; then lists are cleaned and an empty context erases what a parent set |
| `Inherits.LaterParentWins` | bake/bake.go:668-676 | among parents the last one that sets a value decides |
| `Inherits.NoParentSets` | bake/bake.go:668-676 | a value that no parent sets is not set |
| `Inherits.DefinedAnyOrder` | bake/bake.go:652-687 | if no overrides of a target disagree, definitions do not depend on the order in which overrides are visited |
| `Matrix.GetEvalContexts` | bake/bake.go:1032-1080 | an error exactly when some value is no list; otherwise each assignment of all keys occurs once for every way to choose it, and nothing else occurs |
| `Matrix.ExpandedOccurs` | bake/bake.go:1057-1079 | how often each assignment occurs |
| `Matrix.ExpandedKeys` | bake/bake.go:1057-1079 | every context assigns all keys, and there are as many as the lengths multiply to |
| `Matrix.ExpandedIsProduct` | bake/bake.go:1057-1079 | the contexts are the elements of the Cartesian product |
| `Matrix.OrderDoesNotMatter` | bake/bake.go:1058-1078 | the same contexts, equally often, for every order of the keys |
| `EvalPath.EvaluateToExistingPath` | bake/entitlements.go:541-655 | ends (links left, then unread input) and agrees with the walk on components: the same error, or a path to the same place and the same rest; every component of the path other than ".." exists and is not a link; without a rest the path is clean |
| `EvalPath.WalkEnds` | bake/entitlements.go:541-655 | everything on the way to where a walk ends exists and is no link; a rest begins with a component that is missing in the directory reached |
| `EvalPath.WalkNormal` | bake/entitlements.go:541-655 | a walk ends at a place without dots |
| `EvalPath.EvaluatedAgain` | bake/entitlements.go:541-655 | evaluating the path found again leads to itself with nothing left |
| `EvalPath.GoUp` | bake/entitlements.go:570-586 | the string, with ".." kept where nothing can be dropped, still denotes the parent, as `Paths.NormRules` has it |
| `EvalPath.FollowLink` | bake/entitlements.go:614-652 | the target takes the place of the component; more than 255 links and unreadable targets are errors |
| `EvalPath.GoThrough` | bake/entitlements.go:588-652 | one named component, in all cases of what is found there |
| `EvalPath.OnlyRest` | bake/entitlements.go:541-655 | a walk depends only on where it is, on what is left of the path and on the links followed |
| `EvalPath.WalkDots` | bake/entitlements.go:568-586 | ".." leads to the directory above and stays at the root, "." stays where it is |
| `EvalPath.WalkName` | bake/entitlements.go:588-612 | a name leads into a directory, to a file at the end, to the rest where it is missing, or to an error |
| `EvalPath.WalkLink` | bake/entitlements.go:614-652 | the target of a link takes its place, from the root if it is absolute and from the directory of the link otherwise; after 255 links it is an error |
| `EvalPath.LinkUp` | bake/entitlements.go:614-652 | a link that begins with ".." goes on from the directory above the one it lies in |
| `EvalPath.WalkIsClean` | bake/entitlements.go:541-655 | where every place on the way is a directory, evaluating a path is cleaning it |
| `DedupPaths.DedupPaths` | bake/entitlements.go:414-435 | exactly the cleaned inputs that have no other input and a separator as prefix, for every order of the map and of the sorting |
| `DedupPaths.TopsByComponents` | bake/entitlements.go:414-435 | the kept paths are those without another input, other than the root, as ancestor by components |
| `DedupPaths.ParentTest` | bake/entitlements.go:368-376 | for clean paths the test holds if and only if the parent is an ancestor by components or the path runs on from its name; it agrees with ancestry if and only if the path does not run on |
| `DedupPaths.RunsOnPasses` | bake/entitlements.go:372-374 | a path that passes the test without being below the parent |
| `DedupPaths.FindMissingPaths` | bake/entitlements.go:378-412 | the kept paths that nothing allowed covers |
| `DedupPaths.DedupDoesNotMatter` | bake/entitlements.go:378-412 | nothing is missing after dropping paths below others if and only if every path is covered |
| `DedupPaths.CoveredBelow` | bake/entitlements.go:368-376 | what covers a path covers everything below it |
| `Paths.CompsRender` | bake/entitlements.go:541-655 | the components of a path are read back from its string |
| `Paths.CleanIdempotent` | bake/entitlements.go:417 | cleaning twice is cleaning once |
| `Paths.NormRules` | bake/entitlements.go:417 | anywhere in a path a name and ".." behind it cancel out and "." goes; ".." at the root goes |
| `Paths.CleanRules` | bake/entitlements.go:417 | the same on strings |
| `Paths.AncestorByPrefix` | bake/entitlements.go:424-433 | for clean paths, an ancestor by components is a prefix followed by a separator |
| `StreamMux.CopyToStream` | controller/remote/io.go:351-381 | the messages of a sender: non-empty reads, then an end of file, nothing after an error; it fails if and only if the first error is not the end of the file |
| `StreamMux.SentCarries` | controller/remote/io.go:351-381 | the messages carry all bytes read but those of the read that ended the copying, and tell the end of the file if and only if the first error is that |
| `StreamMux.NothingLost` | controller/remote/io.go:351-381 | they carry all bytes if and only if that read returned none |
| `StreamMux.LastByteLost` | controller/remote/io.go:354-359 | a reader, other than the pipes in use, whose last byte would not be sent |
| `StreamMux.PipeLosesNothing` | controller/remote/io.go:54-92 | from a pipe, which returns errors without data, a sender sends exactly the bytes it reads |
| `StreamMux.Receiver.Handle` | controller/remote/io.go:293-320 | the reaction to one message |
| `StreamMux.OneMoreDelivered` | controller/remote/io.go:293-320 | exactly messages for descriptors 1 and 2 are accepted, and then each writer has its own data up to its end of file and nothing after it |
| `StreamMux.Receiver.Demux` | controller/remote/io.go:280-322 | for every message sequence each writer has its own data from the messages in front of the first unacceptable one |
| `StreamMux.PayloadOfOnly` | controller/remote/io.go:280-322 | the data of a descriptor depends on its own messages only |
| `StreamMux.StepKeepsInv` | controller/remote/io.go:54-92 | sending, receiving and closing an input early keep the messages of each descriptor in order |
| `StreamMux.EveryRunConserves` | controller/remote/io.go:54-92 | this holds over every run and every interleaving |
| `StreamMux.EveryRunDelivers` | controller/remote/io.go:54-92 | in every reachable state each writer holds a prefix of its own reader's bytes; once the stream is drained and nothing was closed early, it holds all of them if and only if the last read returned no data, and knows the end of its file if and only if the reader came to it; a descriptor that was closed early has ended |
| `StreamMux.EveryRunDeliversPipes` | controller/remote/io.go:54-92 | for pipes: once the stream is drained and nothing was closed early, each writer holds exactly the bytes of its own pipe and knows whether it ended, under every interleaving |
| `VertexLogs.Loader.AddPart` | commands/history/inspect.go:716-734 | the treatment of one part of a chunk |
| `VertexLogs.Loader.AddChunk` | commands/history/inspect.go:714-735 | treating a chunk part by part is taking it character by character, an empty chunk being a line break |
| `VertexLogs.Loader.Load` | commands/history/inspect.go:688-742 | the lines of the character machine for the chunks of the vertex, the last ones if there is a limit |
| `VertexLogs.LinesOfEachStream` | commands/history/inspect.go:688-742 | for every interleaving and every cutting, the lines of a stream are the non-empty lines of its own text |
| `VertexLogs.EmptyChunksHarmless` | commands/history/inspect.go:714-735 | they are the lines of the plainly concatenated chunks if and only if no empty chunk stands within a line |
| `VertexLogs.EmptyChunkBreaks` | commands/history/inspect.go:731-733 | chunks for which an empty one breaks a line in two |
| `NodeGroups.NodeGroup.Update` | store/nodegroup.go:51-128 | the new nodes and the error, also where the group is left changed after an error |
| `NodeGroups.NodeGroup.Leave` | store/nodegroup.go:36-49 | the nodes and the error of the function on values, of which `NodeGroups.LeaveTakesOne` speaks |
| `NodeGroups.NodeGroup.ValidateDuplicates` | store/nodegroup.go:168-192 | a duplicate endpoint is refused; otherwise the platforms of the node are taken from all others |
| `NodeGroups.NodeGroup.NextNodeName` | store/nodegroup.go:203-213 | ends with the first unused candidate |
| `NodeGroups.NextFrom` | store/nodegroup.go:203-213 | the name is unused, its number is the smallest such and at most the number of nodes |
| `NodeGroups.Pigeonhole` | store/nodegroup.go:203-213 | no more candidates are used than there are nodes |
| `NodeGroups.NodeGroup.Find` | store/nodegroup.go:194-201 | the first node with the name, or -1 |
| `NodeGroups.FilterPlatforms` | store/nodegroup.go:215-223 | the platforms that are not in the set, in order |
| `NodeGroups.FilterConcat` | store/nodegroup.go:215-223 | what is left keeps its order and repetitions |
| `NodeGroups.ParseFacts` | store/nodegroup.go:63-66 | the platforms of an update are those of all its texts, all of which must be readable |
| `NodeGroups.ItoaReads` | store/nodegroup.go:203-213 | numbers in candidate names are decimal, without leading zeros |
| `NodeGroups.NameRules` | store/util.go:12-38 | which names are valid |
| `NodeGroups.PinnedDisjoint` | store/nodegroup.go:179-189 | after pinning no platform is on two nodes |
| `NodeGroups.PinnedLosesNothing` | store/nodegroup.go:179-189 | pinning moves platforms and loses none |
| `NodeGroups.UpdateKeepsInv` | store/nodegroup.go:51-128 | an update succeeds if and only if its tests pass and no other node has the endpoint it gives; distinct endpoints and pinned platforms are lost if and only if the tests pass and another node has it; without passing the tests nothing changes |
| `NodeGroups.UpdateTouchesOne` | store/nodegroup.go:76-127 | a successful update changes the first node of the name, which takes every setting that was given and keeps the others, or adds a last one with what was given; other nodes only lose the platforms it takes |
| `NodeGroups.UpdateKeepsNames` | store/nodegroup.go:51-128 | names stay distinct if and only if no node is added whose lower-case name is in use |
| `NodeGroups.NamesMayClash` | store/nodegroup.go:108-127 | an input for which a successful update makes two nodes share a name |
| `NodeGroups.LeaveKeepsInv` | store/nodegroup.go:36-49 | leaving keeps the invariant and never empties the group |
| `NodeGroups.LeaveTakesOne` | store/nodegroup.go:36-49 | a node leaves if and only if the group is static, a node has the name and there are two or more; it is the first of that name, all others stay unchanged and in order, and with distinct names none is left of it; which error is reported otherwise |
| `NodeGroups.OnlySuccessSaved` | builder/builder.go:508-514 | a command that succeeds is saved, one that fails leaves the group as it was |
| `NodeGroups.EveryRunKeepsInv` | builder/builder.go:508-514 | over every sequence of commands, whose result is saved only without an error, endpoints stay distinct, platforms pinned and the group inhabited |
| `Sessions.Server.BuildEnter` | controller/remote/server.go:156-187 | the first critical section of a build |
| `Sessions.Server.BuildStore` | controller/remote/server.go:205-226 | the second critical section; `Sessions.ResultIff`, `Sessions.ResultStays` and `Sessions.NothingStored` say what it means for a run |
| `Sessions.Server.BuildLeave` | controller/remote/server.go:188-197 | the last critical section, which looks the session up again |
| `Sessions.Server.Disconnect` | controller/remote/server.go:103-123 | the session is removed |
| `Sessions.Perform` | controller/remote/server.go:103-226 | what a step does to the sessions of the server is what the step system says |
| `Sessions.PerformAll` | controller/remote/server.go:103-226 | so it is for every run from a new server |
| `Sessions.StepKeepsInv` | controller/remote/server.go:156-228 | from every consistent state a step leads to one if and only if it is not a build that creates a session while an old build of the same identifier runs |
| `Sessions.EveryRunKeepsInv` | controller/remote/server.go:156-228 | over every run with fresh identifiers: a session is busy and has a status channel exactly for the one build running in it, and results belong to it |
| `Sessions.MutualExclusion` | controller/remote/server.go:167-178 | at most one build runs in a session, a build refused for it changes nothing, and a free session lets the next build in |
| `Sessions.DisconnectedForGood` | controller/remote/server.go:103-123 | a disconnected session never comes back |
| `Sessions.PresentIff` | controller/remote/server.go:103-187 | over every run: a session is there if and only if a build asked for it and it was not removed since |
| `Sessions.RunningIff` | controller/remote/server.go:156-228 | a build is running if and only if it was let in and has not ended since |
| `Sessions.ResultIff` | controller/remote/server.go:167-213 | a session shows the result of a build if and only if that build stored it while the session was there, and since then nothing was stored, no build let in and the session not removed |
| `Sessions.OptionsIff` | controller/remote/server.go:167-213 | cancelling and options are stored with the result and outlive the beginning of the next build |
| `Sessions.ResultStays` | controller/remote/server.go:205-213 | with fresh identifiers a stored result, with its cancelling and options, stays through the end of its build and all steps of other sessions, until a new build is let in or the session is removed |
| `Sessions.NothingStored` | controller/remote/server.go:205-226 | a build without result changes no session |
| `Sessions.StaleBuildFreesSession` | controller/remote/server.go:188-197 | for every identifier, a run that uses it again and ends with two builds in one session |
| `Csv.CsvBuilder.Write` | util/buildflags/export.go:258-265 | the buffer is the text of the pairs written so far |
| `Csv.CsvBuilder.WriteAttributes` | util/buildflags/export.go:267-277 | the pairs of a map follow in alphabetical order |
| `Csv.SortedOnce` | util/buildflags/export.go:267-277 | there is only one alphabetical order, so printing is a function |
| `Csv.LeqMeans` | util/buildflags/export.go:267-277 | the first difference decides the order, and without one the shorter text comes first |
| `Csv.TextRead` | util/buildflags/export.go:115-157 | pairs without separators and quotes are read back from their text, unless it ends with a line break |
| `Csv.AllPairs` | util/buildflags/export.go:137-141 | fields can be read if and only if each of them has an equals sign |
| `Csv.ValueGiven` | util/buildflags/export.go:137-152 | a key has the value of the last field that gives it, and none without one |
| `Csv.TrimLowerMeans` | util/buildflags/export.go:142 | keys are read without the spaces around them and without regard to case |
| `Csv.AssignedPlain` | util/buildflags/export.go:132-152 | from fields without commas and quotes only settled keys and plain values are read |
| `Csv.AssignedCount` | util/buildflags/export.go:132-152 | pairs that are read hold no more quotes or line breaks than the fields they are read from |
| `Csv.ReadBackSimple` | util/buildflags/export.go:115-157 | a text whose own pairs are read from it holds no quotes and does not end with a line break |
| `CsvLine.SimpleFields` | vendor/github.com/tonistiigi/go-csvvalue/csvvalue.go:58-106 | the fields of a line without quotes and trailing line break stand between its commas |
| `CsvLine.StrippedMeans` | vendor/github.com/tonistiigi/go-csvvalue/csvvalue.go:59-66 | one line break falls off, with the carriage return in front of it |
| `CsvLine.EmptyLine` | vendor/github.com/tonistiigi/go-csvvalue/csvvalue.go:68-70 | an empty line, with or without a line break, is an error |
| `CsvLine.FieldsCount` | vendor/github.com/tonistiigi/go-csvvalue/csvvalue.go:72-155 | no character occurs more often in the fields than in the line, and every line with quotes loses some |
| `CsvLine.NothingDropped` | vendor/github.com/tonistiigi/go-csvvalue/csvvalue.go:58-155 | if the fields hold all quotes and line breaks of the line, it has no quotes and no trailing line break |
| `CsvLine.QuotedOne` | vendor/github.com/tonistiigi/go-csvvalue/csvvalue.go:107-155 | a text between quotes is a field of its own |
| `Exports.Print` | util/buildflags/export.go:65-77 | type, destination and sorted attributes as fields |
| `Exports.ExportEntry.UnmarshalText` | util/buildflags/export.go:115-157 | the entry that a text stands for, or its error; an empty text is one |
| `Exports.ReadMeans` | util/buildflags/export.go:115-163 | for every text: the type, the destination and each attribute are what the last field for them gives; which error is reported and when |
| `Exports.NoFields` | util/buildflags/export.go:117-120 | a text without fields, and no other, is reported as such |
| `Exports.DestinationRead` | util/buildflags/export.go:127-136 | a plain text is a directory, and "-" an archive on standard output |
| `Exports.ReadIsPlain` | util/buildflags/export.go:115-157 | what is read from a text without quotes and trailing line break has a type, no separators in its values and settled, unreserved keys |
| `Exports.RoundTrip` | util/buildflags/export.go:65-77 | printing and reading is the identity if and only if there is a type, no value holds a comma or a quote, attribute keys are trimmed, lower-case, unreserved and free of separators and quotes, and the text does not end with a line break |
| `Exports.QuotedCommaLost` | util/buildflags/export.go:65-77 | every type with a comma can be read between quotes and is not read back once printed |
| `Exports.PrintedAlike` | util/buildflags/export.go:58-63 | such entries are equal exactly when they print alike |
| `Caches.Print` | util/buildflags/cache.go:66-82 | fields, or the bare reference |
| `Caches.CacheOptionsEntry.UnmarshalText` | util/buildflags/cache.go:116-151 | the entry that a text stands for, or its error; an empty text is one |
| `Caches.ReadMeans` | util/buildflags/cache.go:116-151 | for every text: the type and each attribute are what the last field for them gives; which error is reported and when |
| `Caches.ReferenceRead` | util/buildflags/cache.go:123-127 | a single field without an equals sign is a reference to a registry |
| `Caches.RoundTrip` | util/buildflags/cache.go:66-151 | the exact condition for the identity, as for exports; for the bare form: a reference that is not empty, holds no comma, equals sign or quote and does not end with a line break |
| `Caches.NotItself` | util/buildflags/cache.go:116-151 | a reference that is read as pairs is never read as itself |
| `Caches.ReadAgain` | util/buildflags/cache.go:66-151 | what was read from a text without quotes and line breaks is read back if and only if it is not a registry entry with only a reference that is empty or holds an equals sign |
| `Caches.BareReferenceLost` | util/buildflags/cache.go:67-72 | for every such reference, a text that is read into the entry, which printed is not read back |
| `SshKeys.Print` | util/buildflags/ssh.go:62-71 | the identifier, with the paths behind an equals sign |
| `SshKeys.Key.UnmarshalText` | util/buildflags/ssh.go:94-104 | the key that a text stands for |
| `SshKeys.RoundTrip` | util/buildflags/ssh.go:62-104 | printing and reading is the identity if and only if the identifier has no equals sign and no path a comma |
| `SshKeys.PrintedRead` | util/buildflags/ssh.go:62-104 | reading and printing is the identity on every text |
| `Attests.Print` | util/buildflags/attests.go:61-73 | type, flag and sorted attributes as fields |
| `Attests.AttestEntry.UnmarshalText` | util/buildflags/attests.go:138-167 | the entry that a text turns the previous one into, or its error |
| `Attests.ReadMeans` | util/buildflags/attests.go:138-172 | for every text and every previous entry: type, flag and attributes are what the last field for them gives, type and flag stay as they were without one; which error is reported and when |
| `Attests.BadFieldMeans` | util/buildflags/attests.go:156-161 | a field is refused if it sets the flag to something that is no truth value |
| `Texts.ParseBoolMeans` | util/buildflags/attests.go:157 | the spellings of truth values |
| `Attests.ReadPrinted` | util/buildflags/attests.go:138-167 | a printed entry is read back; a flag that was set before stays set |
| `Attests.RoundTrip` | util/buildflags/attests.go:61-167 | the exact condition for the identity on a fresh entry, as for exports |

## Left out

- HclParser.Parser.Parse: the verdict is stated for files in which every referenced name is defined and in which variables and functions do not refer to block attributes, which are not known yet when these are resolved; an undefined variable keeps its mark in the code.
- HclParser.Parser.ResolveValue: as for Parse, nothing but the ending is stated where a name is undefined.
- HclParser.Parser.ResolveFunction: as for Parse, nothing but the ending and the undefined case is stated where a name is undefined.
- HclParser.Parser.LoadDeps: as for Parse, nothing but the ending is stated where a name is undefined.
- HclParser.Parser.ResolveTarget: as for Parse, nothing but the ending is stated where a name is undefined.
- HclParser.Parser.ResolveRest: as for Parse, nothing but the ending is stated where a name is undefined.
- HclMeaning.ParseFile: as for Parse, the verdict is stated where every referenced name is defined, and for blocks with distinct labels.
- HclRules.RunDecides: value equations are stated for blocks with distinct labels; blocks that share a label are merged by reflection afterwards.
- The hash that keys the progress marks is taken to be injective, and the marks of values, functions and block attributes are one set of keys.
- Expressions are the functions they call, the names they read and a value that depends on those only; a user function counts by its meaning when it is stored, after which its inputs no longer change.
- Child contexts of a matrix inside the resolver, references to whole blocks, nested blocks, block names, variable validation and merging of decoded blocks.
- Intersecting and subtracting body schemas, which filter lists by name; the resolver here works on the sets of names.
- Groups.ResolveGroup: with cycles the order of the two lists is left open; it depends on where the search began.
- Targets.MergeAssociative: the fields attest, secrets, ssh, cache-from, cache-to and outputs, which are merged by their own deduplication, are not part of a target here.
- Targets.TargetObject.Merge: the same fields are left out.
- Overrides.OrderFree: outputs, caches, secrets, ssh, attestations, push and load are no part of a target here; an override of these may fail, but what it sets, and in which order, is not captured. Building the map from the command line is left out.
- Inherits.ResolveTarget: on a cyclic graph only the ending of the search is stated; the result then depends on where the search began.
- Links.Linker.LinkAll: targets are values in a map, since a target is always reached through its name; sharing of a target between callers is not captured.
- EvalPath.EvaluateToExistingPath: paths with one root and slash separators, made absolute beforehand, on a file system that does not change meanwhile; volume names are left out.
- DedupPaths.FindMissingPaths: the allowed paths and the requested ones come in evaluated form; the order of the list returned is left out.
- Platforms are compared by their formatted names, parsing them is a parameter, and configuration files of nodes are left out.
- StreamMux.EveryRunDelivers: failing sends and writes, cancelled contexts, standard input, signals and terminal sizes are left out.
- Running processes, pipes and cancel functions of sessions are left out, and so are listing, inspecting and closing.
- Csv.TextRead: letters are lowered and spaces trimmed for ASCII only.
- JSON and cty forms of the settings, secrets, parsing of compose files, prompts for entitlements, drivers, registry clients, stores on disk and the commands themselves.
