# Verified models of the compiler's core data structures

These Dafny modules model self-contained algorithms of the Nim compiler and of the line editor bundled with it, and prove
what they are relied on for.

* **Tables** (`Probing`, `OpenAddressing`, `IdTables`, `StrTables`, `ObjectSets`): open addressing with the probe `(5h+1) and (2^k-1)`.
  The claim that this generator has full period, which the source leaves to the literature, is proved, and with it that
  every unbounded probe loop ends. The map tables refine maps, the symbol and object tables refine sets, and the overload iterator
  yields each overload once.
* **B-tree** (`BTreeSpec`, `BTrees`, `KeyOrders`, `AnyKeys`): the mutable tree on the heap, proved against insertion into a value tree, which in
  turn refines a sorted list and a map. The branching factor is any even number greater than 2. On the heap the keys are reals;
  `AnyKeys` has the value tree over keys of any type under any `cmp`.
* **NIF** (`NifNames`, `NifWriter`, `NifReach`, `NifStanding`, `NifLayout`, `NifLoader`, `NifRefusals`, `NifOrder`, `NifBalance`,
  `NifDecoding`, `NifRoundTrip`, `NifWriting`, `NifLoading`, `NifSession`): the writer of a cyclic graph of symbols, types and trees, and the loader.
  `NifWriter` and `NifLoader` specify tokens, sealed items and parsing results; `NifWriting` and `NifLoading` are the
  buffer and cursor machines proved against them. `NifOrder` tells from the graph alone in which order the loader
  registers and looks up local symbols; `NifDecoding` tells which fields of a symbol the format loses; `NifStanding` tells from the
  records of the graph which items get a definition.
* **Source maps** (`Vlq`, `StableSorts`, `Sections`, `SeqStorage`, `TreeStorage`, `StorageVariants`, `SourceMaps`,
  `SourceMapBuilder`, `Rebasing`, `DirectiveCuts`, `ModuleMaps`): the two storages of annotations and their agreement, the line and column pass, the
  encoder, and a decoder by ECMA-426, section "Mappings structure".
* **Alias analyses** (`TypeGraphs`, `TypeValues`, `TypeContainment`, `AccessPaths`): the search over types against the parts of
  finite values, and the comparison of access paths against the locations that expressions lead to.
* **Line editor** (`LineModel`, `LineEditor`).

Where a property does not hold of the code as it stands, the code is modelled as it is, a lemma gives an input that
breaks the property, and another says exactly when it holds.

* The B-tree counts an overwritten key as a new entry (`BTreeSpec.CountIsSizeIffFresh`), after which its iterator overruns
  the stored pairs (`BTrees.BTree.Next`).
* `symTabReplace` with a symbol that is already in the table lists it twice (`StrTables.StrTable.Replace`).
* Loading what was written fails when a local symbol is looked up before it is registered, as when it is met first in a
  node with a type of its own (`NifSession.FirstMetUnderHiddenType`). `NifSession.WriteThenLoad` says exactly when.
* The loader copies the type of a local symbol as it is at the moment, so a type that mentions its own local symbol comes
  back with a node without type (`NifSession.OwnTypeUntyped`). `NifRoundTrip.NodeTrip` says exactly when.
* A symbol's definition does not keep every field (`NifDecoding.StoredIffImplied`).
* The two source-map storages part when a section is used after it was merged away: the tree empties the source, the flat
  list does not. The comment in the tree's merge says that this matches the flat list; the code is followed
  (`Sections.EmitAfterMerge`, `Sections.AgreeIffNothingOwed`).
* `emitMappings` on a non-empty field (`SourceMaps.AppendedExact`).
* `aliases` keeps explicit and hidden dereferences apart, and passes over an address-of whose dereference it counts
  (`AccessPaths.NoIsWrong`, `AccessPaths.YesIsWrong`, `AccessPaths.SeesLocation`).
* In the line editor, going to an older entry and back truncates the line to one character less than the buffer holds,
  and at its first NUL (`LineModel.OlderThenNewer`, `LineModel.VisitShortens`).

`dafny verify dfyconfig.toml` checks the project.

## Model

| member | source | states |
|---|---|---|
| `Probing.FullPeriod` | compiler/astdef.nim:1069-1073 | for every table size 2^k and every start, repeating `nextTry` 2^k times visits each slot exactly once and returns to the start |
| `Probing.ProbeReturns` | compiler/astdef.nim:1069-1073 | `i` steps of `nextTry` lead back to where they started exactly if 2^k divides `i` |
| `Probing.LowBitsIsRemainder` | compiler/astdef.nim:1069-1070 | masking with 2^k-1 leaves the remainder modulo 2^k, of negative numbers too |
| `Probing.StartSlot` | compiler/astdef.nim:1080-1080 | a remainder modulo the table length is the first slot of the key's probe sequence |
| `Probing.NextSlot` | compiler/astdef.nim:1069-1070 | the remainder modulo the table length computes `nextTry` |
| `OpenAddressing.ScanEnds` | compiler/astdef.nim:1079-1085 | a probe loop over used slots ends within one period, because a table with a free slot is never walked in full |
| `OpenAddressing.MetBefore` | compiler/astalgo.nim:632-639 | a loop that stops at a free slot has passed every item hashed to its start: an unsuccessful search is right |
| `OpenAddressing.FillKeepsChains` | compiler/astdef.nim:1087-1096 | filling the free slot at which a probe loop stopped leaves every stored item reachable from its hash |
| `OpenAddressing.ReplaceKeepsChains` | compiler/astdef.nim:1098-1106 | writing an item over one with the same hash leaves every stored item reachable |
| `IdTables.ToIdCollision` | compiler/ast.nim:481-488 | two ids share a key exactly when their items are a multiple of 2^24 apart to match their modules; below 2^24 items `toId` is injective |
| `IdTables.RawGet` | compiler/astalgo.nim:632-639 | terminates, and finds the slot of a key exactly if the represented map has the key; the same for `iiTableRawGet` |
| `IdTables.RawInsert` | compiler/astalgo.nim:649-658 | terminates, and adds exactly one key to the represented map; the same for `iiTableRawInsert` |
| `IdTables.HasEmptySlot` | compiler/astalgo.nim:626-630 | whether some slot is free |
| `IdTables.Enlarge` | compiler/astalgo.nim:668-675 | a rehash into twice the size represents the same map: nothing is lost or doubled |
| `IdTables.Table.GetOrDefault` | compiler/astalgo.nim:641-644 | the value of the represented map, or the default; also `iiTableGet` |
| `IdTables.Table.Put` | compiler/astalgo.nim:660-677 | updates the represented map at one key and keeps the table invariant (a nil key stays invisible and only counts); for a new key the array doubles exactly if it is more than two thirds full or has fewer than four free slots; also `iiTablePut` |
| `IdTables.PutTwoIds` | compiler/astalgo.nim:660-677 | in a `TIdTable` an item's value survives another put unless the two ids collide |
| `IdTables.PutInt` | compiler/astalgo.nim:700-730 | in a `TIITable` a key has the value put last, and `InvalidKey` never gets one |
| `StrTables.StrTable.Contains` | compiler/astdef.nim:1079-1085 | whether the symbol is in the table's set |
| `StrTables.StrTable.Add` | compiler/astdef.nim:1118-1121 | adds one symbol to the set; the array doubles exactly if it is more than two thirds full or has fewer than four free slots; the counter grows even for a symbol already there |
| `StrTables.Enlarge` | compiler/astdef.nim:1111-1116 | a rehash keeps the set of symbols |
| `StrTables.StrTable.Get` | compiler/astdef.nim:1160-1166 | the first overload in iteration order, or none |
| `StrTables.StrTable.InclReportConflict` | compiler/astdef.nim:1123-1154 | the reported conflict is the last overload in iteration order; it is replaced exactly unless the old one is to be kept |
| `StrTables.StrTable.Replace` | compiler/astdef.nim:1098-1109 | the set afterwards, and that it is a table of distinct symbols exactly if the new symbol was not already in it |
| `StrTables.ReplaceDuplicates` | compiler/astdef.nim:1098-1109 | replacing by a symbol that already has a slot lists that symbol twice, so no set describes the table |
| `StrTables.OverloadsExact` | compiler/astalgo.nim:542-564 | the symbols met on the probe sequence of an identifier are those of the table with that identifier, each once |
| `StrTables.IdentIter.Init` | compiler/astalgo.nim:560-564 | yields the first overload, and stands before the rest |
| `StrTables.IdentIter.Next` | compiler/astalgo.nim:542-558 | yields the next overload; answers nil only when none is left |
| `StrTables.AllOverloads` | compiler/astalgo.nim:542-564 | iterating until nil yields every symbol with the identifier exactly once and nothing else |
| `ObjectSets.ObjectSet.Contains` | compiler/astalgo.nim:489-496 | whether the reference is in the set |
| `ObjectSets.ObjectSet.Incl` | compiler/astalgo.nim:513-516 | adds a reference that was not in the set, doubling the array by the same rule; the counter stays the size of the set |
| `ObjectSets.ObjectSet.ContainsOrIncl` | compiler/astalgo.nim:518-534 | the reference is in the set afterwards, and the answer says whether it was before |
| `KeyOrders.Embeds` | compiler/btrees.nim:37-38 | however `cmp` orders keys, finitely or countably many and some perhaps equal under it, they have places among the reals that compare in the same way |
| `AnyKeys.InsertImage` | compiler/btrees.nim:83-119 | insertion below a node, with keys of any type under any `cmp`, does to them what it does to their places |
| `AnyKeys.RunImage` | compiler/btrees.nim:121-132 | any run of additions gives, place by place, the tree of the run over the places |
| `AnyKeys.GetImage` | compiler/btrees.nim:40-50 | a lookup finds what the map of the places has at the place of the key |
| `AnyKeys.RunGives` | compiler/btrees.nim:40-132 | after any run of additions under any `cmp`, a lookup gives the value added last for a key that `cmp` calls equal, and the stored keys ascend |
| `AnyKeys.OverwriteKeepsKeys` | compiler/btrees.nim:88-91 | a key that `cmp` calls equal to a stored one replaces the value and leaves the stored key |
| `BTreeSpec.InsertCorrect` | compiler/btrees.nim:83-119 | inserting below any node puts exactly one pair into its sorted contents, and the node or its two halves stay ordered within their bounds |
| `BTreeSpec.AddToRootMap` | compiler/btrees.nim:121-132 | `add` keeps the whole tree ordered and changes the represented map by exactly one key |
| `BTreeSpec.AddToRoot` | compiler/btrees.nim:121-132 | keeps all leaves at one depth and every node within its bounds on entries |
| `BTreeSpec.RootGrows` | compiler/btrees.nim:121-132 | a split root gets a new one over it, whose keys are the first keys of the two halves |
| `BTreeSpec.MinimumSize` | compiler/btrees.nim:64-132 | a tree of depth d >= 1 stores at least 2*(M/2)^d pairs |
| `BTreeSpec.CountIsSizeIffFresh` | compiler/btrees.nim:121-123 | over any run of additions the entry counter is at least the number of stored pairs, and equal to it exactly if no key was added twice |
| `BTreeSpec.RunMap` | compiler/btrees.nim:121-132 | after any run of additions the tree represents the map of the last value given for each key |
| `BTreeSpec.LookupStep` | compiler/btrees.nim:43-47 | one routing step of a lookup goes to the child that alone can hold the key |
| `BTreeSpec.RankStep` | compiler/btrees.nim:162-170 | the pair of a rank lies in the child whose cumulative count first exceeds it, at the rank that is left over |
| `BTrees.CopyHalf` | compiler/btrees.nim:64-75 | the upper half of an array becomes the lower half of another |
| `BTrees.BTreeNode.SplitLeaf` | compiler/btrees.nim:77-81 | a full leaf keeps its lower half, and a fresh one gets the upper |
| `BTrees.BTreeNode.SplitInner` | compiler/btrees.nim:77-81 | the same for inner nodes, whose children go over with disjoint footprints while stale entries stay behind unread |
| `BTrees.BTreeNode.Insert` | compiler/btrees.nim:83-119 | the arrays of the node and its new sibling hold what the specification of insertion says, with separate footprints |
| `BTrees.FindLeaf` | compiler/btrees.nim:42-48 | the leaf whose pairs decide about the key in the whole tree |
| `BTrees.CountSubTree` | compiler/btrees.nim:150-156 | the number of pairs below a node |
| `BTrees.PickChild` | compiler/btrees.nim:163-170 | the child that holds the pair of a rank, and the rank within it; none for a rank beyond the pairs below the node |
| `BTrees.BTree.constructor` | compiler/btrees.nim:34-35 | an empty tree |
| `BTrees.BTree.GetOrDefault` | compiler/btrees.nim:40-50 | the value of the represented map, or the default |
| `BTrees.BTree.Contains` | compiler/btrees.nim:52-62 | whether the represented map has the key |
| `BTrees.BTree.Add` | compiler/btrees.nim:121-132 | the heap stays a well-formed tree, its map changes by `[key := val]`, and the counter grows by one in any case |
| `BTrees.BTree.Next` | compiler/btrees.nim:158-171 | the pair of the given rank; beyond the stored pairs a stale slot of a leaf root, an index error past its arrays, and no end on an inner root |
| `BTrees.BTree.AllPairs` | compiler/btrees.nim:173-178 | iterating `pairs` yields every stored pair once, in strictly increasing key order, and ends right there exactly if no key was overwritten; otherwise stale slots follow, or it fails to end |
| `NifNames.ParseSymName` | compiler/ast2nif.nim:199-222 | the scanner's result, as a function of the name's last dots and digit runs |
| `NifNames.LocalRoundTrip` | compiler/ast2nif.nim:173-184 | a local name is parsed back exactly if the identifier is not empty, whatever dots and digits it has |
| `NifNames.GlobalRoundTrip` | compiler/ast2nif.nim:173-222 | a global name is parsed back exactly if the suffix has no inner dot and does not start with a digit (without a suffix: if the identifier is not empty) |
| `NifNames.ParseTypeName` | compiler/ast2nif.nim:917-928 | the parts of a type's name |
| `NifNames.TypeRoundTrip` | compiler/ast2nif.nim:25-31 | type names are parsed back whatever the suffix |
| `NifNames.IdGenerator.NewSym` | compiler/ast.nim:709-717 | issues the next item id, and the number of earlier uses of the name |
| `NifNames.IdGenerator.NextSymId` | compiler/ast.nim:509-512 | counts item ids up |
| `NifNames.IdGenerator.FromModule` | compiler/ast.nim:501-504 | starts after the module's own id, with its name counted once |
| `NifNames.IdGenerator.ForPackage` | compiler/ast.nim:506-507 | starts so that the next id is the given one |
| `NifNames.GeneratorNamesDistinct` | compiler/ast.nim:709-717 | any two symbols of one generator have different ids and different NIF names, whichever are local |
| `NifNames.RunCounts` | compiler/ast.nim:709-717 | the symbols of a run have ids that count on from the generator's, and are numbered by how often their name was used before |
| `NifNames.ModulesApart` | compiler/ast2nif.nim:173-184 | global symbols of modules with different suffixes never share a name |
| `NifWriter.NodeOnce` | compiler/ast2nif.nim:514-625 | what is written for a tree defines exactly the items it seals, each once |
| `NifWriter.RefOnce` | compiler/ast2nif.nim:281-288 | the same for a reference: the first one is a definition, all later ones are names |
| `NifReach.NodeExact` | compiler/ast2nif.nim:375-401 | the items sealed by writing a tree are the least set closed under mentions: every definable item it reaches through cycles, and no other |
| `NifReach.ReachableDefinedOnce` | compiler/ast2nif.nim:514-625 | writing trees one after the other gives one definition to every definable item that a chain of mentions leads to, and none to any other |
| `NifStanding.NamedDefinedOnce` | compiler/ast2nif.nim:375-401 | of the symbols that the output names, just those of the own module that are complete or local are defined in it, and of the types just those of the own module that are complete, each once |
| `NifStanding.OwnDefinedOnce` | compiler/ast2nif.nim:281-401 | if nothing in the own module is a stub, each of its items that a chain of mentions through the records of the module leads to has one definition, and no other item has any |
| `NifWriting.Writer.WriteType` | compiler/ast2nif.nim:281-288 | appends the specified tokens and seals the specified items; terminates on cyclic graphs because unsealed items run out |
| `NifWriting.Writer.WriteSym` | compiler/ast2nif.nim:375-401 | the same for symbols |
| `NifWriting.Writer.WriteTypeDef` | compiler/ast2nif.nim:253-278 | the definition of a type, field by field in order |
| `NifLayout.TypeLayout` | compiler/ast2nif.nim:253-264 | with which tokens the definition of a type begins: a dot for an empty flag set, and the plain fields in their order |
| `NifWriting.Writer.WriteAnnex` | compiler/ast2nif.nim:294-303 | the library of a symbol with its path |
| `NifWriting.Writer.WriteSymDef` | compiler/ast2nif.nim:322-372 | the definition of a symbol, with the guard fields only for the kinds that have them |
| `NifLayout.SymLayout` | compiler/ast2nif.nim:322-354 | with which tokens the definition of a symbol begins: the mark of exported symbols that were not made from generic ones, the kind with its guard, and the plain fields, of which a module has no position and a variable none to keep |
| `NifWriting.Writer.WriteSymNode` | compiler/ast2nif.nim:403-423 | a symbol node, under the hidden-type tag exactly when its type is not the symbol's own |
| `NifWriting.Writer.WriteNode` | compiler/ast2nif.nim:514-625 | a tree of the fragment |
| `NifWriting.Writer.WriteHead` | compiler/ast2nif.nim:428-433 | tag, flags and type of a node |
| `NifOrder.RegisteredBefore` | compiler/ast2nif.nim:998-1012 | if every local symbol is in the table from the start, no tree looks one up too early |
| `NifOrder.NoLocals` | compiler/ast2nif.nim:998-1012 | neither does any tree of a module without local symbols |
| `NifRoundTrip.NodeTrip` | compiler/ast2nif.nim:1235-1380 | loading any tree, written in any writer state, into any loader state: fails exactly if a local symbol is looked up before it is registered; else stops right after the tree, which is the same exactly if no use in it is met before its symbol has its type |
| `NifRoundTrip.TypeTrip` | compiler/ast2nif.nim:979-996 | the same for a type reference or an inlined type definition |
| `NifRoundTrip.SymTrip` | compiler/ast2nif.nim:1023-1037 | a symbol reference or an inlined definition, skipped whole, gives the symbol back exactly if it is registered or has a module suffix |
| `NifRoundTrip.SymBodyTrip` | compiler/ast2nif.nim:1139-1198 | a definition read field by field gives the symbol that the format stores, unless a lookup in it comes too early or a node in it too early for its type |
| `NifDecoding.StoredIffImplied` | compiler/ast2nif.nim:322-358 | what is stored is the symbol itself exactly if the fields that are not stored have the values that the format implies |
| `NifDecoding.SymDiffers` | compiler/ast2nif.nim:1139-1198 | the decoded symbol is the stored one exactly if every tree in it came back |
| `NifSession.LazySymTrip` | compiler/ast2nif.nim:1200-1222 | `loadSym` gives the stored symbol exactly if its scan and its reading look up no local symbol too early |
| `NifSession.LazyTypeTrip` | compiler/ast2nif.nim:1113-1120 | `loadType` gives the type of the graph under the same condition |
| `NifRoundTrip.TypeBodyTrip` | compiler/ast2nif.nim:1079-1111 | a type's definition is scanned for local symbols and then read, element types included; succeeds under the same condition and is recorded |
| `NifRoundTrip.FieldsScan` | compiler/ast2nif.nim:934-975 | the scan loads each local symbol that it finds for the first time, steps into everything else, and fails exactly if such a load does |
| `NifBalance.DefSkips` | compiler/ast2nif.nim:991-994 | `skip` steps over exactly one definition, although a definition closes and opens nodes on its way |
| `NifLoading.Loader.LoadTypeStub` | compiler/ast2nif.nim:979-996 | moves the cursor and fills the tables as specified, or fails as specified |
| `NifLoading.Loader.ExtractLocalSyms` | compiler/ast2nif.nim:934-975 | registers and loads the local symbols defined in a tree, as specified |
| `NifLoading.Loader.LoadTypeFromCursor` | compiler/ast2nif.nim:1079-1111 | the same for a type's definition, after the scan for local symbols |
| `NifLoading.Loader.LoadSymStub` | compiler/ast2nif.nim:998-1037 | the same for symbols; a local symbol must be in the table |
| `NifLoading.Loader.LoadSymFromCursor` | compiler/ast2nif.nim:1139-1198 | the same for a symbol's definition; modules get their position here and lose the main-module flag, a local symbol gets its type as soon as that is read |
| `NifLoading.Loader.LoadSym` | compiler/ast2nif.nim:1200-1222 | a definition at its indexed offset, with a table and a scan of its own |
| `NifLoading.Loader.LoadType` | compiler/ast2nif.nim:1113-1120 | the same for a type |
| `NifLoading.Loader.LoadAnnex` | compiler/ast2nif.nim:1122-1137 | the library of a symbol |
| `NifLoading.Loader.LoadNode` | compiler/ast2nif.nim:1235-1380 | the same for trees |
| `NifRefusals.TypeNeeds` | compiler/ast2nif.nim:979-996 | a type is refused unless it is a dot, a name or a definition of a type |
| `NifRefusals.SymNeeds` | compiler/ast2nif.nim:998-1037 | a symbol is refused unless it is a dot, a name or a definition of a symbol, and a local one unless it is registered |
| `NifRefusals.FieldNeeds` | compiler/ast2nif.nim:1042-1070 | a plain field is accepted exactly if its token is of the kind it should be |
| `NifRefusals.SymBodyNeeds` | compiler/ast2nif.nim:1143-1158 | the definition of a symbol needs a dot or `x`, and the tag of a kind |
| `NifRefusals.AnnexNeeds` | compiler/ast2nif.nim:1122-1137 | a library needs a dot, or its kind, two booleans and a name |
| `NifRefusals.NodeNeeds` | compiler/ast2nif.nim:1235-1310 | a tree needs a dot, the name of a symbol, or the tag of a hidden type, a symbol's definition or a node |
| `NifRefusals.PayloadNeeds` | compiler/ast2nif.nim:1318-1374 | a leaf is accepted exactly if its literal is of its kind |
| `NifSession.WriteThenLoad` | compiler/ast2nif.nim:1547-1635 | trees written one after the other and loaded one after the other from an empty table: exactly if no local symbol is looked up before it is registered they come back the same and no token is left, else loading fails |
| `NifSession.FirstMetUnderHiddenType` | compiler/ast2nif.nim:1262-1269 | an input on which loading fails: a local symbol first met in a node with a type of its own |
| `NifSession.OwnTypeUntyped` | compiler/ast2nif.nim:1243-1251 | an input that comes back different: a local symbol's type that mentions the symbol |
| `Vlq.EncodeVlq` | compiler/sourcemap_vlq.nim:18-36 | the digits of a signed number |
| `Vlq.VlqRoundTrip` | compiler/sourcemap_vlq.nim:18-36 | any integer followed by anything is read back, and the reading stops right after it |
| `Vlq.EncodedSpells` | compiler/sourcemap_vlq.nim:18-36 | the code of a number is twice its magnitude, and one more if it is negative, in digits of five bits, lowest first, all but the last with the continuation bit |
| `Vlq.AlphabetIs` | compiler/sourcemap_vlq.nim:14-14 | the digits are A to Z, a to z, 0 to 9, + and / |
| `Vlq.SegmentRoundTrip` | compiler/sourcemap_vlq.nim:38-52 | the same for a segment of four numbers |
| `Sections.AgreeIffNothingOwed` | compiler/c_sourcemap.nim:195-289 | after any run at all, both storages hold the same in a section exactly if a count kept of the operations alone owes it nothing |
| `Sections.VariantsAgree` | compiler/c_sourcemap.nim:195-289 | in particular over any run in which no merged source is used again, in every section still in use |
| `Sections.EmitAfterMerge` | compiler/c_sourcemap.nim:215-235 | an example: text added to a section after it was merged leaves two annotations in one storage and one in the other |
| `Sections.RunConserves` | compiler/c_sourcemap.nim:195-289 | in the tree, over any run, every annotation keeps the characters it covered when it was recorded, and none is lost or doubled |
| `Sections.FlatRunConserves` | compiler/c_sourcemap.nim:195-289 | in the flat list, over any run, an account kept of the operations alone tells which labels each section holds; the sections in use gain besides what is recorded just what by that account is merged out of a merged section again, and lack what goes into one |
| `Sections.FlatConserves` | compiler/c_sourcemap.nim:195-289 | so they hold each recorded annotation once exactly if these two, computed from the operations, balance, as they do when no merged section is used again |
| `Sections.RunFrom` | compiler/c_sourcemap.nim:195-289 | in the flat list every annotation, copied or not, selects the characters it covered when it was recorded |
| `Sections.JoinedLabels` | compiler/cgen_merge.nim:174-212 | merged text keeps both sections' annotations on their characters |
| `Sections.StepTexts` | compiler/cgen_merge.nim:119-212 | appending puts the source's text behind the destination's and prepending in front of it, in both storages, and no other text changes |
| `Sections.RecordedIff` | compiler/cgen_merge.nim:119-170 | a label is recorded exactly if source maps are on and the position has a file and a line |
| `Sections.Dedup` | compiler/c_sourcemap.nim:346-357 | the loop that compares with the last one kept gives the list without repetitions |
| `Sections.DedupedIs` | compiler/c_sourcemap.nim:346-357 | that list has, in their order, exactly the entries that differ from their predecessor in start or position, and no two neighbours in it agree in both |
| `Sections.DedupKeepsMappings` | compiler/c_sourcemap.nim:333-357 | dropping repeated annotations leaves the set of decoded mappings unchanged |
| `SeqStorage.Builder.Emit` | compiler/cgen_merge.nim:119-145 | appends text and, if source maps are on and the position is valid, one annotation of exactly that text |
| `SeqStorage.Builder.Record` | compiler/cgen_merge.nim:147-170 | records an empty range at the end of the text |
| `SeqStorage.MergeAppend` | compiler/cgen_merge.nim:174-193 | the destination gets the source's text and rebased annotations; the source keeps its own |
| `SeqStorage.MergePrepend` | compiler/cgen_merge.nim:195-212 | the same at the front, with the destination's annotations rebased |
| `SeqStorage.Generator.Perform` | compiler/c_sourcemap.nim:195-276 | any step on any number of sections does what the flat list is specified to do and keeps the sections' objects apart |
| `TreeStorage.Builder.AddAnnotation` | compiler/c_sourcemap.nim:160-190 | a new leaf, last in the walk |
| `TreeStorage.Builder.Release` | compiler/c_sourcemap.nim:222-231 | the source gives up its root chunk and starts with an empty one |
| `TreeStorage.Builder.ShiftChildren` | compiler/c_sourcemap.nim:271-276 | moving the direct children moves every annotation below them |
| `TreeStorage.MergeAppend` | compiler/c_sourcemap.nim:214-240 | moves the source's annotations behind the destination's by storing one reference, without sharing a node |
| `TreeStorage.MergePrepend` | compiler/c_sourcemap.nim:266-289 | the same in front |
| `TreeStorage.WalkChunk` | compiler/c_sourcemap.nim:296-309 | the walk yields the tree's annotations at absolute offsets, in order |
| `TreeStorage.FlattenAnnotations` | compiler/c_sourcemap.nim:311-357 | the deduplicated annotations of the section |
| `TreeStorage.Generator.Perform` | compiler/c_sourcemap.nim:195-289 | any step on any number of sections does what the tree is specified to do, and no node ever belongs to two sections |
| `StorageVariants.FlattenBoth` | compiler/c_sourcemap.nim:311-357 | both storages run on the same steps; they flatten to the same list for a section that is owed nothing |
| `StableSorts.SortedSorts` | compiler/c_sourcemap.nim:416-418 | the sorted list is a rearrangement in ascending order |
| `StableSorts.SortedStable` | compiler/c_sourcemap.nim:461-463 | elements that compare equal keep their order |
| `SourceMapBuilder.PositionsAscend` | compiler/c_sourcemap.nim:426-432 | line and column order positions as offsets do and tell any two apart |
| `SourceMapBuilder.StandsThere` | compiler/c_sourcemap.nim:421-432 | the line and the column of a position are the number of newlines before it and the distance from the last of them, or from the start |
| `SourceMapBuilder.Advance` | compiler/c_sourcemap.nim:426-432 | the cursor's line and column are those found by counting newlines from the start |
| `SourceMapBuilder.V3Sourcemap.SourceIdx` | compiler/c_sourcemap.nim:381-388 | the path's index in a table without repetitions, in the order of first use |
| `SourceMapBuilder.V3Sourcemap.ResolveAnnotations` | compiler/c_sourcemap.nim:399-449 | one pass gives each kept annotation the position at which its offset stands, the nearer end for one outside the text, in order of offsets; invalid files, line 0 and files without path are dropped |
| `SourceMapBuilder.ResolvedAscend` | compiler/c_sourcemap.nim:461-463 | annotations leave the pass already sorted by generated position, so the second sort changes nothing |
| `SourceMapBuilder.V3Sourcemap.EmitMappings` | compiler/c_sourcemap.nim:451-500 | appends exactly the encoding of the sorted annotations, relative to the origin |
| `SourceMaps.EmittedDecodes` | compiler/c_sourcemap.nim:451-500 | decoding what one call emits into an empty field gives back exactly the annotations, sorted by line and then by column |
| `SourceMaps.AppendedDrifts` | compiler/c_sourcemap.nim:466-500 | what a call on a non-empty field emits is decoded displaced by the position at which the field ended |
| `SourceMaps.AppendedExact` | compiler/c_sourcemap.nim:466-500 | a second call is decoded correctly exactly if nothing is appended, the field ended at the origin, or only its column is pending and a new line follows |
| `SourceMapBuilder.MapModule` | compiler/cgen.nim:2613-2621 | decoding the emitted string gives one mapping for each annotation with a file, a line and a path, where its offset stands in the code, and no others |
| `Rebasing.RebaseOffset` | compiler/cgen.nim:2277-2290 | the binary search finds the last rewrite that starts at or before the offset |
| `Rebasing.RebasedIsImage` | compiler/cgen.nim:2277-2290 | a rebased offset is the image of the byte under the replacement of directives |
| `Rebasing.RebasePreserves` | compiler/cgen.nim:2292-2345 | a byte outside the directives is found unchanged at its image |
| `Rebasing.DirectiveImage` | compiler/cgen.nim:2277-2290 | a byte of a directive is rebased to the start of the call that replaced it |
| `Rebasing.ImageAscends` | compiler/cgen.nim:2343-2345 | rebasing keeps the order of offsets |
| `Rebasing.PostprocessCode` | compiler/cgen.nim:2292-2341 | finds the directives, replaces each by its call and records where, or fails on one that is not understood |
| `Rebasing.CutIsText` | compiler/cgen.nim:2308-2341 | the pieces that the code is cut into are the code, nothing lost or taken twice, and every directive takes up some of it |
| `DirectiveCuts.CutExact` | compiler/cgen.nim:2308-2341 | code is understood exactly if it can be cut into plain code and directives, each from a start character to the first end character and with a call, and a tail without a start character; it can in one way only |
| `Rebasing.RebaseAfterPostprocess` | compiler/cgen.nim:2292-2345 | the offset after post-processing selects the same byte as before |
| `ModuleMaps.MapSection` | compiler/cgen.nim:2375-2395 | any run of sections, flattened, post-processed, resolved and encoded: the string decodes to one mapping for each annotation kept, at the line and column of its first byte in the final code, and each annotation covers what it covered when recorded |
| `TypeContainment.IsPartOf` | compiler/aliases.nim:67-71 | on any cyclic type graph, with types marked by number: a positive answer has a path of types with different numbers to a match; if no two types reached share a number, it is positive exactly if a match is reachable, and after a negative one no value of `b` has a part that matches; if besides all types reached have values, a positive one means that some value of `b` has such a part |
| `TypeValues.PartsExact` | compiler/aliases.nim:26-65 | some finite value of a type has a part of another type exactly if that is reached over types with values, each a component of one whose other components have values too |
| `TypeValues.PartsReached` | compiler/aliases.nim:26-65 | a part of a value is always reached by the search's edges, and everything reached is part of a value if all types reached have values |
| `TypeValues.EndlessTuple` | compiler/aliases.nim:61-64 | an input without values: a tuple in itself, from which the other field is reached although nothing is part of it |
| `TypeContainment.IsPartOfType` | compiler/aliases.nim:47-65 | with any marker: a positive answer has a path to a match over types whose numbers are not marked and differ; after a negative one all that is newly marked is free of matches, and what it leads to is marked by number |
| `TypeContainment.IsPartOfRec` | compiler/aliases.nim:26-45 | the same for record nodes, variant branches included |
| `TypeContainment.SearchedAll` | compiler/aliases.nim:67-71 | a search that started with an empty marker is right if positive, and complete if no two types met share a number |
| `TypeContainment.SameNumber` | compiler/aliases.nim:50-51 | an input that goes wrong: the type inside has the number of the one outside, as `IdTables.ToIdCollision` allows, and is passed over although values of the one are parts of the other |
| `AccessPaths.CollectImportantNodes` | compiler/aliasanalysis.nim:76-94 | the nodes between an expression and its root; none if it is no path |
| `AccessPaths.WhereIs` | compiler/aliasanalysis.nim:76-91 | evaluating an expression step by step, a dereference undoing an address, leads to the location that its nodes give once addresses are undone |
| `AccessPaths.NoRoot` | compiler/aliasanalysis.nim:76-94 | an expression that leads nowhere is answered `no`; of every other one the nodes collected are the steps to its location, if it dereferences no address |
| `AccessPaths.Aliases` | compiler/aliasanalysis.nim:93-127 | the loop's verdict on two expressions |
| `AccessPaths.Documented` | compiler/aliasanalysis.nim:60-75 | the answers that the comment at its head lists, with any path without runtime indexes for `x` |
| `AccessPaths.AliasesExact` | compiler/aliasanalysis.nim:93-127 | `yes` exactly if one path is a prefix of the other under every evaluation of every runtime index, `no` exactly if under none |
| `AccessPaths.Reflexive` | compiler/aliasanalysis.nim:93-127 | a path is its own alias for certain exactly if it has no runtime index |
| `AccessPaths.Transitive` | compiler/aliasanalysis.nim:93-127 | `yes` is transitive |
| `AccessPaths.AliasedByNodes` | compiler/aliasanalysis.nim:93-127 | the answer is `no` exactly if the first path is longer or some step tells the nodes apart, `yes` exactly if it is not and every step equates them |
| `AccessPaths.SameFormsExact` | compiler/aliasanalysis.nim:111-120 | where dereferences at the same step have the same form, and no address is dereferenced, `yes` is answered exactly if the one location contains the other under every evaluation of indexes, and `no` exactly if under none |
| `AccessPaths.SeesLocation` | compiler/aliasanalysis.nim:76-91 | the nodes collected are the path of the location denoted exactly if no address is dereferenced on the way |
| `AccessPaths.NoIsWrong` | compiler/aliasanalysis.nim:93-127 | `no` is answered for locations that can coincide exactly if their paths can meet node by node but the nodes collected run out or are told apart at some step |
| `AccessPaths.NoIsWrongByForm` | compiler/aliasanalysis.nim:111-112 | without a dereference of an address, that is exactly if the paths can meet and at some step both have a dereference, of different forms |
| `AccessPaths.YesIsWrong` | compiler/aliasanalysis.nim:93-127 | `yes` is answered for a location that need not contain the other exactly if the nodes collected are equated throughout but the paths need not meet node by node, which takes a dereference of an address |
| `AccessPaths.MixedForms` | compiler/aliasanalysis.nim:111-112 | an example: `x[]` against the hidden `x[]` |
| `AccessPaths.AddressThenDeref` | compiler/aliasanalysis.nim:81-87 | an example: `addr(x)[]` is said not to contain `x.f` |
| `AccessPaths.DerefThenAddress` | compiler/aliasanalysis.nim:81-87 | an example: `x[]` is said to contain `addr(x)[]`, which is `x` |
| `LineEditor.Editor.Insert` | lib/wrappers/linenoise/linenoise.c:638-662 | inserts at the cursor while there is room |
| `LineEditor.Editor.Delete` | lib/wrappers/linenoise/linenoise.c:724-731 | deletes to the right of the cursor |
| `LineEditor.Editor.Backspace` | lib/wrappers/linenoise/linenoise.c:734-742 | deletes to the left of the cursor |
| `LineEditor.Editor.DeletePrevWord` | lib/wrappers/linenoise/linenoise.c:746-758 | cuts the previous word and the blanks after it |
| `LineModel.WordStartIs` | lib/wrappers/linenoise/linenoise.c:750-753 | what is cut is one maximal word followed by maximal blanks |
| `LineEditor.Editor.Transpose` | lib/wrappers/linenoise/linenoise.c:847-855 | swaps the characters around the cursor |
| `LineEditor.Editor.HistoryNext` | lib/wrappers/linenoise/linenoise.c:700-720 | saves the edited line in its entry and shows the next or previous one, as far as it fits |
| `LineEditor.Editor.Press` | lib/wrappers/linenoise/linenoise.c:814-949 | every key does to the buffer what it does to the text, and keeps pos <= len <= buflen, the terminator and an index into the history |
| `LineModel.EditHalves` | lib/wrappers/linenoise/linenoise.c:832-949 | what each key makes of the text before and the text after the cursor |
| `LineModel.HistoryKeys` | lib/wrappers/linenoise/linenoise.c:700-720 | which entry each history key shows, how much of it, and what it stores |
| `LineEditor.EditOneLine` | lib/wrappers/linenoise/linenoise.c:768-952 | a whole line: outcome, text and history after any sequence of keys |
| `LineModel.TypedIsAccepted` | lib/wrappers/linenoise/linenoise.c:768-827 | text that is typed and fits is what Enter returns, and the history is as before |
| `LineModel.StoppedLine` | lib/wrappers/linenoise/linenoise.c:790-845 | what Enter, Ctrl-C, Ctrl-D on an empty line and the end of the input return, and what each leaves in the history |
| `LineModel.KeyStaysSound` | lib/wrappers/linenoise/linenoise.c:814-949 | every key keeps the text within the buffer, the cursor within the text and the history free of NULs |
| `LineModel.OlderThenNewer` | lib/wrappers/linenoise/linenoise.c:700-720 | exactly when going to the older entry and back shows the edited text again |
| `LineModel.VisitShortens` | lib/wrappers/linenoise/linenoise.c:700-720 | an entry that is only visited is shortened to what fits, and the edited line is stored up to its first NUL |
| `LineModel.PlainSessionKeepsHistory` | lib/wrappers/linenoise/linenoise.c:790-818 | a line entered without visiting the history leaves the other entries as they were |
| `LineModel.TypedThenErased` | lib/wrappers/linenoise/linenoise.c:638-742 | backspace and delete undo an insertion that fitted |
| `LineModel.TransposeSwaps` | lib/wrappers/linenoise/linenoise.c:847-855 | transposing permutes the text and undoes itself at the end of the line |
| `LineEditor.History.Add` | lib/wrappers/linenoise/linenoise.c:1108-1135 | appends a line unless it repeats the latest, dropping the oldest when full |
| `LineModel.RememberedKeeps` | lib/wrappers/linenoise/linenoise.c:1108-1135 | afterwards the history is the latest of the other entries followed by the line |
| `LineModel.LatestIs` | lib/wrappers/linenoise/linenoise.c:1108-1167 | the latest entries are the last in the list; a history without room remembers nothing |
| `LineEditor.History.SetMaxLen` | lib/wrappers/linenoise/linenoise.c:1141-1167 | keeps the latest entries; a length below 1 is refused and changes nothing |

## Left out

- BTrees.BTree.Add: on the heap keys are reals under `<`; the source takes any key type with a `cmp` that orders it. `AnyKeys.RunGives` states the results for such keys, on the value tree; key types with uncountably many values are not covered.
- NifWriting.Writer.WriteSym: whether a name is local is a fixed attribute of the symbol. In the source it also depends on `locals`, which grows while the writer is inside a routine (`inProc`), so a symbol named before its declaration is met gets a name with a module suffix and later one without. When the two agree is not stated. Package symbols, which are written once for each package name, are not modelled.
- NifWriting.Writer.WriteSymDef: `collectGenericParams` (compiler/ast2nif.nim:304-319), which adds the generic parameters of a routine to `locals` before its type is written, for the same reason.
- NifWriting.Writer.WriteNode: `addLocalSyms` (compiler/ast2nif.nim:440-454) in let, var and const sections, loops and parameter lists, which adds what they declare to `locals`, for the same reason.
- NifReach.ReachableDefinedOnce: counts definitions by item; `exactReplica` (compiler/ast.nim:1108-1113) makes a second type object with the id, and so the name, of the first but a state of its own, which would be written again.
- NifLoading.Loader.LoadSymStub: the lookup of a name in the module's index, and the ids of stubs.
- NifRoundTrip.NodeTrip: covers `nil`, empty nodes (with flags only if typed), identifiers, char, int, uint, string and nil literals, symbol nodes and generic inner nodes; not `nkNone`, floats, imports, includes, exports, routine definitions and lambdas.
- NIF line infos, comments, node flags of symbol nodes, packages, log entries, index offsets, module lookup, and the pools and enum tables, which are taken as injective.
- The type that a node of a symbol with a module suffix gets lazily from its symbol is a parameter of the loader that agrees with the written graph; `NifSession.LazySymTrip` is what loading that symbol gives.
- Interned identifiers are numbers with a fixed hash; the hash function itself is arbitrary.
- Integer widths: ids, counters, offsets and literals are unbounded; the low bits of a hash are exact for negative numbers too.
- `TTabIter` and `nextIdentExcluding`: a linear scan, and the overload iterator with a filter.
- `compareTypes` and `skipTypes` on type graphs: the first is an arbitrary predicate, the second is applied in the graph's base-class edges. `isPartOf` on expressions is not modelled.
- Access paths with more than one index in a bracket or with non-integer literal indexes.
- `bridgeExpansionInfo`, `toFullPath`, the JSON text and the file of a source map: positions are given bridged, and paths come from an arbitrary function.
- Rebasing.PostprocessCode: the call for what is inside a directive is a parameter (`Calls`); the three parts of a line directive and the text of `nimln_` and `nimlf_` are not modelled.
- ModuleMaps.MapSection: on the flat storage, the default; `AgreeIffNothingOwed` carries it over to the tree.
- A section that is merged into itself: the flat storage would grow while it is iterated.
- The decoder of mappings reads segments of four fields only, the kind the encoder writes.
- In the line editor: the decoding of characters and escape sequences to keys, drawing, raw mode, hints, completion and multi-line mode; a buffer of fewer than two characters, which the constant size rules out; allocation failures.
- The history file, and `history` entries handed to other code.
