# mold-macho: a verified model of its whole-link transformations

mold-macho is a Mach-O linker whose expensive passes run on all cores and are meant to
give what a simple serial pass would. This project models those passes in Dafny and
proves that they do, or proves exactly when. Atomics are sequentially consistent steps,
and a parallel loop is any interleaving of its tasks. Parts of the source that update
arrays, maps and objects in place are methods and classes proved against functions;
races are state machines with an invariant over every run.

## The parts

**Identical code folding** (`macho/icf.rs`)
- `DigestMap`, `DigestMapProgress`: the lock-free digest table over its real words (15
  bits of round, a busy bit, 48 bits of tag), in atomic steps of any number of threads,
  spurious compare-exchange failures included. A round counts the distinct digests and
  elects the lowest candidate of each; every schedule that keeps changing the state ends;
  the table is reused by the next round without clearing. `Find`'s result is
  `Classes.Leader`, which is what the fold works from.
- `IcfRefine`, `Classes`: the propagation rounds over two swapped buffers, and the loop
  that counts after every third one.
- `IcfGraph`: replacement chains, base digests, candidate edges, and the array filled by
  recursive halves.
- `IcfFold`, `Icf`: the fold, and the pass end to end. What a subsection means is
  `Unfold`, its tree of contents, relocations and unwind records to any depth.
- `IcfAlike`: which functions are to fold, said of subsections, symbols and unwind records
  alone; the pass folds two functions exactly if they are so related.
- `IcfChain`: a link for which the rounds run out.
- `Alignment`: where a subsection may start, and what raising a leader's alignment does
  for the members folded into it.

**Dead stripping** (`macho/dead_strip.rs`): `LinkGraph` (what a reference is, case by case, the edges the
linker reads off, least closed sets, paths),
`MarkPool` and `MarkTheorem` (the task pool with its batches and inline recursion),
`DeadStrip` (roots, the serial walk, why chains), `MarkMatchesWalk` (the two agree), and
`LiveSupportPass` in `LiveSupport.dfy` (the live-support pass and the sweep).

**Objects** (`macho/input_files.rs`)
- `Split`, `SplitRelocs`: sections cut into subsections, relocations handed out.
- `SymbolRank`, `SymbolRace`, `SymbolClaim`: the packed rank against the order of preference,
  the race, the claims, and what a claimed symbol is.
- `Unwind`, `UnwindCompact`: unwind records grouped, ranged and compacted.
- `Integrate`, `IntegrateBatch`: a batch integrated at once, against one object at a time.

**Output** (`macho/output_file.rs`): `OutputFile` (how a range is cut) and `OutputRun` (the
writers, the kernel and `close`).

**Metadata** (`macho/objc.rs`, `macho/dtrace.rs`)
- `ObjcMerge`, `ObjcCategories`, `ObjcDispatch`: category merging and message dispatch.
- `ObjcFinder`, `ObjcBlocks`, `ObjcMentions`: the method lists found in blocks, against one
  finder, and that finder's against every list mentioned.
- `ObjcPairs`: page halves paired with offset halves.
- `DofBytes`, `DofTables`, `DofLayout`, `DofWrite`, `DofFile`, `DofRegister`, `DofBuild`: a
  DOF from its probe sites to its bytes; `DofRead`: a reader of those bytes, and when it
  gets back what was registered, down to each site.

`Arith`, `Options`, `Sequences`, `StableSort` and `Targets` hold what several of them need.

## What the proofs found

- **The digest table's round wraps.** A slot's stamp has 15 bits. From round 2^15 on no
  word carries the round's number (`DigestMap.RoundStampReadsBack`), every insert that
  finishes returns true, and a round counts the candidates instead of their digests
  (`DigestMap.LateRoundsCountAll`, `DigestMap.RoundCounts`). The refinement loop counts that
  way in the model too.
  - Its last round fits the stamp exactly if the classes have settled three propagations
    before the last that does (`IcfRefine.FitsIffSettled`). With fewer than 2^15 - 2
    candidates it always does, as the round is at most two more than their number
    (`IcfRefine.Refine`); then the pass folds exactly the functions that are
    alike (`Icf.IcfSections`).
  - Whatever the last round, the digests it leaves tell exactly which candidates are
    bisimilar if and only if the classes have settled after 3 * 2^15 propagations
    (`IcfRefine.SaysIffSettled`).
  - On a chain of equal functions that each call the next, a propagation adds one class
    (`IcfChain.ChainCounts`). 98,307 of them stop the loop at round 32,769 with two that
    are not bisimilar under one digest (`IcfChain.CallersRunOut`, and
    `IcfChain.FoldCallers` with the pass itself).
  - Slots compare 112 of a digest's 128 bits, so distinct digests of a round must differ
    there (`DigestMap.Round.Sized`).
- **A leader's raised alignment does not always serve its members.** The leader keeps its
  own address as modulus. A member folded into it keeps its place modulo its alignment
  exactly if the two addresses agree modulo that alignment (`Alignment.RaisedLeaderSuits`;
  `Alignment.RaisedLeaderMisses` is a class where they do not), although
  `macho/icf.rs:690-692` raises the alignment so that the leader suits every reference.
- **Category merging preserves dispatch exactly if nothing is shadowed and the order is
  kept** (`ObjcDispatch.DispatchKept`), both read off the image before the pass. Of a
  class whose categories merge (`ObjcDispatch.Merges`), and for each selector: if an
  attached category that cannot merge has it, the last one attached with it must be such
  a category (`NoneShadowed`); else the category mentioned last for the first time must be
  the one attached last (`OrderKept`).
  - A category that cannot merge (too short, not at the start of a subsection, or without
    a readable name) stays attached and so comes before the merged methods even if it was
    listed before them: `ObjcDispatch.ShortCategoryShadows` is an image where it does.
  - "In `__objc_catlist` order" (`macho/objc.rs:1156-1157`) is the order of first mention in
    either category list; if an object's `__objc_nlcatlist` comes first, the two differ, and
    in the image of `ObjcDispatch.NonlazyFirstReorders` a message finds another method.
  - `category_and_class` is documented to need the record to be a subsection of its own, but
    checks that it starts one and has at least 48 bytes (`macho/objc.rs:1193-1206`); the
    model follows the code.
- **A claim of a discarded definition leaves the symbol undefined** even if another object
  has a definition of a lower preference: no other object takes it up
  (`SymbolClaim.PreferredDefinitionWins`; `SymbolClaim.DiscardedHidesDefinition` is a link of
  two objects where that happens).
- **A DOF reads back exactly if every argument type can be stored** and all counts fit their
  fields (`DofRead.DofReadsBack`). An empty string is not added to the string table, so a
  reader takes the next string in its place: `DofBuild.EmptyTypeIsLost` builds a DOF of one
  site whose argument of the empty type reads back as its function's name.
- **Why blocks are whole pages**: with two one-byte blocks in one page, some run loses a
  byte for good (`OutputRun.PartialBlocksLoseBytes`).

## Model

| member | source | states |
|---|---|---|
| DigestMap.WordFields | macho/icf.rs:111-113 | the published and the busy word have separate fields: round, busy bit and tag read back from both |
| DigestMap.RoundStampReadsBack | macho/icf.rs:113-117 | a slot's stamp reads back as the round exactly if the round is below 2^15; from there on no word reads as the round |
| DigestMap.LateRoundsCountAll | macho/icf.rs:110-161 | from round 2^15 on every insert that finishes, in every interleaving, returns true, so a finished round counts all candidates |
| DigestMap.RoundCounts | macho/icf.rs:589-592 | in every interleaving a round counts the distinct digests if its number fits the stamp, and all candidates if not |
| DigestMap.StepInv | macho/icf.rs:110-161 | every atomic step of every insert keeps the invariant: a probe path holds only this round's other digests, and each claimed slot is its claimer's |
| DigestMap.RoundCountsAndElects | macho/icf.rs:110-161 | in every interleaving exactly one insert of each distinct digest returns true, each digest is in one published slot, and its leader is the least candidate inserted |
| DigestMap.NextRoundStartsVacant | macho/icf.rs:103-105 | after a finished round, the slots of earlier rounds all count as vacant for the next, without clearing |
| DigestMap.Find | macho/icf.rs:163-176 | after a round, looking a digest up ends and gives its leader, the lowest index with that digest |
| DigestMapProgress.StepLowersRank | macho/icf.rs:110-161 | a step either leaves the state alone or lowers a rank over all threads |
| DigestMapProgress.SchedulesAreBounded | macho/icf.rs:110-161 | no schedule has more steps that change anything than the rank of its start |
| DigestMapProgress.NeverStuck | macho/icf.rs:138-141 | while an insert is unfinished some thread can move: one spinning on a busy slot waits for a claimer that can |
| DigestMapProgress.RoundFinishes | macho/icf.rs:589-592 | from every reachable state some schedule finishes the round |
| IcfRefine.Propagate | macho/icf.rs:573-585 | the two buffers after a swap: the new one holds each vertex's digest and its edges' digests hashed, from the old values |
| IcfRefine.BisimilarNeverSplit | macho/icf.rs:573-585 | vertices related by any bisimulation have equal digests in every round |
| IcfRefine.StableIsBisimulation | macho/icf.rs:654-674 | if three propagations leave the number of classes alone, equality of digests is a bisimulation |
| IcfRefine.Refine | macho/icf.rs:658-674 | the loop ends at the first round that repeats a count, as the table counts, at most two more than the candidates; if that round fits the stamp, two candidates have equal digests exactly if they are bisimilar, under a collision-free hash |
| IcfRefine.FitsIffSettled | macho/icf.rs:661-674 | the last round fits the stamp exactly if the classes settled by then: an exact condition on the input |
| IcfRefine.SaysIffSettled | macho/icf.rs:661-674 | whatever the last round, its digests are equal exactly for bisimilar candidates if and only if the classes have settled after 3 * 2^15 propagations |
| IcfChain.ChainCounts | macho/icf.rs:573-592 | on a chain of equal candidates the classes grow by one with each propagation |
| IcfChain.ChainRunsOut | macho/icf.rs:661-674 | a chain of 98,301 or more ends at round 32,769, and its digests are right exactly if it has at most 98,306 |
| IcfChain.CallersRunOut | macho/icf.rs:661-674 | on a link of 98,307 equal functions that each call the next, whatever the hash, the first two, which are not bisimilar, end with one digest |
| IcfChain.FoldCallers | macho/icf.rs:627-674 | the pass on that link ends at round 32,769, one of too many |
| IcfGraph.Resolve | macho/input_sections.rs:63-68 | following replacements ends at the unreplaced subsection of the chain |
| IcfGraph.FillEdges | macho/icf.rs:543-562 | whatever way the vertex range is split, exactly its slice is filled, with each vertex's edges in place |
| IcfGraph.FilledIsCsr | macho/icf.rs:516-523 | the filled array's slice between two indices is that vertex's candidate edges in relocation order |
| IcfGraph.GatherEdges | macho/icf.rs:527-565 | the CSR array of the graph, or none exactly if its edges do not fit 32 bits |
| IcfFold.FoldMembers | macho/icf.rs:694-704 | every member is replaced by its leader and nothing else changes; alignments become the fold of the members' |
| IcfFold.FoldAlignIsMax | macho/icf.rs:690-702 | each leader ends with the greatest alignment of its class, one a member has |
| IcfFold.UnfoldResolved | macho/icf.rs:375-402 | a subsection means what the one it resolves to means |
| IcfFold.FoldPreservesUnfolding | macho/icf.rs:694-704 | after folding members into leaders that unfold alike, every subsection's unfolding to any depth is what it was, and chains still end |
| IcfAlike.RelatedIsAlikeness | macho/icf.rs:375-471 | candidates that the base contents and candidate edges relate are alike: same bytes, shapes and unwind records, references that pairwise go as far into related functions, or to one place or undefined symbol |
| IcfAlike.AlikenessRelates | macho/icf.rs:375-471 | and alike functions have equal base contents and pairwise related candidate edges, a symbol's offset moved into the addend |
| Icf.BisimilarIffAlike | macho/icf.rs:403-471 | bisimilar in the digested graph means alike in the program, under a collision-free hash |
| Icf.EqualDigestsUnfoldAlike | macho/icf.rs:414-468 | bisimilar candidates unfold to equal trees, content, relocations and unwind records included |
| Icf.CollectCandidates | macho/icf.rs:632-642 | the eligible subsections in order, with their inverse index |
| Icf.IcfSections | macho/icf.rs:627-706 | exactly when the pass has too few candidates, too many edges, too many rounds, or folds the eligible subsections; if it folds, two functions that may fold resolve to one subsection exactly if they are alike, the lowest one alike, whose alignment becomes the greatest of its class; no other subsection is replaced and every subsection's meaning is unchanged |
| Alignment.AlignOffsetIsLeast | macho/input_sections.rs:373-379 | a subsection starts at the first offset with the remainder it wants |
| Alignment.LowIsRemainder | macho/input_sections.rs:378-388 | what an alignment's mask leaves is the remainder by it |
| Alignment.P2AlignAtIsGreatest | macho/input_sections.rs:387-390 | the alignment at an address is the greatest power of two, up to the subsection's, that divides it; in a record section, the subsection's own |
| Alignment.RaisedLeaderSuits | macho/icf.rs:690-702 | where a raised leader is placed suits a member exactly if their addresses agree modulo the member's alignment |
| Alignment.RaisedLeaderMisses | macho/icf.rs:690-702 | a leader at 8 and a 16-aligned member at 16: the leader lands at 8 modulo 16 |
| LinkGraph.Image.EdgesAreReferences | macho/dead_strip.rs:319-363 | the list of edges holds v exactly if a relocation of u is to v or to a symbol defined in v, or v is an LSDA of a record or of its FDE, or defines the personality: the record's own, else the CIE's |
| MarkPool.StepSane | macho/dead_strip.rs:369-413 | a step of any task keeps each frame's depth the number of frames below it and at most 3, so at most four are stacked, and every id within the graph |
| MarkPool.StepEffect | macho/dead_strip.rs:369-413 | how each kind of step changes, for every subsection, how often it is pending and waiting |
| MarkTheorem.StepInv | macho/dead_strip.rs:369-426 | every visited subsection is, exactly once, expanded or pending, and each edge of an expanded one is followed or waiting |
| MarkTheorem.StepLowersPotential | macho/dead_strip.rs:369-426 | a step of a task with work left lowers the potential; any other step changes nothing |
| MarkTheorem.MarkIsLeast | macho/dead_strip.rs:415-426 | for every schedule that leaves no work, the visited set is the least one closed under references, each redirected to its replacement, and each member was expanded exactly once |
| MarkTheorem.MarkEnds | macho/dead_strip.rs:422-426 | from every state some schedule leaves no work |
| MarkMatchesWalk.MarkEqualsWalk | macho/dead_strip.rs:422-450 | parallel marking and the serial walk mark the same subsections |
| MarkMatchesWalk.EveryScheduleEnds | macho/dead_strip.rs:422-426 | a schedule that always picks a task with work is no longer than the potential of its start |
| DeadStrip.CollectRoots | macho/dead_strip.rs:170-182 | the roots are exactly the replacements of the candidates, each once, marked, with the reason of the first candidate that leads to it |
| DeadStrip.Walk | macho/dead_strip.rs:432-450 | the walk's visited bits and reasons: closed under edges, each reason one level nearer the start |
| DeadStrip.WalkedIsLeast | macho/dead_strip.rs:432-450 | what a walk has marked is the least closed set containing what was marked |
| DeadStrip.LevelIsLeastDistance | macho/dead_strip.rs:432-450 | no path from the start set is shorter than the level the walk gives its end |
| DeadStrip.PrintChain | macho/dead_strip.rs:550-568 | a chain ends at a root reason after as many links as its rank, each link a real redirected edge |
| DeadStrip.ChainIsShortest | macho/dead_strip.rs:550-568 | for what the roots' walk reached, a chain backwards is a path from a root, and none is shorter |
| LiveSupportPass.RefersToLive | macho/dead_strip.rs:474-477 | whether something a subsection refers to, redirected, has been visited |
| LiveSupportPass.StagesClosed | macho/dead_strip.rs:473-485 | the visited set is closed under edges after every turn of the pass |
| LiveSupportPass.NewlyLive | macho/dead_strip.rs:473-485 | each newly visited subsection is in every closed set with the replacement of some live-support subsection that referred to a visited one at its turn |
| LiveSupportPass.MarkLiveSupport | macho/dead_strip.rs:457-486 | the pass runs through its stages in input order, keeping every rank and reason |
| LiveSupportPass.Sweep | macho/dead_strip.rs:490-495 | alive are exactly those alive and visited before, and no visited bit stays |
| LiveSupportPass.DeadStripAll | macho/dead_strip.rs:46-69 | roots, walk, live support and sweep together: exactly what references from the roots and from live support reach stays alive, every why chain is sound, and every root's reason its first candidate's |
| Split.InitializeSection | macho/input_files.rs:1694-1724 | below 4 GiB the subsections tile the section, cut at its address and at each split point inside it |
| Split.TilesExactly | macho/input_files.rs:1694-1724 | each address of the section is in exactly one of its subsections |
| Split.SectionTargetKeepsAddress | macho/input_files.rs:1849-1864 | a section-relative target keeps its address modulo 2^64, and is in the subsection that holds it, or the first or last if none does |
| SplitRelocs.HandOut | macho/input_files.rs:1794-1807 | the merge walk hands every relocation inside the section to the run of exactly the subsection that holds it, its absolute place unchanged, the runs in line |
| SplitRelocs.InOneRun | macho/input_files.rs:1794-1807 | each relocation handed out is in exactly one run |
| SplitRelocs.PairStaysTogether | macho/input_files.rs:1779-1784 | neighbours at one offset are neighbours in the same order after the sort |
| SplitRelocs.PairInOneRun | macho/input_files.rs:1794-1807 | and go to one subsection |
| SplitRelocs.RebaseTargets | macho/input_files.rs:1786-1792 | symbol targets stay, addend included; a section and addend become a subsection of that section and an addend that give the same address modulo 2^64; it fails exactly if a target's section was discarded |
| SplitRelocs.ReadRelocations | macho/input_files.rs:1765-1809 | one section's relocations sorted, their targets rebased to the same addresses, and handed out, unless a target's section was discarded |
| SymbolRank.RankIsPreference | macho/input_files.rs:4063-4109 | the packed rank orders definitions as the preference does: a real one before a tentative, a live object's before a lazy one's, strong before weak, the better weak copy or the earlier phase, the earlier file; no rank is the vacant one, and two objects never tie |
| SymbolRace.CompetesWithRank | macho/input_files.rs:4063-4083 | an entry has a rank in the race exactly if it is an external definition, a real or a tentative one, among its object's globals, of an object in the link if only those race |
| SymbolRace.RanksArePreference | macho/input_files.rs:4050-4109 | among a symbol's definitions the lower rank is the preferred one |
| SymbolRace.RaceFindsLeast | macho/input_files.rs:4175-4189 | whatever the schedule of atomic minimums, each symbol ends with the least rank of its definitions |
| SymbolRace.LeastRankIsUnique | macho/passes.rs:220-232 | the outcome of the race is one value per symbol |
| SymbolRace.RaceObject | macho/input_files.rs:4175-4189 | one object's pass lowers each symbol's rank to the least of its own definitions, and to nothing else |
| SymbolClaim.WritersAreAlone | macho/input_files.rs:4206-4214 | no two objects are ever at one symbol, a claim that resets the rank included |
| SymbolClaim.ClaimsAreOrderFree | macho/input_files.rs:4193-4216 | whatever the schedule, each symbol ends as its owner's entries in order make it, and others stay as they were |
| SymbolClaim.ClaimAll | macho/passes.rs:234-245 | one object after another gives the outcome that every schedule gives, and after the race each symbol is what the entry that decides it says |
| SymbolClaim.FinalIsUnique | macho/passes.rs:234-245 | that outcome is one |
| SymbolClaim.ClaimIsAsDefined | macho/input_files.rs:4115-4171 | a claimed symbol by the kind of its entry: file, subsection and the offset that gives the entry's address back, or absolute, tentative, lazy or discarded; every attribute exactly as the entry's bits say; the rest as before |
| SymbolClaim.SomeDecides | macho/input_files.rs:4193-4216 | a symbol with definitions in the race has an entry that decides it; one without stays as it was, vacant |
| SymbolClaim.PreferredDefinitionWins | macho/input_files.rs:4115-4216 | the entry that decides a symbol is one no other is preferred to, the first of its object's so whose section was discarded, or the last if none was; the symbol becomes what it says, and is vacant exactly if it was discarded |
| SymbolClaim.DiscardedHidesDefinition | macho/input_files.rs:4142-4146 | a link of two objects where the preferred definition was discarded: the symbol ends undefined although the other object defines it |
| Unwind.GroupUnwindRecords | macho/input_files.rs:2575-2597 | one run per subsection, records in their old order, runs in the order of their first records; grouped records unchanged |
| Unwind.SetRanges | macho/input_files.rs:2194-2205 | the walk over runs gives each run's subsection its range |
| Unwind.SpansAreExact | macho/input_files.rs:2178-2188 | then every range names exactly its subsection's records |
| Unwind.SpanIsOf | macho/input_files.rs:2180-2188 | which are the subsection's records in order |
| UnwindCompact.RemoveDead | macho/input_files.rs:2209-2236 | FDEs and records of live subsections stay, in order and no others, a record pointing at the FDE it did exactly if that one's own subsection is alive; and every live subsection's range names exactly its records |
| Integrate.PackRoundTrip | macho/input_sections.rs:113-136 | a 32-bit target index survives packing exactly if its top bit is clear |
| Integrate.EachDenotes | macho/input_files.rs:2053-2104 | after integration every index of every object denotes what its local index did, personalities the symbols the object was given, and every unwind range its subsection's records |
| IntegrateBatch.PlacesAreDisjoint | macho/input_files.rs:2357-2370 | no two items of the parts share a slot |
| IntegrateBatch.AppendInParallel | macho/input_files.rs:2373-2385 | whatever the order of the moves, every slot is written and the arena gets the parts in order |
| IntegrateBatch.ArenaBases | macho/input_files.rs:2262-2287 | the prefix sums of the batch |
| IntegrateBatch.SumsAreBases | macho/input_files.rs:2262-2287 | they are where the objects end up one at a time |
| IntegrateBatch.IntegrateObjects | macho/input_files.rs:2297-2355 | a batch leaves the arenas as integrating its objects one by one |
| IntegrateBatch.BatchSymbols | macho/input_files.rs:2310-2339 | each local entry's symbol is a new slot that holds its name and is no other local entry's, each global's the id interned for it |
| OutputFile.CutIsExact | macho/output_file.rs:215-236 | each byte of a range is in exactly one block or edge; blocks are whole pages, of 8 MiB but for the last, edges parts of one page |
| OutputFile.OutputFile.Queue | macho/output_file.rs:212-236 | queueing appends exactly the range's blocks and edges |
| OutputRun.NextInv | macho/output_file.rs:177-254 | every event of the linking thread, the writers and the kernel keeps the invariant |
| OutputRun.FlightsShareNoPage | macho/output_file.rs:128-134 | no two block writes in flight touch one page, and an edge waits for all of them |
| OutputRun.ClosedFileAgrees | macho/output_file.rs:239-254 | after close the file has the buffer's byte at every queued place, whatever the kernel zero-filled |
| OutputRun.LinkedFileIsBuffer | macho/driver.rs:345-371 | the four ranges a link queues hold each byte of the output exactly once, so after close the file is the buffer |
| OutputRun.PartialBlocksLoseBytes | macho/output_file.rs:128-134 | without whole pages, two writes at once can lose a byte for good |
| ObjcMerge.MergeLists | macho/objc.rs:1271-1326 | lists merge exactly if each of the class's and the categories' can be read and its pointers are local; of all five kinds, each category's items are in place: methods and protocols from the last category, properties from the first, the class's own last |
| ObjcMerge.WholeInPlace | macho/objc.rs:1283-1299 | at which index of the class's list of its kind each item of each category ends |
| ObjcMerge.JoinIffLocal | macho/objc.rs:1301-1316 | looking at the merged lists decides whether every list can join |
| ObjcMerge.MergedFinds | macho/objc.rs:1283-1290 | looking in the merged list finds what searching the categories from the last, then the class, would |
| ObjcCategories.FindCategories | macho/objc.rs:1160-1191 | each class's categories in the order first listed, and which have a +load |
| ObjcCategories.NotedInOrder | macho/objc.rs:1156-1191 | a class's categories are in the order of their first mention |
| ObjcCategories.SurvivorsAreLeft | macho/objc.rs:1642-1666 | a rebuilt list holds exactly the entries that did not merge, in order, those of nothing in the image included |
| ObjcCategories.RebuildLists | macho/objc.rs:1642-1666 | every category list keeps its place, with the entries that did not merge in order |
| ObjcCategories.RebuiltAttached | macho/objc.rs:1642-1666 | what the runtime then attaches is what it did, less the merged ones, in order |
| ObjcDispatch.MergeCategories | macho/objc.rs:1011-1086 | the noted categories of a class all merge, its lists becoming the merged ones, exactly if there are any, at most one +load would meet, and everything can be read, rewritten and rebased; else none does |
| ObjcDispatch.UnshadowedIsKept | macho/objc.rs:997-1010 | a message to a class or its metaclass finds the method it did if the class's categories stay, or nothing with its selector is shadowed or reordered |
| ObjcDispatch.DispatchKept | macho/objc.rs:997-1010 | and, where categories and class share no method, only then: an exact condition on the image before the pass, for every class, selector and order of the lists |
| ObjcDispatch.ShortCategoryShadows | macho/objc.rs:1193-1208 | an image of two categories, the first too short to merge: the pass merges exactly the second, and the first's method is found instead of the second's |
| ObjcDispatch.NonlazyFirstReorders | macho/objc.rs:1156-1191 | an image whose nonlazy list is read first: both categories merge in another order than they attach in, and the other one's method is found |
| ObjcDispatch.MergeBoth | macho/objc.rs:1011-1086 | the pass run on those two images: in each, a selector finds another method afterwards |
| ObjcFinder.MethodListFinder.Visit | macho/objc.rs:897-914 | a class's list, then its isa's, for any isa graph, cycles included; it ends |
| ObjcBlocks.VisitKeeps | macho/objc.rs:897-914 | visiting with nothing known finds, besides what an earlier traversal had, exactly what going on from it finds |
| ObjcBlocks.RuntimeMethodLists | macho/objc.rs:808-830 | first visits over blocks of 16 are the list of one finder going through all |
| ObjcMentions.FinderFindsFirsts | macho/objc.rs:832-914 | one finder's lists are the first mentions of all that the entries and whole isa chains lead to, in order, although it stops at every class visited before |
| ObjcPairs.PairClassrefUses | macho/objc.rs:717-747 | page halves map to the next half of their class in their subsection exactly if it is an offset half; the map is injective, and a class is unpaired exactly if a half is in no pair |
| DofBytes.LeNum | macho/dtrace.rs:601-611 | a little-endian number reads back exactly if it fits its bytes |
| DofBytes.ReadBackIffStorable | macho/dtrace.rs:444-458 | strings added in a row, with others after them, read back exactly if none is empty or has a NUL in it |
| DofTables.RecordReadsBack | macho/dtrace.rs:520-531 | a probe record reads back exactly if its counts and offsets fit their fields |
| DofTables.BuildTables | macho/dtrace.rs:497-537 | the tables hold every instance's record, strings, mapping, relocation and sites |
| DofTables.TablesReadBack | macho/dtrace.rs:482-537 | reading the tables gives exactly the registered probes, types, functions and sites if and only if all counts fit and every argument type can be stored |
| DofLayout.PlaceSections | macho/dtrace.rs:573-584 | sections' data aligned, in order and apart |
| DofWrite.LayOutDof | macho/dtrace.rs:566-599 | the headers, the data and the string table last |
| DofWrite.SectionReadsBack | macho/dtrace.rs:566-599 | reading a section by its header gives its data, aligned, before the string table |
| DofWrite.HeadReadsBack | macho/dtrace.rs:584-591 | the file header reads back, with the number of sections and the file's size |
| DofFile.WriteDof | macho/dtrace.rs:466-480 | the whole file, and each site's slot at its place in its kind's offsets |
| DofRead.DofReadsBack | macho/dtrace.rs:460-599 | a reader of the bytes alone gets exactly the registered instances, in order, their sites and tests by the places of their slots, if and only if all counts fit and every argument type can be stored |
| DofRead.RelocationsReadBack | macho/dtrace.rs:522-523 | and for each instance a relocation of its function's name to its record |
| DofRead.ProviderReadsBack | macho/dtrace.rs:552-557 | and the provider's name and attributes, from the record found by its section's type |
| DofRead.HeadSays | macho/dtrace.rs:584-591 | the file's identification, sizes and number of sections, in numbers |
| DofRead.SectionsSay | macho/dtrace.rs:537-563 | each section's header in its place: type, alignment, loadable flag, entry size and length |
| DofRegister.HyphenateSpells | macho/dtrace.rs:315-327 | a probe's name is its field with each "__" a "-", from the left |
| DofRegister.ArgsAreFirst | macho/dtrace.rs:377-403 | a probe's arguments are those of its first probe site |
| DofRegister.Register | macho/dtrace.rs:383-424 | all sites by probe and function in the order of their first sites, or the first site of an unknown encoding |
| DofRegister.EachSiteRegistered | macho/dtrace.rs:383-424 | each site is in exactly one instance, as a site or a test |
| DofBuild.BuildDof | macho/dtrace.rs:280-301 | a provider's DOF of all its sites with slots of which no two are the same, or the first bad site |
| DofBuild.BuiltReadsBack | macho/dtrace.rs:290-301 | every DOF built from named sites decodes to what was registered exactly under that condition |
| DofBuild.SiteReadsBack | macho/dtrace.rs:290-301 | of a built DOF that reads back, every site has an entry with its probe's name, its function's, the arguments its probe's first site declares, and the place of its slot among sites or tests |
| DofBuild.EmptyTypeIsLost | macho/dtrace.rs:448-458 | a DOF built from one site with an argument of the empty type, which reads back as the function's name |

## Left out

- SipHash itself: rounds assume that the hash does not collide on what a link hashes, and a digest's bits are an arbitrary value of the right width.
- Weak memory orderings: atomics are sequentially consistent.
- How icf.rs finds what makes a function eligible (kept ones, address significance, auto-hide): these are flags of a subsection; `report_folds`, debug verification and the names of folded subsections are not modelled.
- Symbol ids in integration: the serial and the batch integration are compared for the same map from an object's entries to symbols; interning names is not modelled.
- IntegrateBatch.BatchSymbols: says nothing of which id interning gives a global name, because the interning table is not modelled.
- Wrap-around of relocation addends in identical code folding: addends there are unbounded integers.
- Icf.IcfSections: when the last round does not fit the stamp (`TooManyRounds`), nothing is said of the fold: what the lookups then read depends on the schedule of that round, and one of them may not end.
- OutputRun.ClosedFileAgrees: holds for writes that succeed; I/O errors and a writer's panic end the link.
- split_ranges, the file's permissions and replacing an existing file.
- mark_live_references, native_refs_before_lto and what makes a subsection a root candidate: the candidates come as a list.
- Dylib exports, tentative definitions' merging and lazy loading after the race (passes.rs): not part of this model.
- ObjcDispatch.DispatchKept: the "only if" needs categories and class to share no method, as one method under two owners hides which of them answers; lists that two classes share and that a merge drops are not modelled.
- ObjcDispatch.MergeCategories: names of merged lists, the rewritten ro records' other fields and the nonlazy class list are not modelled.
- coalesce_objc_refs, relative method lists and selector references: not part of this model.
- Reading DTrace symbol names (fields, unhex, argument types, attributes) and section names: a site comes with its fields already split; these are short pure functions.
- DofRead.DofReadsBack: of files below 4 GiB, of a provider with a name; names of probes and functions have no NUL, as symbol names have none. What the link writes into the slots is not modelled.
- Mach-O load commands, relocation reading per target, CIE and FDE parsing, and everything of the command line.
