# Open vSwitch datapath and classifier, verified

A Dafny model of the parts of the SDPA fork of Open vSwitch 2.1.2 that keep rich state and
have a simple specification that their fast form must agree with:

- **The flow classifier** (`lib/classifier.c`): tuple-space search with staged hash indices,
  prefix tries, metadata partitions and an early stop. After any sequence of insertions,
  replacements, removals and changes of the prefix fields, lookup returns a best matching
  rule, and the wildcard mask that it leaves is safe to install as a megaflow
  (`Flow`, `Lookup`, `Classify`, `Megaflows`, `Tables`, `Upkeep`, `State`, `SubtableOps`,
  `SubtableList`, `Rebuild`, `Search`, `Overlap`, `PrefixMasks`, `TrieBank`, `Classifier`,
  `MaskBounds`, `MetadataExample`, `TwoTries`).
- **The prefix trie inside it**: heap nodes that are split, chained, pruned and merged in
  place refine a bag of bit strings (`Bits`, `Trie`, `TrieHeap`, `TrieClass`).
- **The fat reader-writer lock** (`lib/fat-rwlock.c`) as a step relation over any number of
  threads: exclusion, progress, and what a writer's unlock releases (`FatRwlock`,
  `RwlockProgress`, `RwlockCalls`).
- **The kernel's megaflow table** (`datapath/flow_table.c`): linked bucket chains over two
  versions of links, shared masks with reference counts, rehashing beside readers
  (`FlowChains`, `FlowInstance`, `FlowMasks`, `FlowTable`).
- **The action copier and executor** (`datapath/flow_netlink.c`, `datapath/actions.c`):
  bytes in, flat bytes out, the flat bytes reported back, and the events of running them
  (`Netlink`, `TunnelKey`, `ActionCodec`, `ActionCopy`, `ActionLegal`, `ActionPut`,
  `ExecActions`).
- **BFD sessions** (`lib/bfd.c`): one endpoint, and two over a lossy network (`Bfd`, `BfdPair`).
- **Coupled rings** (`lib/byteq.c`, `lib/async-append-aio.c`) with counters that wrap
  (`ByteQueue`, `AsyncAppend`).
- **The Internet checksum** (`lib/csum.c`) and its incremental update (`Csum`).

## How the model reads the code

- Words are sequences of bits, most significant first; a flow or a mask is the 46 words of
  `struct flow`, and a mask is kept expanded instead of compressed to its nonzero words.
- Hash functions are arbitrary function values, so that every collision is covered. A hash
  table is a sequence or a map of its entries; `find_match` and `find_equal` compare hashes
  before they compare keys, as the code does.
- A classifier rule is a value with an identity in place of its address. `n_rules` of a
  subtable is its number of rules; a subtable is empty exactly if it has no list.
- A trie's stack of edges is an unbounded sequence, and the tree in the heap is described by
  a skeleton of its node references.
- Netlink attributes are little-endian. Padding after the last attribute that a message does
  not hold reads as zeros. A flow key is the five of its fields that `validate_set`
  looks at. The check of a user-space action's own attributes is a parameter. A tunnel key's structure has 24 bytes, the last four
  of them padding.
- A set action that is too short for a nested attribute is refused. The code reads on into
  what follows it, and refuses it whatever it finds there.
- `kmalloc` may round a size up, as to a power of two: at most to twice the size, and to no
  more than 65536 bytes as long as these suffice. So the largest action buffer holds 65516
  bytes, and the 16-bit lengths inside it cannot overflow. A failing allocation or `aio_write`
  can happen anywhere, unless a parameter says that there is memory; `aio_suspend` returns
  when the write is done.
- Time is a parameter of each call and does not wrap around. Random numbers are parameters.
- `fat_rwlock_rdlock` is called at most `UINT_MAX - 1` deep, as the comment on `depth` says;
  `RwlockProgress.NestingLimit` shows that the bound is exact.
- A thread that exits while it holds a read lock breaks the rules, and `free_slot` means to
  abort. But `slot_destructor` first waits for the list's mutex, so that beside a waiting writer
  both threads hang: `RwlockProgress.ExitCanHang`. `RwlockProgress.ReleaseExact` says exactly when
  waiting threads can be let through.
- The comment in `lib/classifier.h` promises disjoint megaflows for all packets, and so the
  same rule for all packets of a megaflow. `MetadataExample.MetadataMatters` gives a
  counterexample with two metadata values. `Megaflows.SameRuleExact` says exactly when the same
  rule is right for the whole megaflow; `Classify.WildcardSound` and `Megaflows.SoundUnskipped`
  are conditions that can be seen before the lookup. Megaflows are disjoint with one trie
  (`Classify.RegionsDisjointOrEqual`), and need not be with two (`TwoTries.TwoTriesOverlap`).

## Model

| member | source | states |
|---|---|---|
| `TrieHeap.RawGetPrefix` | sdpa-software/sdpa-ovs/lib/classifier.c:1246-1260 | the word holds the asked-for bits of the value, left-aligned, across a word boundary |
| `TrieHeap.TrieGetPrefix` | sdpa-software/sdpa-ovs/lib/classifier.c:1267-1278 | at most 32 bits of the value, with the unwanted bits zero |
| `TrieHeap.EqualBitsAreCommon` | sdpa-software/sdpa-ovs/lib/classifier.c:1282-1289 | exclusive-or and count of leading zeros give exactly the length of the common prefix |
| `TrieHeap.BranchCreate` | sdpa-software/sdpa-ovs/lib/classifier.c:1318-1343 | the fresh nodes are a chain of at most 32 bits each for the prefix, with the rules at its end |
| `TrieModel.BranchIsChain` | sdpa-software/sdpa-ovs/lib/classifier.c:1318-1343 | such a chain has the right shape and stores its prefix once and nothing else |
| `TrieModel.LookupLongest` | sdpa-software/sdpa-ovs/lib/classifier.c:1420-1445 | the first result of lookup is the length of the longest stored prefix of the value, or 0 if none is stored |
| `TrieModel.LookupStable` | sdpa-software/sdpa-ovs/lib/classifier.c:1420-1445 | every value that agrees on the first `checkbits` bits gets the same two results |
| `TrieModel.CheckbitsLeast` | sdpa-software/sdpa-ovs/lib/classifier.c:1414-1444 | no fewer bits decide the longest stored prefix: some value that differs only from the last of them on finds another |
| `TrieModel.DeltaPlug` | sdpa-software/sdpa-ovs/lib/classifier.c:1513-1618 | changing one subtree changes the bag of stored prefixes by that subtree's change and nothing else |
| `TrieModel.SplitIsInsertion` | sdpa-software/sdpa-ovs/lib/classifier.c:1525-1546 | splitting a node keeps shape and liveness and adds exactly one prefix |
| `TrieModel.PruneKeeps` | sdpa-software/sdpa-ovs/lib/classifier.c:1590-1613 | pruning a dead leaf and merging a node with its only child keep every stored count |
| `TrieModel.MergeDelta` | sdpa-software/sdpa-ovs/lib/classifier.c:1590-1613 | a node without rules and its only child merge into one node that stores the same prefixes |
| `TrieClass.Trie.constructor` | sdpa-software/sdpa-ovs/lib/classifier.c:262-274 | an empty trie stores nothing |
| `TrieClass.Trie.Walk` | sdpa-software/sdpa-ovs/lib/classifier.c:1521-1527 | the walk stops where the prefix leaves the tree, with the path of nodes to it |
| `TrieClass.Trie.InsertBranch` | sdpa-software/sdpa-ovs/lib/classifier.c:1555-1556 | hanging a new branch adds exactly one prefix |
| `TrieClass.Trie.InsertSplit` | sdpa-software/sdpa-ovs/lib/classifier.c:1525-1546 | splitting a heap node in place adds exactly one prefix |
| `TrieClass.Trie.Insert` | sdpa-software/sdpa-ovs/lib/classifier.c:1513-1557 | the bag of stored prefixes grows by exactly the prefix; the nodes stay a well-shaped tree of separate objects |
| `TrieClass.Trie.PruneMerge` | sdpa-software/sdpa-ovs/lib/classifier.c:1590-1613 | merging in the heap keeps the tree's shape and contents |
| `TrieClass.Trie.PruneUpwards` | sdpa-software/sdpa-ovs/lib/classifier.c:1590-1613 | pruning goes up until every leaf holds a rule, and keeps the contents |
| `TrieClass.Trie.Remove` | sdpa-software/sdpa-ovs/lib/classifier.c:1561-1618 | the bag of stored prefixes loses exactly the prefix, and the result says whether it was there |
| `TrieClass.Trie.LookupValue` | sdpa-software/sdpa-ovs/lib/classifier.c:1420-1445 | the loop over nodes computes the lookup function |
| `PrefixMasks.ContiguousTest` | sdpa-software/sdpa-ovs/lib/classifier.c:1486-1490 | the test for a zero conjunction with the incremented complement holds exactly for prefix masks |
| `PrefixMasks.PrefixLenSpec` | sdpa-software/sdpa-ovs/lib/classifier.c:1468-1495 | the length is the only nonzero length of a prefix mask on the field, and 0 exactly if there is none |
| `PrefixMasks.GetPrefixLen` | sdpa-software/sdpa-ovs/lib/classifier.c:1468-1495 | the word loop computes that length |
| `PrefixMasks.MaskSetPrefixBits` | sdpa-software/sdpa-ovs/lib/classifier.c:1367-1380 | exactly the first bits of the field are added to the mask |
| `PrefixMasks.MaskPrefixBitsSet` | sdpa-software/sdpa-ovs/lib/classifier.c:1382-1398 | true exactly if the mask has all of the first bits of the field |
| `Flow.HashByRanges` | sdpa-software/sdpa-ovs/lib/classifier.c:1080-1118 | hashing the masked words range by range ends in the hash of all of them |
| `Flow.StageHashSame` | sdpa-software/sdpa-ovs/lib/classifier.c:1080-1083 | flows that agree on the mask before a stage's end hash alike there |
| `Lookup.FindMatchIsFirst` | sdpa-software/sdpa-ovs/lib/classifier.c:1040-1053 | the search among the lists with one hash finds what a search of all lists finds |
| `Lookup.SkipExcludes` | sdpa-software/sdpa-ovs/lib/classifier.c:981-1038 | a trie skip means that no rule of the subtable matches the flow |
| `Lookup.SkipSound` | sdpa-software/sdpa-ovs/lib/classifier.c:981-1038 | and it means the same for every flow that the resulting mask cannot tell from it |
| `Lookup.MissSound` | sdpa-software/sdpa-ovs/lib/classifier.c:1080-1088 | a missing stage index entry means that no rule matches any flow with the same masked words |
| `Lookup.SingleDecides` | sdpa-software/sdpa-ovs/lib/classifier.c:1102-1107 | a single candidate that does not match leaves no other rule of the subtable that does |
| `Lookup.FindIsSound` | sdpa-software/sdpa-ovs/lib/classifier.c:1055-1135 | staged lookup with trie skips finds the same rule as a plain search, and its mask is sound, for any stages, tries and hash |
| `Lookup.FindIsSame` | sdpa-software/sdpa-ovs/lib/classifier.c:1055-1135 | with one trie inside one stage, a flow in the region takes the same path and gets the same mask |
| `Search.RunCheckTries` | sdpa-software/sdpa-ovs/lib/classifier.c:981-1038 | the loop with cached trie results computes the trie check |
| `Search.RunFindMatch` | sdpa-software/sdpa-ovs/lib/classifier.c:1040-1053 | the loop computes the hash search |
| `Search.RunFindMatchWc` | sdpa-software/sdpa-ovs/lib/classifier.c:1055-1135 | the loop over stages with its incremental hash computes the staged lookup |
| `MaskBounds.FindMayAdd` | sdpa-software/sdpa-ovs/lib/classifier.c:1064-1133 | a subtable adds only bits of its mask, none behind the first stage at which no rule has the flow's hash, and none in a stage where a trie excludes it but those that the trie decides by |
| `MaskBounds.LookupIsTight` | sdpa-software/sdpa-ovs/lib/classifier.c:494-572 | every bit that a lookup adds may be added by a subtable that has to be searched: its tag meets, and no match in an earlier one is as good as it can give |
| `Classify.TagMeets` | sdpa-software/sdpa-ovs/lib/classifier.c:506-540 | a subtable with a matching rule is never skipped for its tag |
| `Classify.EarlyStop` | sdpa-software/sdpa-ovs/lib/classifier.c:547-551 | nothing after a subtable that cannot beat the best rule can |
| `Classify.LookupReturnsBest` | sdpa-software/sdpa-ovs/lib/classifier.c:495-567 | with or without a mask, lookup returns a matching rule of maximal priority, or none exactly if no rule matches |
| `Classify.WildcardSound` | sdpa-software/sdpa-ovs/lib/classifier.h:57-66 | every flow that the mask cannot tell from the looked-up one, with the same partition tags, gets the same rule |
| `Classify.RegionsDisjointOrEqual` | sdpa-software/sdpa-ovs/lib/classifier.h:76-87 | with one trie, two lookups whose regions share a flow have the same region, rule and mask |
| `Megaflows.OneTrieBySegments` | sdpa-software/sdpa-ovs/lib/classifier.c:824-838 | a field inside one segment lies inside one stage of every subtable |
| `Megaflows.SoundWithoutPartitions` | sdpa-software/sdpa-ovs/lib/classifier.c:524-528 | without rules that fix their metadata, the mask alone decides the rule |
| `Megaflows.SameRuleExact` | sdpa-software/sdpa-ovs/lib/classifier.h:76-87 | the rule found is a best rule for every flow that the mask cannot tell apart, if and only if it is at least as good as every rule that the mask lets such a flow match |
| `Megaflows.SoundUnskipped` | sdpa-software/sdpa-ovs/lib/classifier.c:524-560 | if the tags of the flow's metadata meet those of every subtable, the mask alone decides the rule |
| `MetadataExample.MetadataMatters` | sdpa-software/sdpa-ovs/lib/classifier.h:76-87 | in any classifier with just one rule on the metadata, two flows that the mask cannot tell apart get different results |
| `MetadataExample.BuildExample` | sdpa-software/sdpa-ovs/lib/classifier.c:362-400 | such a classifier is one replacement away from an empty one |
| `TwoTries.TwoTriesOverlap` | sdpa-software/sdpa-ovs/lib/classifier.h:76-87 | with two tries, two lookups whose regions share a flow and are not equal |
| `SubtableOps.ChooseStages` | sdpa-software/sdpa-ovs/lib/classifier.c:819-847 | an index at the end of exactly the segments that have mask bits and are followed by more |
| `SubtableOps.NewSubtable` | sdpa-software/sdpa-ovs/lib/classifier.c:810-863 | an empty subtable with its stages, tag and prefix lengths |
| `SubtableOps.FileAll` | sdpa-software/sdpa-ovs/lib/classifier.c:1161-1168 | the rule goes into every index under the hash of the words before its end, and the full hash comes out |
| `SubtableOps.UnfileAll` | sdpa-software/sdpa-ovs/lib/classifier.c:430-433 | the rule leaves every index |
| `SubtableOps.FindEqual` | sdpa-software/sdpa-ovs/lib/classifier.c:1137-1149 | the list with exactly this match, if there is one |
| `SubtableOps.FindPlace` | sdpa-software/sdpa-ovs/lib/classifier.c:1181-1199 | the place that keeps a list in strictly descending priority |
| `SubtableOps.PlaceRule` | sdpa-software/sdpa-ovs/lib/classifier.c:1169-1203 | the new rule takes the place of the rule with its match and priority, if there is one, and joins otherwise |
| `Tables.JoinList` | sdpa-software/sdpa-ovs/lib/classifier.c:1174-1203 | putting a rule at its place keeps all lists right and changes the set of rules by just that |
| `Tables.RemovedOk` | sdpa-software/sdpa-ovs/lib/classifier.c:435-446 | taking a rule out of its list, and an empty list out of the subtable, removes just that rule |
| `Tables.FileKeeps` | sdpa-software/sdpa-ovs/lib/classifier.c:1161-1166 | the indices then file exactly the old rules and the new one |
| `Tables.UnfileKeeps` | sdpa-software/sdpa-ovs/lib/classifier.c:1208-1211 | the indices then file exactly the other rules |
| `SubtableOps.InsertRule` | sdpa-software/sdpa-ovs/lib/classifier.c:1151-1214 | all parts of the subtable stay consistent; the rules change by the new one and the one it displaced |
| `SubtableOps.RemoveRule` | sdpa-software/sdpa-ovs/lib/classifier.c:414-465 | all parts of the subtable stay consistent; just the rule is gone |
| `Upkeep.MaxAfterInsert` | sdpa-software/sdpa-ovs/lib/classifier.c:895-901 | maximum priority and its count stay exact when a rule is added |
| `Upkeep.MaxAfterRemove` | sdpa-software/sdpa-ovs/lib/classifier.c:941-941 | and when one is removed, unless the maximum is gone |
| `Upkeep.MaxOfHeads` | sdpa-software/sdpa-ovs/lib/classifier.c:944-952 | then the maximum over the list heads, with its count, is exact for all rules |
| `Upkeep.MoveEarlier` | sdpa-software/sdpa-ovs/lib/classifier.c:903-920 | a subtable whose maximum rose moves forward just far enough to keep the order |
| `Upkeep.MoveLater` | sdpa-software/sdpa-ovs/lib/classifier.c:954-970 | a subtable whose maximum sank moves back just far enough to keep the order |
| `Upkeep.TagFrom` | sdpa-software/sdpa-ovs/lib/tag.c:28-35 | a tag is two different bits |
| `Upkeep.TagFromOnto` | sdpa-software/sdpa-ovs/lib/tag.c:28-35 | every pair of different bits is the tag of some seed |
| `Upkeep.TrackAdd` | sdpa-software/sdpa-ovs/lib/tag.c:45-52 | the tracker counts each tag bit once for each rule that sets it |
| `Upkeep.TrackSubtract` | sdpa-software/sdpa-ovs/lib/tag.c:56-64 | and unsets a bit exactly when no rule sets it any more |
| `Upkeep.TracksMeans` | sdpa-software/sdpa-ovs/lib/classifier.c:332-347 | a partition's tags cover the tags of all its rules, and are empty exactly if it has none |
| `SubtableList.FindSubtable` | sdpa-software/sdpa-ovs/lib/classifier.c:796-808 | the subtable with exactly this mask, if there is one |
| `SubtableList.Raise` | sdpa-software/sdpa-ovs/lib/classifier.c:890-922 | the list of subtables stays sorted and the same but for the exchanged one |
| `SubtableList.Lower` | sdpa-software/sdpa-ovs/lib/classifier.c:934-972 | the same after a removal |
| `SubtableList.InsertInto` | sdpa-software/sdpa-ovs/lib/classifier.c:362-371 | the subtables keep distinct masks, order and exact totals, and hold the old rules with the new one for its twin |
| `SubtableList.RemoveFrom` | sdpa-software/sdpa-ovs/lib/classifier.c:414-463 | the same without the rule; an empty subtable goes away |
| `State.StateGivesView` | sdpa-software/sdpa-ovs/lib/classifier.c:362-465 | what every operation keeps is what lookup relies on |
| `ClassifierModel.AddToPartition` | sdpa-software/sdpa-ovs/lib/classifier.c:332-347 | there is a partition for exactly the metadata values in use, with exact counts |
| `ClassifierModel.DropFromPartition` | sdpa-software/sdpa-ovs/lib/classifier.c:448-456 | the same after a removal; a partition without tags goes away |
| `TrieBank.Bank.InsertRule` | sdpa-software/sdpa-ovs/lib/classifier.c:387-391 | each trie gets the rule's prefix on its field, if the mask has one |
| `TrieBank.Bank.RemoveRule` | sdpa-software/sdpa-ovs/lib/classifier.c:424-428 | each trie loses the rule's prefix on its field, if the mask has one |
| `TrieBank.Bank.LookupAt` | sdpa-software/sdpa-ovs/lib/classifier.c:1447-1460 | lookup in one trie, or no restriction if the field is not present |
| `TrieBank.Bank.Reset` | sdpa-software/sdpa-ovs/lib/classifier.c:262-274 | one trie becomes an empty trie on another field; the others stay |
| `ClassifierModel.Classifier.constructor` | sdpa-software/sdpa-ovs/lib/classifier.c:172-188 | an empty consistent classifier with the first segments inside the flow, three at most, and no tries |
| `ClassifierModel.Classifier.Replace` | sdpa-software/sdpa-ovs/lib/classifier.c:362-396 | the rule is in; a rule with its match and priority is out and returned, exactly if there was one; all invariants hold |
| `ClassifierModel.Classifier.Remove` | sdpa-software/sdpa-ovs/lib/classifier.c:414-465 | exactly the rule is out; all invariants hold |
| `ClassifierModel.Classifier.LookupWc` | sdpa-software/sdpa-ovs/lib/classifier.c:495-567 | the rule is best for every flow with this metadata that the mask cannot tell from this one; the mask only grows, and by no bit that no subtable had to look at |
| `ClassifierModel.Classifier.LookupFlow` | sdpa-software/sdpa-ovs/lib/classifier.c:495-567 | without a mask, a best matching rule or none exactly if none matches |
| `ClassifierModel.Classifier.MegaflowsDisjoint` | sdpa-software/sdpa-ovs/lib/classifier.h:76-87 | in every state that the operations reach, megaflows of two lookups are equal or disjoint, with one trie inside one segment |
| `ClassifierModel.Classifier.FindRuleExactly` | sdpa-software/sdpa-ovs/lib/classifier.c:572-598 | the rule with exactly this match and priority, if there is one |
| `ClassifierModel.Classifier.RuleOverlaps` | sdpa-software/sdpa-ovs/lib/classifier.c:621-655 | true exactly if some rule of equal priority can match a packet that the target matches |
| `Overlap.MeetIsAgree` | sdpa-software/sdpa-ovs/lib/classifier.c:638-648 | two rules share a packet exactly if they agree wherever both look |
| `ClassifierModel.PickedSpec` | sdpa-software/sdpa-ovs/lib/classifier.c:224-252 | the chosen fields are the first compatible ones of the list, in order and each once, and all of them unless there is no more room |
| `ClassifierModel.Classifier.InitTrie` | sdpa-software/sdpa-ovs/lib/classifier.c:262-295 | a rebuilt trie stores the prefix of every rule once; all invariants hold |
| `Rebuild.Refill` | sdpa-software/sdpa-ovs/lib/classifier.c:275-295 | prefix lengths are set and every rule's prefix on the field is stored once |
| `ClassifierModel.Classifier.SetPrefixFields` | sdpa-software/sdpa-ovs/lib/classifier.c:224-260 | the tries are on the chosen fields; rules and all invariants stay |
| `FatRwlock.RunInvariant` | sdpa-software/sdpa-ovs/lib/fat-rwlock.c:128-276 | every state of every run keeps the ownership invariant, or has aborted without breaking the exclusion |
| `FatRwlock.RunsExclude` | sdpa-software/sdpa-ovs/lib/fat-rwlock.c:128-276 | while a thread is in the write section, no other thread is in a read or write section |
| `RwlockProgress.ReleaseExact` | sdpa-software/sdpa-ovs/lib/fat-rwlock.c:128-276 | in every state of every run, some way on releases the list's mutex, without an abort, if and only if its holder and the readers it waits for keep the rules |
| `RwlockProgress.RunsProgress` | sdpa-software/sdpa-ovs/lib/fat-rwlock.c:128-276 | whenever a thread waits and no thread has broken the rules, some way on leads to a state in which nobody waits |
| `RwlockProgress.ReleasedIsFree` | sdpa-software/sdpa-ovs/lib/fat-rwlock.c:128-276 | nobody waits for any mutex while the list's mutex is free |
| `RwlockProgress.DoomedStays` | sdpa-software/sdpa-ovs/lib/fat-rwlock.c:88-97 | a holder that waits in vain never lets go, whatever the threads do |
| `RwlockProgress.ExitCanHang` | sdpa-software/sdpa-ovs/lib/fat-rwlock.c:88-97 | a run in which a reader exits beside a waiting writer: both are blocked, nothing has aborted and no step is left |
| `FatRwlock.WriterHoldsAll` | sdpa-software/sdpa-ovs/lib/fat-rwlock.c:41-62 | a thread in the write section holds every slot's mutex and the list's mutex |
| `FatRwlock.ListFrozen` | sdpa-software/sdpa-ovs/lib/fat-rwlock.c:239-264 | the list of slots does not change from a writer's first slot lock to its last unlock |
| `FatRwlock.UnlockReleasesAll` | sdpa-software/sdpa-ovs/lib/fat-rwlock.c:257-264 | a writer's unlock releases exactly the slots of the list that its lock took |
| `FatRwlock.PushInv` | sdpa-software/sdpa-ovs/lib/fat-rwlock.c:161-163 | a new slot joins the list without breaking the invariant |
| `FatRwlock.FreeInv` | sdpa-software/sdpa-ovs/lib/fat-rwlock.c:88-97 | so does a slot that leaves |
| `FatRwlock.SlotLoopInv` | sdpa-software/sdpa-ovs/lib/fat-rwlock.c:239-242 | so does each lock and unlock of a slot by a writer |
| `RwlockProgress.TwoReadersReached` | sdpa-software/sdpa-ovs/lib/fat-rwlock.c:49-62 | two readers, one of them nested to any depth below the limit, at the end of a run |
| `RwlockProgress.NestingLimit` | sdpa-software/sdpa-ovs/lib/fat-rwlock.c:49-62 | one read lock more than the documented depth makes that reader count as a writer beside the other: the bound on nesting is exact |
| `RwlockCalls.CallsReturn` | sdpa-software/sdpa-ovs/lib/fat-rwlock.c:169-276 | in every run a call that returns leaves its caller where it should be: one read level deeper, a writer, one level or the write lock less; a try leaves the caller a level deeper or as it was |
| `RwlockCalls.TryNeverWaits` | sdpa-software/sdpa-ovs/lib/fat-rwlock.c:195-224 | a try never waits, gets the lock if and only if the caller reads already or nobody holds its slot's mutex, and otherwise changes nothing |
| `RwlockCalls.TryFreeIsGranted` | sdpa-software/sdpa-ovs/lib/fat-rwlock.c:195-224 | a try by a thread without a lock is granted whenever nobody holds the list's mutex |
| `RwlockCalls.CallsEnd` | sdpa-software/sdpa-ovs/lib/fat-rwlock.c:128-276 | every step of a call that need not wait brings the call nearer to its end |
| `RwlockCalls.AbortsExactly` | sdpa-software/sdpa-ovs/lib/fat-rwlock.c:75-83 | the calls that abort, and no others |
| `FlowChains.AddHeadChain` | sdpa-software/sdpa-ovs/datapath/flow_table.c:320-326 | linking a flow at the head gives the chain with it in front, in both directions |
| `FlowChains.UnlinkChain` | sdpa-software/sdpa-ovs/datapath/flow_table.c:501-508 | unlinking a flow gives the chain without it |
| `FlowInstance.TableInstance.Insert` | sdpa-software/sdpa-ovs/datapath/flow_table.c:313-326 | exactly one flow more is on the chains; the other version's links stay |
| `FlowInstance.TableInstance.Remove` | sdpa-software/sdpa-ovs/datapath/flow_table.c:501-508 | exactly one flow less is on the chains; it keeps its own links, and so does the other version |
| `FlowInstance.CopyFlows` | sdpa-software/sdpa-ovs/datapath/flow_table.c:328-349 | the new instance has every flow; links and chains of the old one are unchanged for its readers |
| `FlowInstance.DumpNext` | sdpa-software/sdpa-ovs/datapath/flow_table.c:286-311 | the next flow in dump order and the place after it |
| `FlowInstance.DumpSeesAll` | sdpa-software/sdpa-ovs/datapath/flow_table.c:286-311 | a dump from the start sees every flow once and nothing else |
| `FlowMasks.CmpKey` | sdpa-software/sdpa-ovs/datapath/flow_table.c:404-417 | true exactly if the words agree on the range |
| `FlowMasks.MaskKey` | sdpa-software/sdpa-ovs/datapath/flow_table.c:59-73 | the conjunction with the mask on its range, and nothing else |
| `FlowMasks.MaskFind` | sdpa-software/sdpa-ovs/datapath/flow_table.c:532-545 | a mask equal on range and bits, if there is one |
| `FlowTableModel.FlowTable.constructor` | sdpa-software/sdpa-ovs/datapath/flow_table.c:227-241 | an empty table |
| `FlowTableModel.FlowTable.MaskedLookup` | sdpa-software/sdpa-ovs/datapath/flow_table.c:436-457 | a flow with this mask that matches the key, or none exactly if there is none |
| `FlowTableModel.FlowTable.Lookup` | sdpa-software/sdpa-ovs/datapath/flow_table.c:459-475 | found exactly if some stored flow is the key under its mask, under the first mask that has one, with the number of masks tried |
| `FlowTableModel.FlowTable.MaskInsert` | sdpa-software/sdpa-ovs/datapath/flow_table.c:548-568 | the flow gets the equal mask if there is one and a new one in front otherwise; masks stay distinct with exact counts |
| `FlowTableModel.FlowTable.Rehash` | sdpa-software/sdpa-ovs/datapath/flow_table.c:351-363 | a reader of the old instance goes on finding every flow along unchanged links |
| `FlowTableModel.FlowTable.Insert` | sdpa-software/sdpa-ovs/datapath/flow_table.c:570-599 | one flow more, fails only for want of memory for a new mask; grows or rehashes exactly when due |
| `FlowTableModel.FlowTable.PutMask` | sdpa-software/sdpa-ovs/datapath/flow_table.c:165-192 | one user less; the mask leaves the list exactly with its last user |
| `FlowTableModel.FlowTable.Delete` | sdpa-software/sdpa-ovs/datapath/datapath.c:989-995 | one flow less; count, masks, reference counts and uniqueness stay exact |
| `FlowTableModel.FlowTable.DestroyInstance` | sdpa-software/sdpa-ovs/datapath/flow_table.c:250-277 | every flow is unlinked and freed, and no mask is left |
| `FlowTableModel.FlowTable.Flush` | sdpa-software/sdpa-ovs/datapath/flow_table.c:365-381 | no flows, no masks, count zero; unchanged if there is no memory |
| `FlowTableModel.FlowTable.NewOrSet` | sdpa-software/sdpa-ovs/datapath/datapath.c:826-870 | when each outcome happens: created exactly if no flow is for the key, it may be, and there is memory or a mask to share; changed exactly if the flow that lookup returns may be and has the same unmasked key |
| `FlowTableModel.FlowTable.FirstIsOne` | sdpa-software/sdpa-ovs/datapath/flow_table.c:459-478 | the flow that lookup returns is determined by the key |
| `FlowTableModel.FlowTable.CmdDel` | sdpa-software/sdpa-ovs/datapath/datapath.c:977-995 | the flow that lookup returns goes, exactly if its unmasked key is the given one and there is memory for the reply |
| `ActionCopy.ReserveFits` | sdpa-software/sdpa-ovs/datapath/flow_netlink.c:1194-1227 | of the function alone: for which requests the reserved bytes are inside the buffer with every allocator |
| `ActionCopy.ReserveCanFail` | sdpa-software/sdpa-ovs/datapath/flow_netlink.c:1194-1227 | of the function alone: some request for which they are not |
| `ActionCopy.ReserveEnough` | sdpa-software/sdpa-ovs/datapath/flow_netlink.c:1194-1227 | for what a copy into a buffer sized to its input can ask, they always are |
| `ActionCopy.Buffer.constructor` | sdpa-software/sdpa-ovs/datapath/flow_netlink.c:1164-1177 | an empty buffer with room for the input |
| `ActionCopy.Buffer.Reserve` | sdpa-software/sdpa-ovs/datapath/flow_netlink.c:1194-1227 | space inside the buffer, old contents kept across reallocation; refused exactly beyond the limit, and for memory only if there is none |
| `ActionCopy.Buffer.AddAction` | sdpa-software/sdpa-ovs/datapath/flow_netlink.c:1229-1245 | header, payload and zero padding are appended |
| `ActionCopy.Buffer.NestEnd` | sdpa-software/sdpa-ovs/datapath/flow_netlink.c:1260-1267 | only the length at the offset changes, to what was added since |
| `ActionCopy.CopyTunnel` | sdpa-software/sdpa-ovs/datapath/flow_netlink.c:1347-1368 | a set action with the internal form of the tunnel key is appended; refused exactly if the key cannot be read |
| `ActionCopy.FindSampleParts` | sdpa-software/sdpa-ovs/datapath/flow_netlink.c:1278-1294 | the two parts are found if and only if the sample is exactly a probability and actions, in either order, with nothing left over |
| `ActionCopy.CopySample` | sdpa-software/sdpa-ovs/datapath/flow_netlink.c:1269-1316 | the sample that was asked for is appended, its nested lengths right whatever was reallocated, or its first error returned; too large only if it does not fit |
| `ActionCopy.CopyPlain` | sdpa-software/sdpa-ovs/datapath/flow_netlink.c:1485-1497 | any other accepted action is appended as it was sent |
| `ActionCopy.CopyActions` | sdpa-software/sdpa-ovs/datapath/flow_netlink.c:1499-1584 | a flat form of exactly the wanted tree is appended, or the first error of the program is returned; too large only if it does not fit |
| `ActionLegal.AcceptActions` | sdpa-software/sdpa-ovs/datapath/flow_netlink.c:1499-1584 | with memory, a program that fits is accepted if and only if it is legal; what was accepted decodes to the tree that the client asked for |
| `ActionLegal.ProgramExact` | sdpa-software/sdpa-ovs/datapath/flow_netlink.c:1499-1584 | a program is acceptable if and only if nothing is left over in any of its lists, at most three deep, and every attribute is legal: ports, tags, keys and samples in numbers |
| `ActionCopy.ValidatePlain` | sdpa-software/sdpa-ovs/datapath/flow_netlink.c:1511-1567 | the length table and the checks of each action |
| `ActionCopy.ValidateSet` | sdpa-software/sdpa-ovs/datapath/flow_netlink.c:1370-1456 | the length table and the checks of each key that can be set |
| `ActionCopy.SmallFits` | sdpa-software/sdpa-ovs/datapath/flow_netlink.c:1162-1227 | every program of up to 24560 bytes fits, right or wrong |
| `ActionCopy.FitsMeans` | sdpa-software/sdpa-ovs/datapath/flow_netlink.c:1162-1227 | a program fits if and only if its flat form is within the limit |
| `ActionCopy.DecodedSize` | sdpa-software/sdpa-ovs/datapath/flow_netlink.c:1229-1267 | every flat form of a program has the same size |
| `TunnelKey.ReadTunnel` | sdpa-software/sdpa-ovs/datapath/flow_netlink.c:341-428 | a key if and only if every attribute has its length, nothing is left over, a TTL is given and the last destination is not zero; and then the last attribute of each kind |
| `TunnelKey.ReadPutKey` | sdpa-software/sdpa-ovs/datapath/flow_netlink.c:430-463 | every key that can be read is read back unchanged from its attributes, although zero fields are left out |
| `TunnelKey.ReadIsReadable` | sdpa-software/sdpa-ovs/datapath/flow_netlink.c:341-428 | a key that was read has a destination, and an id only with its flag |
| `TunnelKey.InfoRoundTrip` | sdpa-software/sdpa-ovs/datapath/flow_netlink.c:341-463 | attributes to the internal structure and back: the same structure, in no more bytes |
| `ActionPut.PutTunnelKey` | sdpa-software/sdpa-ovs/datapath/flow_netlink.c:430-463 | the whole nest is appended if and only if it fits |
| `ActionPut.PutSet` | sdpa-software/sdpa-ovs/datapath/flow_netlink.c:1622-1648 | an internal tunnel key is converted back, any other key copied; appended if and only if it fits |
| `ActionPut.PutSample` | sdpa-software/sdpa-ovs/datapath/flow_netlink.c:1586-1620 | the sample with its nested actions is appended, both lengths right, if and only if it fits |
| `ActionPut.PutActions` | sdpa-software/sdpa-ovs/datapath/flow_netlink.c:1650-1678 | the Netlink form of the whole flat program is appended if and only if it fits into the message |
| `ActionPut.NestIsAttr` | sdpa-software/sdpa-ovs/datapath/flow_netlink.c:1592-1618 | a nest that is started, filled and ended is one attribute with these contents |
| `ActionPut.PutWant` | sdpa-software/sdpa-ovs/datapath/flow_netlink.c:1499-1584 | from any position, the reported actions are accepted as the same actions and are no longer than what was sent |
| `ActionPut.ReportIsAccepted` | sdpa-software/sdpa-ovs/datapath/flow_netlink.c:1650-1678 | what is reported of any accepted program is accepted again as the same program |
| `ActionCodec.DecodeConcat` | sdpa-software/sdpa-ovs/datapath/actions.c:510-573 | flat lists one after the other are the trees one after the other |
| `ActionCodec.DecodeSample` | sdpa-software/sdpa-ovs/datapath/flow_netlink.c:1296-1315 | a patched sample decodes to its probability and its actions |
| `ExecActions.AcceptedIsReady` | sdpa-software/sdpa-ovs/datapath/flow_netlink.c:1499-1584 | every accepted program can be executed: ports and probabilities are 32 bits and in range |
| `ExecActions.OutputLeft` | sdpa-software/sdpa-ovs/datapath/actions.c:510-573 | an output can be put off to the next action without changing what is sent |
| `ExecActions.PortSurvives` | sdpa-software/sdpa-ovs/datapath/actions.c:515-525 | the ports that survive being kept in a signed integer whose mark for none is minus one |
| `ExecActions.UpcallOnce` | sdpa-software/sdpa-ovs/datapath/actions.c:408-436 | each user-space action of a run gives exactly one upcall, with the packet as the actions before it left it |
| `ExecActions.OutputOnce` | sdpa-software/sdpa-ovs/datapath/actions.c:391-406 | each output sends the packet once, as it then is, if the port exists |
| `ExecActions.ChangeOnly` | sdpa-software/sdpa-ovs/datapath/actions.c:463-508 | any other plain action only changes the packet for those after it |
| `ExecActions.SampleRuns` | sdpa-software/sdpa-ovs/datapath/actions.c:438-461 | a sample runs all of its actions or does nothing but draw |
| `ExecActions.SampleProbability` | sdpa-software/sdpa-ovs/datapath/actions.c:438-461 | of the 2^32 numbers that can be drawn, exactly as many let a sample take effect as its probability says |
| `ExecActions.Datapath.RunSample` | sdpa-software/sdpa-ovs/datapath/actions.c:438-461 | the actions run on the packet itself exactly if the random number says so, and the buffer is kept |
| `ExecActions.Datapath.Execute` | sdpa-software/sdpa-ovs/datapath/actions.c:510-573 | sends and upcalls are those of an interpreter that sends at each output; the buffer is used up once, unless kept |
| `Bfd.BfdSession.constructor` | sdpa-software/sdpa-ovs/lib/bfd.c:340-367 | a new session is down and knows no peer |
| `Bfd.BfdSession.SetState` | sdpa-software/sdpa-ovs/lib/bfd.c:1048-1094 | a session that goes down, or is down for another reason, forgets its peer and its decay; otherwise it keeps them |
| `BfdPair.PollStarts` | sdpa-software/sdpa-ovs/lib/bfd.c:901-912 | in every run a poll starts only above Down and only while no Final is owed |
| `BfdPair.PollEnds` | sdpa-software/sdpa-ovs/lib/bfd.c:764-779 | in every run a poll ends only with an accepted message that answers it or that polls |
| `Bfd.BfdSession.RunSession` | sdpa-software/sdpa-ovs/lib/bfd.c:516-544 | the session expires, decays and polls as due; afterwards a state above Down has a detection time in the future |
| `Bfd.BfdSession.SetNextTx` | sdpa-software/sdpa-ovs/lib/bfd.c:939-945 | the next packet is due after three quarters of the interval at least and one interval at most |
| `Bfd.BfdSession.PutPacket` | sdpa-software/sdpa-ovs/lib/bfd.c:556-630 | the message shows the session; Poll and Final are never both set |
| `BfdPair.FinalIsSent` | sdpa-software/sdpa-ovs/lib/bfd.c:769-779 | in every run a Poll is owed a Final until a message with Final and without Poll is sent |
| `BfdPair.RatesNegotiated` | sdpa-software/sdpa-ovs/lib/bfd.c:764-768 | in every run a session that stays Up slows its sending, or expects its peer to be faster, only when a poll was answered, and then as the poll asked |
| `Bfd.BfdSession.Learn` | sdpa-software/sdpa-ovs/lib/bfd.c:755-791 | what is stored of a message, the detection time it fixes and the next packet after a new remote interval |
| `Bfd.BfdSession.ProcessPacket` | sdpa-software/sdpa-ovs/lib/bfd.c:657-832 | refused packets change only a counter; accepted ones drive the state machine of section 6.8.6 of RFC 5880 |
| `Bfd.BfdSession.Configure` | sdpa-software/sdpa-ovs/lib/bfd.c:371-414 | configured intervals, decay never below the receive interval, a poll exactly if something changed |
| `BfdPair.RunOk` | sdpa-software/sdpa-ovs/lib/bfd.c:516-544 | in every state of every run of two sessions: never Poll with Final, never AdminDown, a known peer above Down, decay only when Up |
| `BfdPair.MessageWasSent` | sdpa-software/sdpa-ovs/lib/bfd.c:556-630 | a message in the network was sent earlier by its sender in the state that it shows |
| `BfdPair.PeerWasHeard` | sdpa-software/sdpa-ovs/lib/bfd.c:759-762 | a session that knows a discriminator has accepted a message of its peer |
| `BfdPair.UpNeedsHandshake` | sdpa-software/sdpa-ovs/lib/bfd.c:734-826 | a session enters Up only on a message sent in Init or Up after the sender had accepted one of the session's own |
| `BfdPair.DetectTimeFixed` | sdpa-software/sdpa-ovs/lib/bfd.c:790-791 | the detection time changes only with an accepted message |
| `BfdPair.AboveMeansAlive` | sdpa-software/sdpa-ovs/lib/bfd.c:516-528 | after a run, a state above Down means that the last accepted message has not expired |
| `BfdPair.HandshakeCompletes` | sdpa-software/sdpa-ovs/lib/bfd.c:657-832 | whenever both sessions of a run are Down, three messages that arrive bring both Up |
| `BfdPair.HearingMoves` | sdpa-software/sdpa-ovs/lib/bfd.c:793-826 | what an accepted message does to the state, case by case |
| `BfdPair.StateChanges` | sdpa-software/sdpa-ovs/lib/bfd.c:793-826 | every change of state in a run has its reason: an expiry, or an accepted message with the right state |
| `BfdPair.RefusedExactly` | sdpa-software/sdpa-ovs/lib/bfd.c:672-753 | the packets that section 6.8.6 of RFC 5880 lets a session drop |
| `BfdPair.RefusedIsIgnored` | sdpa-software/sdpa-ovs/lib/bfd.c:657-753 | they change nothing but a counter |
| `BfdPair.IntervalsLearned` | sdpa-software/sdpa-ovs/lib/bfd.c:602-621 | a delivered message tells its receiver the sender's own intervals, state, diagnostic and discriminator |
| `BfdPair.ExpiryExact` | sdpa-software/sdpa-ovs/lib/bfd.c:516-528 | what was heard keeps a session up until three of the longer of both ends' intervals have passed, and no longer |
| `BfdPair.SlowUnlessUp` | sdpa-software/sdpa-ovs/lib/bfd.c:914-926 | a session that is not Up waits at least three quarters of a second between packets |
| `BfdPair.SendTimes` | sdpa-software/sdpa-ovs/lib/bfd.c:928-945 | the next packet is due between three quarters and one of the longer of both ends' intervals |
| `BfdPair.DecayExact` | sdpa-software/sdpa-ovs/lib/bfd.c:1110-1137 | the session expects fewer packets exactly if hardly more than control packets came in, and then counts afresh |
| `BfdPair.ReconfigurePolls` | sdpa-software/sdpa-ovs/lib/bfd.c:371-440 | a new interval is polled for at once; what burdens nobody is in force at once |
| `ByteQueue.WrapKeepsPlace` | sdpa-software/sdpa-ovs/lib/byteq.c:150-200 | a 32-bit counter that has wrapped masks to the same place |
| `ByteQueue.Queue.Used` | sdpa-software/sdpa-ovs/lib/byteq.c:38-42 | the difference of the wrapped counters is the number of bytes queued |
| `ByteQueue.Queue.Headroom` | sdpa-software/sdpa-ovs/lib/byteq.c:185-191 | contiguous free bytes, some unless the queue is full |
| `ByteQueue.Queue.Tailroom` | sdpa-software/sdpa-ovs/lib/byteq.c:150-156 | contiguous used bytes |
| `ByteQueue.Queue.AdvanceHead` | sdpa-software/sdpa-ovs/lib/byteq.c:195-200 | the bytes stored after the head are queued |
| `ByteQueue.Queue.AdvanceTail` | sdpa-software/sdpa-ovs/lib/byteq.c:168-173 | the oldest bytes are gone |
| `ByteQueue.Queue.Put` | sdpa-software/sdpa-ovs/lib/byteq.c:68-74 | one byte is queued |
| `ByteQueue.Queue.Putn` | sdpa-software/sdpa-ovs/lib/byteq.c:78-90 | all bytes are queued in order, also across the end of the ring |
| `ByteQueue.Queue.Get` | sdpa-software/sdpa-ovs/lib/byteq.c:102-110 | the oldest byte comes out |
| `AsyncAppend.Appender.IsEmpty` | sdpa-software/sdpa-ovs/lib/async-append-aio.c:86-90 | no byte is queued exactly if no write is in flight |
| `AsyncAppend.Appender.IsFull` | sdpa-software/sdpa-ovs/lib/async-append-aio.c:79-84 | full means all control blocks or all bytes are in use, so that there is something to wait for |
| `AsyncAppend.Appender.Retire` | sdpa-software/sdpa-ovs/lib/async-append-aio.c:106-111 | the oldest control block is exactly the head of the queued bytes, so that the tail can advance by it |
| `AsyncAppend.Appender.Wait` | sdpa-software/sdpa-ovs/lib/async-append-aio.c:92-114 | progress, and nothing lost |
| `AsyncAppend.Appender.Start` | sdpa-software/sdpa-ovs/lib/async-append-aio.c:133-153 | one more contiguous chunk follows those in flight |
| `AsyncAppend.Appender.Write` | sdpa-software/sdpa-ovs/lib/async-append-aio.c:116-155 | what is in the file and in flight grows by exactly the data, also when a write cannot be started |
| `AsyncAppend.Appender.Flush` | sdpa-software/sdpa-ovs/lib/async-append-aio.c:157-163 | everything submitted is in the file and nothing is in flight |
| `AsyncAppend.ChunksAreContents` | sdpa-software/sdpa-ovs/lib/async-append-aio.c:116-155 | each write in flight still has its own bytes in the buffer |
| `Csum.CsumContinue` | sdpa-software/sdpa-ovs/lib/csum.c:58-70 | the 32-bit sum of the words |
| `Csum.CsumFinish` | sdpa-software/sdpa-ovs/lib/csum.c:79-86 | the complement of the ones-complement sum |
| `Csum.CsumOf` | sdpa-software/sdpa-ovs/lib/csum.c:29-33 | the Internet checksum of the data if and only if the 32-bit sum survives, which it does up to 131074 bytes |
| `Csum.OverflowHappens` | sdpa-software/sdpa-ovs/lib/csum.c:58-70 | 131076 bytes of ones do not survive: the bound is exact |
| `Csum.SumOfBytes` | sdpa-software/sdpa-ovs/lib/csum.c:58-70 | the sum of the words is the sum of the bytes, those in odd places weighted by 256 |
| `Csum.ChecksumVerifies` | sdpa-software/sdpa-ovs/lib/csum.c:29-33 | data of even length followed by its own checksum, low byte first, has checksum 0 |
| `Csum.OverflowExact` | sdpa-software/sdpa-ovs/lib/csum.c:58-86 | when a sum that lost carries out of 32 bits still gives the same checksum |
| `Csum.Recalc16` | sdpa-software/sdpa-ovs/lib/csum.c:91-103 | equation 3 of RFC 1624 |
| `Csum.Recalc16Exact` | sdpa-software/sdpa-ovs/lib/csum.c:91-103 | the update is the checksum of the changed data if and only if it has a nonzero word, and congruent always |
| `Csum.Recalc32Exact` | sdpa-software/sdpa-ovs/lib/csum.c:108-113 | the same for a 32-bit field |
| `Csum.Recalc128` | sdpa-software/sdpa-ovs/lib/csum.c:118-130 | the same for four 32-bit fields in a loop |

## Left out

- `cls_cursor_*`, loose matching, and copying and formatting of rules: iteration and printing.
- The classifier's own read-write lock: its operations are modelled one at a time.
- The compressed forms `miniflow`, `minimask` and `minimatch`, and the hash functions themselves.
- Rules' and flows' memory management, read-copy-update grace periods and statistics.
- `fat_rwlock_destroy`, which must not run beside any other operation.
- `ovs_flow_tbl_num_masks` and the actions and statistics of a flow that a command changes.
- The parsing and printing of flow keys, other than tunnel keys in actions, and tunnel masks.
- The loop counter of `ovs_execute_actions`, failing packet copies and failing header changes.
- The forwarding flag of a BFD session, its flap count, addresses and logging.
- `byteq_read` and `byteq_write`, which only move bytes to and from a file descriptor.
- FlowTableModel.FlowTable.Insert: key ranges are counted in words instead of bytes, because
  every range is a multiple of the word size; the comparison of times does not wrap around.
- Bfd.BfdSession.ProcessPacket: the remote multiplier is checked but, as in the code, the
  local one is used for the detection time.
