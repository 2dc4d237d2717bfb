# sriov-mac-sync: a verified model

The daemon keeps the unicast filter of an SR-IOV card (its list of addresses, "the card") equal to
what the bridges of the host have learnt. It must never register an address that lives out on the
wire or belongs to a virtual function, never lose track of which entries it owns, and never
overfill the card. This project models the five parts of it that carry those promises and proves
them, for every input and every run.

| module | what it models |
|---|---|
| `Basics` | addresses as six octets with their order; urgencies |
| `Interfaces`, `GraphLaws`, `Autodetect` | the interface graph, possibly cyclic: floods with seen-sets, the inverse edges, what a bridge reaches, the choice of pairs |
| `Netlink`, `Fdb`, `Events`, `VfList`, `Dump` | messages and attributes as octets, forwarding entries, the VF list nested three deep, the grow-and-retry dump against a kernel that may answer anything |
| `ClassicBpf`, `NoiseFilter` | an interpreter for classic BPF and the 25 instructions of the noise filter |
| `NoteText`, `NoteCache` | the ownership note as text with a possibly torn tail, and its stat-checked copy in memory |
| `Ownership`, `Identity`, `Sections`, `NoteAbstraction`, `Agreement` | the ownership protocol with crashes between any two writes; which interface a section reaches while names move; the locked sections as they run; the link to the text of the note, and to what passes and batches write |
| `CardWrites`, `Desire`, `Valve`, `Pass`, `Sync` | what a filter should hold, both arms of the pressure valve, one pass over one uplink, the whole pass |
| `Batch`, `BatchWrites`, `EventPath`, `Runs` | answering a batch of notifications without a dump, and what runs of passes and batches keep |
| `Scheduler` | the timed loop |

State that the source updates in place is a class whose methods are proved against a function of
the old state (`Sync.Syncer`, `Sections.LockedUplink`, `NoteCache.Cache`, `Scheduler.Schedule`,
`Dump.Socket`, `Events.Batch`, `Netlink.Messages`, `Netlink.Attrs`, `Netlink.Buffer`); the laws are
lemmas about those functions. The kernel's answer to each write, the driver's answers, the file
system's failures, the clock and the stopping point of a crash are arguments and arbitrary.

## What turned out to need a condition

* The walks up and down the graph agree about a root exactly when the root is in the reading or no
  interface names it as a lower (`WalksAgreeExactly`; `WalksDisagree` is an instance).
* An append keeps every name of the note exactly when nothing new is written or no torn tail is,
  alone, a whole address (`NoteText.AppendKeepsExactly`); a torn address that is ours is orphaned
  by the next append (`TornAddressOrphans`).
* A batch never orphans exactly when it repeats nothing that is neither noted nor in the card
  (`RegisterKeepsExactly`); both callers remove repeats first.
* The merge that a pass makes in a second locked section keeps every entry exactly when what it
  strikes out is not ours by then, or named elsewhere (`MergeKeepsExactly`); an entry registered
  between the two sections is lost (`LateMergeOrphans`).
* A removal keeps every entry on record exactly when it reaches the interface the note is about, or
  that one is gone, or what it strikes off stands on another note (`GoneFlushKeepsExactly`,
  `AstrayKeepsExactly`). What decides it can be looked at before (`AimsRightExactly`): for a flush
  the index record, or where there is none the name; for a sweep the same, and a name nobody wears;
  for a pass and a batch the name. A record that could not be written, a rename and a flush orphan
  an entry (`UnrecordedRenameOrphans`); so does a batch after a rename whose old name another
  interface took, record or not (`ReusedNameOrphans`).
* The stat-checked copy agrees with the file over completed writes, given that an inode number is
  not handed out again while a copy made under it is kept. An append that stops restores inode and
  length exactly when it stops as many characters in as the tail it cut was long; within one tick of
  the clock the copy is then believed, and is wrong exactly when that is seventeen
  (`StatIsFooledExactly`, with an instance in `TornWriteFoolsTheStat`).
* Taking over a written-down memory never turns the order of two stamps around; it keeps it strict
  exactly above the shift, although the comment in the source claims the order as a whole
  (`ShiftKeepsOrder`; `ShiftLosesOrder` is an instance).
* A step turns a stamp back exactly where a pass could not take the address out, forgot it for that,
  saw it learnt all the same and carries a lower stamp (`TurnsBackExactly`, with an instance in
  `FailedRemovalTurnsBack`). Under one clock that cannot happen (`StampsMoveForward`).
* An address a batch has just learnt can be its own victim, and is in the valve's pool exactly when
  the last pass kept it, stamped itself ahead of the clock, and nothing stamped the address since
  (`JustLearntExactly`); it is a victim exactly when besides fewer of the pool were silent for longer
  than there are slots to free (`JustLearntIsVictimExactly`, with an instance in
  `JustLearntCanBeVictim`). The source says it never can. Only such an address is ever shed and put
  back by one batch (`PutBackWasVictim`).

## Model

| member | source | states |
|---|---|---|
| `Interfaces.Topology.Flood` | src/topology.rs:603-614 | the flood ends on any graph, cycles included, and returns exactly what a path of that relation reaches |
| `Interfaces.Topology.LeadsTo` | src/topology.rs:657-676 | answers whether a chain of lowers leads from one interface to the other, with an early exit and on cycles |
| `Interfaces.Topology.FilterCarrier` | src/topology.rs:686-696 | ends where the recursive definition of a carrier ends |
| `Interfaces.Topology.FilterCarrierHoldsTheList` | src/topology.rs:686-696 | the carrier has no filter below it, or the walk came round a cycle |
| `Interfaces.Topology.PhysicalFunctions` | src/topology.rs:702-727 | collects exactly the functions named by anything reachable through members and VLAN parents |
| `Interfaces.Topology.BridgeAbove` | src/topology.rs:787-803 | finds the first bridge up the master chain and the port under it, or none |
| `Interfaces.Topology.BridgeAboveIsUnique` | src/topology.rs:787-803 | whatever path witnesses it, there is one such bridge and one such port |
| `Interfaces.Topology.ReachFrom` | src/topology.rs:731-747 | one flood gives everything above a bridge and the other bridges built on it |
| `Interfaces.Topology.AnatomyFor` | src/topology.rs:753-782 | port, functions, carrier and sibling vports of a pair; nothing when the device is not under the bridge |
| `GraphLaws.Assemble` | src/topology.rs:561-599 | the two inverse relations are built from the reading, and nothing else of a link changes |
| `GraphLaws.AssembledFromReading` | src/topology.rs:561-599 | over unique indices the inverses are inverse in both directions |
| `GraphLaws.AboveIffLeadsTo` | src/topology.rs:603-676 | an interface is above a root of the reading if and only if it leads to it |
| `GraphLaws.WalksAgreeExactly` | src/topology.rs:619-676 | without the root in the reading, the exact condition for the same agreement |
| `GraphLaws.WalksDisagree` | src/topology.rs:619-676 | a reading in which they do not |
| `GraphLaws.StackedBridgesLeadToRoot` | src/topology.rs:731-747 | the stacked bridges are the other bridges that lead to the root |
| `GraphLaws.AskersAgree` | src/topology.rs:106-124 | pass, event path, quiet keep and silence dating put the same question and get the same answer |
| `Autodetect.Detect` | src/topology.rs:854-915 | for any order of the interfaces: no two pairs share a function on one segment, none sits where another function carries it, and every candidate left out conflicts with such a function or with a pair taken before it |
| `Autodetect.Autodetect` | src/topology.rs:854-915 | the pairs of a host: first in name order wins, so every candidate declined conflicts with another function of its card or with a pair whose interface comes before it by name |
| `Autodetect.CarriedElsewhere` | src/topology.rs:879-893 | whether another function of the same card is already under a related bridge |
| `Netlink.Messages.Next` | src/netlink.rs:1161-1184 | yields the next in-bounds message, ends for good at a malformed header, and always gets nearer the end |
| `Netlink.Attrs.Next` | src/netlink.rs:1217-1234 | the same for attributes, with the flag bits masked off |
| `Netlink.MessageRoundTrip` | src/netlink.rs:1161-1184 | an encoded message is read back in front of anything |
| `Netlink.MessagesRoundTrip` | src/netlink.rs:1161-1184 | any list of encoded messages reads back as that list, and what follows as it would on its own |
| `Netlink.Buffer.PutAttr` | src/netlink.rs:1059-1072 | appends one padded attribute and leaves the rest of the buffer as it was |
| `Netlink.AttrsRoundTrip` | src/netlink.rs:1059-1072 | any list of attributes is read back, kinds below 0x4000 as they were and the others masked |
| `Events.ParseFdb` | src/netlink.rs:1241-1276 | the loop reads exactly the entry the attribute list stands for: the last address, the last master, none without an address or with a non-positive index |
| `Events.Batch.CollectEvents` | src/netlink.rs:934-962 | what a datagram adds to a batch is the concatenation of what each of its messages means |
| `Events.SelfEntryReadsBack` | src/netlink.rs:854-861 | what is asked for reads back as a permanent self entry of that very address and interface, never as a learn |
| `Events.SelfEntryIsNews` | src/netlink.rs:841-862 | the request fits its fields, and whoever collects it sees just that entry added or taken out |
| `Events.LoneMessage` | src/netlink.rs:934-962 | a datagram of one encoded message holds that message and its news |
| `VfList.CollectVfInfo` | src/netlink.rs:1296-1344 | the three nested loops collect what the nested attribute lists stand for |
| `VfList.VfListRoundTrip` | src/netlink.rs:1296-1344 | a VF list written three levels deep, among other attributes and with any flag bits on the list, on each nest and on each attribute in a nest, reads back exactly |
| `ClassicBpf.AndNotThree` | src/netlink.rs:1434-1452 | masking with all ones but the low two rounds a word down to a multiple of four |
| `NoiseFilter.VerdictIsExact` | src/netlink.rs:1440-1466 | the program's verdict over every datagram, 32-bit wrap-around and out-of-range loads included |
| `NoiseFilter.DroppedDatagramsCarryNothing` | src/netlink.rs:1440-1466 | the filter fails open: a datagram it drops adds no event |
| `NoiseFilter.LoneForeignNeighbourIsDropped` | src/netlink.rs:1440-1466 | every lone well-formed non-bridge neighbour message below 64 KiB is dropped, whatever its sender field |
| `Dump.RunDump` | src/netlink.rs:470-522 | an attempt ends done if and only if the replies contain one clean answer, whose matching messages up to its done are the result; any other end is the first thing that ended it |
| `Dump.Socket.DumpInto` | src/netlink.rs:681-726 | success is exactly the last attempt, clean; each earlier one was cut short or did not fit and made room; at most eight requests under numbers of their own, never past the ceiling; a failure is the last attempt's, be it that the request did not go out |
| `NoteText.MacRoundTrip` | src/netlink.rs:1379-1403 | an address written down parses back |
| `NoteText.ParsedIsWhole` | src/netlink.rs:1386-1403 | whatever parses as an address has seventeen characters, so no glued or cut line does |
| `NoteText.ReadMac` | src/netlink.rs:1386-1403 | the parser's loop computes the address the six parts stand for |
| `NoteText.ReadOwned` | src/sync/notes.rs:391-445 | the note reads as the addresses of its well-formed lines, a torn last one included |
| `NoteText.WrittenReadsBack` | src/sync/notes.rs:666-709 | what a rewrite puts down, in any order, reads back as that set with no torn line |
| `NoteText.FinishTheLastLine` | src/sync/notes.rs:750-767 | cuts back to the last newline, and to nothing where there is none |
| `NoteText.AppendOwned` | src/sync/notes.rs:773-851 | the text after an append, and which addresses were fresh, each once |
| `NoteText.AppendedNames` | src/sync/notes.rs:773-851 | over any torn tail the file reads as its finished lines' addresses and the fresh ones, never a glued one |
| `NoteText.AppendKeepsExactly` | src/sync/notes.rs:750-851 | the exact condition for an append to lose no name |
| `NoteText.TornAppend` | src/sync/notes.rs:773-851 | a write that stopped after any number of characters: whole lines, and a tail that is an address only when its newline alone is missing |
| `NoteCache.SameStatSameText` | src/sync/notes.rs:31-36 | over any completed writes by anybody, same inode and length mean same text |
| `NoteCache.SteadyMeansUntouched` | src/sync/notes.rs:281-347 | a stat that agrees before and after a read vouches for what was read between |
| `NoteCache.Cache.StillMeansSame` | src/sync/notes.rs:31-36 | a copy judged still current equals what the file parses to |
| `NoteCache.Cache.ValidStays` | src/sync/notes.rs:281-347 | nothing another process completes can make a kept copy wrong without its stat showing it |
| `NoteCache.Cache.WithOwned` | src/sync/notes.rs:281-347 | the answer is what the file said at the first look or at the read, or nothing where the read failed, and then no copy is kept and the device is marked; the copy stays sound whatever is written in between |
| `NoteCache.Cache.Remember` | src/sync/notes.rs:357-389 | a copy taken under a stat is sound from then on |
| `NoteCache.Cache.AppendOwnedLocked` | src/sync/notes.rs:773-851 | the copy is brought along with an append and stays sound even where the cut tail had named something; an unreadable note takes nothing, and after a failed write, wherever it stopped, there is no copy |
| `NoteCache.Cache.WriteOwned` | src/sync/notes.rs:666-709 | a replacement takes a new inode and names exactly the set; a marked device keeps its note, and a failed replacement leaves the file and no copy |
| `NoteCache.TornWriteFoolsTheStat` | src/sync/notes.rs:31-36 | two unfinished writes under which the stat does not tell |
| `NoteCache.StatIsFooledExactly` | src/sync/notes.rs:31-36 | the exact number of characters at which a stopped append restores the stat, and at which the copy then names something else |
| `Ownership.NoRunOrphans` | src/sync/mod.rs:1349-1400 | no run of the sections under the four conditions, with any answers and a crash between any two writes, leaves an entry of ours that no note names |
| `Ownership.StepKeeps` | src/sync/mod.rs:1455-1471 | each section keeps that, by any process, cut short anywhere |
| `Ownership.RegisterIsSafe` | src/sync/mod.rs:1349-1400 | note first: each write of a registration keeps every entry of ours on record |
| `Ownership.RetireIsSafe` | src/sync/mod.rs:1455-1471 | card first: each write of a removal does too |
| `Ownership.PassIsSafe` | src/sync/mod.rs:2176-2219 | so does a removal with the merge of the same pass behind it |
| `Ownership.FlushIsSafe` | src/sync/mod.rs:2825-2896 | a flush is safe at every write if and only if it does not take for gone an interface that keeps an entry only this note names |
| `Ownership.MigrateIsSafe` | src/sync/notes.rs:880-916 | so does a rename: named twice for a moment, never nowhere |
| `Ownership.GoneFlushKeepsExactly` | src/sync/mod.rs:2860-2873 | taken for gone, an interface's entries stay on record if and only if what is ours of them stands on another note |
| `Ownership.AstrayKeepsExactly` | src/sync/mod.rs:815-821 | a removal or a flush that reached another interface orphans nothing if and only if what it strikes off stands elsewhere |
| `Ownership.RegisterAstrayIsSafe` | src/sync/mod.rs:1349-1400 | a registration into another interface's list loses nothing of this one's |
| `Identity.AimsRightExactly` | src/sync/mod.rs:798-821 | the exact condition, on the names worn and the index record, for each kind of section to reach the interface its note is about |
| `Identity.NoHostRunOrphans` | src/sync/mod.rs:2860-2873 | over every run of sections, renames, records written or not, and other interfaces coming and going, no entry of ours is left unnamed under the four conditions |
| `Identity.UnrecordedRenameOrphans` | src/sync/notes.rs:171-183 | a run that orphans an entry: no record, a rename, a flush |
| `Identity.ReusedNameOrphans` | src/sync/mod.rs:2437-2536 | a run that orphans an entry: a recorded note, a rename, the name taken by another, a batch |
| `Ownership.RegisterEnds` | src/sync/mod.rs:1349-1400 | what an uncut batch comes to: the accepted are in the card and ours, the note gains the batch less, where it can be put right, what was somebody else's |
| `Ownership.RetireEnds` | src/sync/mod.rs:1455-1471 | what an uncut removal comes to |
| `Ownership.RegisterKeepsExactly` | src/sync/mod.rs:1364-1375 | a batch is safe whatever the kernel answers and wherever a crash comes, if and only if it repeats nothing new |
| `Ownership.AppendKeepsExactly` | src/sync/notes.rs:750-782 | an append orphans nothing if and only if no torn tail alone names an entry of ours |
| `Ownership.MergeKeepsExactly` | src/sync/notes.rs:540-563 | a merge orphans nothing if and only if what it strikes out is not ours or is named elsewhere |
| `Ownership.TornAddressOrphans` | src/sync/notes.rs:391-401 | a run that orphans an address whose line lost its newline |
| `Ownership.LateMergeOrphans` | src/sync/mod.rs:2217-2219 | a run that orphans an address registered between a removal and its merge |
| `Sections.LockedUplink.RegisterBatchLocked` | src/sync/mod.rs:1349-1400 | the section as it runs makes exactly the protocol's writes, in order, up to the crash |
| `Sections.LockedUplink.Retire` | src/sync/mod.rs:1455-1471 | the same for a removal |
| `Sections.LockedUplink.Flush` | src/sync/mod.rs:2825-2896 | the same for one note of a flush, with a gone interface and an unreadable note |
| `Sections.LockedUplink.MigrateNote` | src/sync/notes.rs:880-916 | the same for a rename, with an unreadable old note and a new one that refuses |
| `NoteAbstraction.SameAppend` | src/sync/notes.rs:773-851 | the protocol's append is what the text's append reads as |
| `NoteAbstraction.SameRewrite` | src/sync/notes.rs:666-709 | so is its rewrite |
| `NoteAbstraction.SameTornAppend` | src/sync/notes.rs:750-767 | and a torn append of the text is a torn append of the protocol |
| `Agreement.PassAgrees` | src/sync/mod.rs:2122-2230 | the three locked sections of a pass leave exactly the note and the list the pass is proved to leave, and orphan nothing on the way |
| `Agreement.CommitAgrees` | src/sync/mod.rs:2637-2712 | so do the two of a commit |
| `Agreement.ReflectionAgrees` | src/sync/mod.rs:2437-2536 | and the one of a reflection |
| `Desire.ExclusionsOf` | src/sync/mod.rs:922-951 | the exclusions: configured addresses, those of the wire side, of the card and of its functions, and what the driver reports |
| `Desire.DesiredOf` | src/sync/mod.rs:1709-1791 | learnt behind the bridge, the host's own above it or pinned, and neither excluded nor learnt on the wire; with the wire set and the last port of each learn |
| `Desire.QuietSurvivorsOf` | src/sync/mod.rs:1651-1705 | owned addresses nobody vouches for whose last port still lives behind the bridge |
| `Valve.Released` | src/sync/mod.rs:1524-1610 | there is one longest-silent set of each size, by stamp and then address |
| `Valve.LongestSilentNest` | src/sync/mod.rs:1524-1610 | two longest-silent sets are nested, so their size decides which they are |
| `Valve.ReleasedExactly` | src/sync/mod.rs:1554-1575 | an address is released if and only if fewer of the pool than asked for come before it |
| `Valve.PressAtPass` | src/sync/mod.rs:1484-1517 | the pass's arm sheds exactly the longest silent, as many as the excess asks for and there are |
| `Valve.PressedEnough` | src/sync/mod.rs:1484-1517 | afterwards limit and headroom hold, or no keep is left; and no more goes than that takes |
| `Valve.LongestQuiet` | src/sync/mod.rs:1554-1575 | the batch's arm names exactly the longest silent of what is still quiet |
| `Pass.PassPostState` | src/sync/mod.rs:2076-2270 | after a pass without failures the card is the wanted and the foreign, the note what is ours of the wanted, foreign entries are conserved, the recorded occupancy is the card's size, and the limit holds or no keep is left |
| `Pass.OccupancyIsExact` | src/sync/mod.rs:2076-2091 | wanted plus foreign less shed is the size of the resulting list |
| `Pass.PassIsFixpoint` | src/sync/mod.rs:1994-2230 | a second pass over the same picture keeps the same keeps, adds nothing, takes nothing out and sheds nothing |
| `Pass.KeepsStay` | src/sync/mod.rs:1615-1705 | the quiet keeps of the first pass are those of the second |
| `Sync.Syncer.RegisterBatch` | src/sync/mod.rs:1349-1400 | note and list after a registration, for any answers; a note that refuses leaves both |
| `Sync.Syncer.Retire` | src/sync/mod.rs:1455-1471 | note and list after a removal, for any answers |
| `Sync.Syncer.WantedWithKeeps` | src/sync/mod.rs:1615-1635 | desired set and keeps, for one driver answer |
| `Sync.Syncer.ApplyWanted` | src/sync/mod.rs:2076-2285 | valve, difference, both writes, merge and memory leave exactly the modelled state, under any failures |
| `Sync.Syncer.ReconcilePair` | src/sync/mod.rs:1994-2030 | where anything would grow on a carried driver answer the driver is asked and all is decided again; should that fail, no filter changes and the answer is distrusted |
| `Sync.Syncer.Reconcile` | src/sync/mod.rs:1847-2328 | every pair is passed over once, judged by a fresh answer or with nothing added, and nothing else changes; a name worn by a new interface starts with nothing but its list, or waits; pass stamps strictly increase; a pass that cannot ask leaves each pair it did not get through as it was, at most with its memory taken over, and the carried answer distrusted |
| `Sync.PassGrowthIsVetted` | src/sync/mod.rs:1994-2030 | whatever a pass brings newly into a pair's card was judged by what the driver said in that very call about every function behind the uplink |
| `Batch.CommitWithinDecide` | src/sync/mod.rs:2554-2636 | what is committed on a fresh answer was a candidate on the carried one, whatever the two say |
| `Batch.VerdictMeans` | src/sync/mod.rs:2731-2820 | an entry is a candidate if and only if the pass would call it an inner learn and nothing keeps it out |
| `Batch.CommittedIsDesired` | src/sync/mod.rs:2757-2818 | what a batch commits the pass wants too, under any dump with the one learn and no wire learn of the address |
| `Batch.NobodysBatchIsInvisible` | src/sync/mod.rs:2367-2536 | a batch that is nobody's makes the pass register nothing new and take nothing more out |
| `BatchWrites.LoadPorts` | src/sync/mod.rs:1042-1110 | the memory taken over: lines whose port still wears its name, shifted as one |
| `BatchWrites.TakenOverIsPast` | src/sync/mod.rs:1066-1074 | no stamp taken over lies ahead of the clock |
| `BatchWrites.ShiftKeepsOrder` | src/sync/mod.rs:1066-1074 | of any two addresses in the file the shift never turns the order around, and keeps a strict one if and only if the later stamp lies above the shift |
| `BatchWrites.ShiftLosesOrder` | src/sync/mod.rs:1066-1074 | three lines of which the shift makes two alike |
| `Runs.RunKeepsOurs` | src/sync/mod.rs:242-248 | over every run of passes, reflections, commits, dated deletions and loads the keeps stay on the note and clear of what is pinned |
| `Runs.ValvesTakeOnlyKeeps` | src/sync/mod.rs:1484-1610 | over every run the batch's arm of the valve never takes a pinned address, one not noted, one the last pass wanted for a reason or saw learnt, or, once the clock has caught up with that pass, one that spoke since |
| `Runs.PassKeepsOurs` | src/sync/mod.rs:1651-1705 | what a pass keeps is noted, not pinned, not wanted for a reason of its own, not learnt and not on the wire |
| `Runs.SeenIsNoVictim` | src/sync/mod.rs:1554-1561 | over every run: an address the last pass wanted for a reason or saw learnt is no keep, so no batch can shed it until a later pass misses it |
| `Runs.NothingKeptYet` | src/sync/mod.rs:1524-1547 | and before a process's first pass there is no victim at all |
| `Runs.SeenIsNotShed` | src/sync/mod.rs:1484-1517 | nor can a pass that sees it learnt; and what it sheds is noted and not pinned |
| `Runs.SpokenStaysAwake` | src/sync/mod.rs:1554-1561 | an address a batch learnt, committed or only stamped, stays out of the valve's reach until the next pass |
| `Runs.PassIsARun` | src/sync/mod.rs:1847-2328 | what `Reconcile` does to a pair is such a run: a load and a pass |
| `Runs.BatchIsARun` | src/sync/mod.rs:2351-2723 | what `FastApply` does to a pair it answers is such a run, without a pass: dated deletions, a reflection, a commit |
| `Runs.HaltedIsARun` | src/sync/mod.rs:2351-2723 | and so is what it does to one where it was cut short |
| `BatchWrites.JustLearntIsNoVictim` | src/sync/mod.rs:2661-2670 | an address the batch itself brings is not its victim, once the clock has caught up with the last pass |
| `BatchWrites.JustLearntExactly` | src/sync/mod.rs:1548-1561 | when it is in the pool all the same |
| `BatchWrites.JustLearntIsVictimExactly` | src/sync/mod.rs:1548-1575 | and when it is a victim |
| `BatchWrites.JustLearntCanBeVictim` | src/sync/mod.rs:1554-1561 | a full card of five slots on which it is the victim |
| `BatchWrites.CommitPostState` | src/sync/mod.rs:2637-2712 | after a commit without failures, over a pool that is noted and on the card: the card is what it was less the victims and with the learns, foreign entries are conserved, the recorded occupancy is the card's size; the limit with its headroom holds but for learns that had been victims, or the whole pool was given, and where no learn is in the pool it holds or no keep of the pool is left |
| `Runs.StampsMoveForward` | src/sync/mod.rs:1215-1229 | under one clock no run turns a stamp back while its address stays remembered |
| `Runs.TurnsBackExactly` | src/sync/mod.rs:2181-2190 | exactly when one step does |
| `Runs.FailedRemovalTurnsBack` | src/sync/mod.rs:2181-2190 | a pass over a pair of a reading that turns one back |
| `Runs.RunStaysBounded` | src/sync/mod.rs:1899-1900 | no stamp ever lies ahead of both the clock and the last pass |
| `EventPath.DateSilence` | src/sync/mod.rs:1244-1291 | each deletion dates the silence of its address with the bridge's ageing time, for the pairs it serves and nothing else |
| `EventPath.ReflectAll` | src/sync/mod.rs:2437-2536 | what moved out onto the wire is taken out of card, note, memory and keeps; urgent if and only if the card still held any of it or refused |
| `EventPath.FastAdd` | src/sync/mod.rs:2731-2820 | the candidates of a batch in order, and whether any entry was ours |
| `EventPath.CommitPair` | src/sync/mod.rs:2637-2712 | repeats collapse to the last learn, room is made by shedding the longest silent, then the batch is registered; what that leaves is `CommitPostState` |
| `EventPath.Vet` | src/sync/mod.rs:2554-2636 | where the carried answer would let anything in, exactly the functions of those pairs are asked about first |
| `EventPath.FastApply` | src/sync/mod.rs:2351-2723 | a batch under any answers: the exact state of every pair (dated, reflected, committed, or cut short by a driver that did not answer or a list that could not be read back), which answer it was judged by and what is carried on, and exactly how urgent a pass is: now if and only if some pair is concerned, and on "nothing" no deletion and no pair is |
| `EventPath.GrowthIsVetted` | src/sync/mod.rs:2554-2636 | whatever a batch brings newly into a card was judged by what the driver said in that very call about every function behind the uplink |
| `EventPath.PutBackWasVictim` | src/sync/mod.rs:1548-1561 | what a batch writes into a card that held it before was its own victim, which needs a pass stamp ahead of the clock |
| `Scheduler.Schedule.BringForward` | src/daemon.rs:272-275 | a deadline is only ever pulled earlier; the newer reason names it |
| `Scheduler.Schedule.WaitMillis` | src/daemon.rs:337-344 | the wait is the rounded one, and endless when nothing is owed |
| `Scheduler.WaitReachesDeadline` | src/daemon.rs:337-344 | it reaches the deadline if and only if that is within the longest poll, and then by less than a millisecond too far |
| `Scheduler.HandleBatch` | src/daemon.rs:480-577 | which batches buy a pass, for when and under what name |
| `Scheduler.DaemonLoop` | src/daemon.rs:303-386 | over any world: attempts at least 200 ms apart unless forced, no pass that nothing bought, every claim counted from the end of the latest attempt before it and answered by an attempt due by then, every attempt due by what the log says, and every wait the one that deadline asks for |
| `Scheduler.ClaimsAreTimely` | src/daemon.rs:323-341 | no claim is found unanswered at its arrival or five seconds after the latest attempt, whichever is later |
| `Scheduler.AttemptsArePrompt` | src/daemon.rs:337-344 | in a world that returns from its waits in time, an attempt starts within a millisecond of the time it was due, and the steps of the loop in between |

## Left out

- Autodetect.Autodetect: its report of what was left out is not modelled.
- Events.SelfEntryIsNews: the wait for the acknowledgement behind the request is not modelled; what it comes to is the kernel's answer to one write.
- Interfaces.Topology.AnatomyFor: functions and siblings are sets; the order in which the source lists them is not captured.
- Sync.Syncer.Reconcile: the sweep of orphaned notes inside the pass is not part of it, nor what a followed rename adds to the note and memory under the new name; both are moves of the ownership protocol. Whether the note can be read is one answer per pair and pass.
- EventPath.FastApply: pairs are committed in their order, where the source takes any; the list of a card shared by several uplinks is one arbitrary reading for each of them; saving the memory after a reflection is not modelled.
- Pass.PassPostState: stated for an uplink that holds its own filter; VLAN uplinks that share one list with others have no exact occupancy of their own.
- NoteCache.SameStatSameText: over completed writes, with a torn tail shorter than one line, which is all an interrupted append leaves; unfinished writes are the counterexample.
- Sync.Syncer.Retire: note and list are sets, one write at a time is the subject of `Sections` and `Ownership`.
- Scheduler.DaemonLoop: the pause between waits that keep failing and the reading of the topology inside a pass are durations of the turn, not steps of their own.
- Dump.RunDump: the leftovers drained between attempts may come back as replies of the next; draining itself is not modelled.
- The text of a note is characters; bytes that are no UTF-8 make a note unreadable in the source, and an unreadable note is one of the answers here.
- A note whose lock cannot be taken, and the lines the `--check` probe writes.
- The written-down memory's own file format and when it is written; its lines are an argument.
- Reading `/sys` and link messages into links; the model starts at the links given to `assemble`.
- Questions about one interface (`request_one`) and the requests' own bytes, apart from the one that writes an entry.
- Byte order: a little-endian host.
- Dry runs, say-once marks, journal lines, reports, timings, `--status` and `--check`: they report and decide nothing.
- Sockets, poll, signals, file locks, file modes: only their answers are modelled.
- Configuration, command line, the driver table, hashing: the limit of a card is a number.
