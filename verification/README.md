# Caprock: the capability space, the disk tools, the loader and the page colours, verified

Dafny models of five parts of Caprock, each in the form its source has: tables that are
changed in place are arrays in classes, pure checks are functions, and every method is tied to a
specification about which the properties below are proved.

* **Capability space** (`Cap*.dfy`): the slot and object tables of `crates/caprock-cap`, all operations
  in place -- install, copy, mint, subregion, move, delete, revoke --, what every run of them keeps,
  and the audit that judges the tables from outside.
* **Disk image** (`Fat*.dfy`, `Gpt*.dfy`): the image tool that lays out a GPT disk with a FAT16 volume,
  the independent FAT reader, the tool that patches and reseals both GPT copies and adds a driver's
  three documents, and the loader service that looks for them. Everything is stated on bytes.
* **Page colours** (`Colors`, `StripeClaims`, `RunScan`, `PointerRing`): the stripes of the
  colour mask, the lock-free stripe allocator, the scan for colour-pure runs, the pointer ring.
* **Loader bookkeeping** (`MeasureChain`, `VersionPin`, `CapConservation`, `LxpdContainer`,
  `ImageAssembly`): the measurement chain and its offline verifier, version pinning, the caps of a load
  that fails half way, the driver container, the assembly of the measured kernel image.
* **Sidecar and audits** (`Sidecar`, `DepAudit`): trap frames copied through memory that an untrusted
  handler may rewrite, and two tools that judge the dependency graph of a crate.

`Arith`, `Bytes` and `Wrappers` hold what several of them need.

## What the proofs brought to light

Each point is a lemma or a contract below; where a comment of the repository says otherwise, the model
follows the code.

* **Revoke finalises nothing.** It keeps the cap it is called on, and all caps below share that cap's
  object, so the object survives: `CapSpace.Revoke` frees no memory and reports neither reply nor DMA
  objects, although space.rs:132-140 sizes the report buffers for just that. What revoke does report,
  write rights on a debuggable domain, is bounded by the slots and not by the objects: room for one
  report less than there are slots is enough, and any smaller room is too small for some run
  (`RoomNeeded`). The kernel has that room, because it makes both tables equally large
  (system.rs:2321) and the buffer with them (system.rs:2385-2399); `finalize_capacity` (space.rs:456),
  which counts objects, would be too small only in a space with more slots than objects plus one.
* **A refused install loses its object.** When an object entry is found but no slot, the entry is unused
  again but keeps kind and count, and the region handed in is neither held nor given back (`CapSpace.Install`).
* **The audit accepts more than trees.** Verdict 0 means a tree up to rings of root caps
  (`PassesAndLinked`, `RootRingPasses`), and on torn tables the audit can index outside the table
  (`AuditCdt` says when, `TornListPanics` gives one). On tables the operations can produce it does neither.
* **The FAT is up to four entries short.** The eight sizing rounds do not always reach a fixed point;
  `SizingExact` says where they end and `SizingBound` exactly when entries are missing. Files that fit
  the entries there are do read back. The links of the other clusters run into the second FAT and the
  directory. A file written alone reads back all the same if it has no more clusters than a FAT has
  entries, and only then (`LonePassesExactly`). Several files are read right exactly if all their clusters
  have an entry: if one has none, its link overwrites the first file's name and the reader does not find that
  file (`ListReadsExactly`, `ListThatSpills`).
* **The FAT reader judges the first 1000 clusters only.** A longer file passes if its first 512000 bytes
  are right (`PassesExactly`).
* **The patch tool reseals whatever entry list it finds.** The list's old checksum is never looked at, so a
  spoilt list leaves the tool with a valid seal (`PatchOfMade`), and a backup list that differed is
  replaced unseen. A header size below 20 is not refused either, and then the tool's two sums are over
  different bytes (`ResealedParses`). A refusal after the table was written leaves the table patched and no
  directory, and a backup header with a foreign signature is noticed after all writes only (`Patch`,
  `SelfCheckSays`).
* **The loader service does not find what the patch tool wrote.** It reads the directory at the partition's
  first sector, 20001, which the tool must not write because the suite's mark lies there
  (`ServiceReadsOldSector`, `MarkIsNoDirectory`). Read at the tool's own sector, the documents come back exactly.
* **Giving back a stripe twice is harmful.** colors.rs:114 calls it harmless; it is, until
  the stripe has a new holder, and then two domains share colours (`StrayRelease`, `StrayReleaseShares`).
* **A reused sidecar slot can be read torn.** On a slot that still holds a magic, magic and new generation
  are visible over the old frame while delivery is under way (`ReusedSlotTorn`); on a slot without a magic, or
  one that holds this very delivery, and on no other, they are not (`NeverTornExactly`).
* **The measurement chain cannot show what it discarded.** Two chains with the same first 64 measurements
  report the same whatever came after, for every hash (`DiscardsInvisible`, `TwoChainsOneReport`); the first 64
  do show, up to a collision (`KeptIsVisible`). Collisions there are, since a hash into 32 bytes has them
  (`EveryHashCollides`): the tool accepts the kernel's own chain and the chains that collide with it, and
  no others (`KernelsChainExactly`, `AnotherChainFits`). And the count is needed: a chain cut at the front,
  with its genesis moved along, keeps its head (`FrontCutKeepsHead`).
* **Two bits of the crate audit always agree**, since both record the same count (`Audit`).
* **The guard does not look behind allow-listed crates.** A silent guard means a clean audit exactly if
  everything behind the allow-listed crates a candidate reaches is clean (`CleanExactly`); it need not be
  (`AllowedCrateIsAHole`).
* **NO_HOTRELOAD needs loads one at a time.** The gate locks its table twice, to look and to record. In
  every interleaving of any number of loaders one version per program and at most 64 pins survive, but a
  NO_HOTRELOAD program passes again exactly if a loader looked before the first record
  (`PassesAgainExactly`, `BothPass`). One load after the other, as the kernel's verifier thread does it
  (verifizierer.rs:22), there is no such look (`SerialPassesOnce`).
* **The kernel hash of a truncated file.** Where the file ends inside a segment that reaches into the range,
  the tool can return too few bytes (`TruncatedPart`, `TruncatedFile`) or as many as asked for but wrong ones
  (`FullLengthButWrong`), and reports success either way. Where segments do not overlap the bytes are right
  exactly if the file holds every part inside the range (`BuiltIsMemoryExactly`).
* **A slot collision in `load_by_index` leaks caps**: exactly the colliding manifest cap and those after it stay
  alive (`LoadByIndex`, `ResidueIs`, `NothingRemains`). A refused endowment is swallowed there and the program is
  loaded with the offer alone.

## Model

| member | source | states |
|---|---|---|
| `CapTables.ParentHasList` | verus/cap_cdt_structure.rs:42-60 | a slot that is somebody's parent has a child list: "no first child" means "no descendant" |
| `CapAudit.AuditLinks` | crates/caprock-cap/src/space.rs:989-1127 | one slot: parent and list membership, head, siblings, in that order, and the first fault is the verdict |
| `CapAudit.LinkVerdictExactly` | crates/caprock-cap/src/space.rs:989-1127 | every link verdict of a slot with its exact condition on the links |
| `CapTables.InstallKeepsWellFormed` | crates/caprock-cap/src/space.rs:651-661 | a new root cap on a new object keeps the whole invariant at once: counts, links, falling rank, confinement |
| `CapTables.DeriveKeepsWellFormed` | verus/cap_cdt_structure.rs:68-114 | a child hung in front of its parent's list keeps the whole invariant, with witnesses for the new rank and list order |
| `CapTables.RemoveKeepsWellFormed` | verus/cap_cdt_tree.rs:95-122 | unlinking and releasing a leaf and dropping its reference keeps the whole invariant, without re-ranking the rest |
| `CapTables.MoveKeepsWellFormed` | crates/caprock-cap/src/space.rs:763-804 | a cap that changes its slot keeps the whole invariant, children and neighbours included |
| `CapTables.RollbackKeepsCounted` | crates/caprock-cap/src/space.rs:651-661 | the rollback of an install that found no slot keeps the reference counts right |
| `CapTree.NoEscalation` | crates/caprock-cap/src/lib.rs:8-20 | whatever lies below a cap, at any distance, is on the same object, has no right more, and sees no byte of memory more |
| `CapAuthority.NarrowsDown` | crates/caprock-cap/src/lib.rs:8-20 | in terms of what caps authorise: below a cap, at any distance, no other object, no further right, no byte more |
| `CapAuthority.InstalledAuthority` | crates/caprock-cap/src/space.rs:651-661 | a new root cap authorises what was asked for, and no other cap is touched |
| `CapAuthority.DerivedAuthority` | crates/caprock-cap/src/space.rs:702-759 | a derived cap authorises the part of the object, the rights and the badge it was made with; no other cap is touched |
| `CapAuthority.MovedAuthority` | crates/caprock-cap/src/space.rs:763-804 | a moved cap authorises in its new slot what it authorised in the old one; no other cap is touched |
| `CapAuthority.RemovedAuthority` | crates/caprock-cap/src/space.rs:1286-1350 | a deleted cap is gone and every other cap authorises what it did |
| `CapAuthority.RevokedAuthority` | crates/caprock-cap/src/space.rs:825-865 | a revoke takes what lies below the cap and leaves every other cap what it authorised |
| `CapTree.NotBelowItself` | verus/cap_cdt_acyclic.rs:35-94 | the parent chain closes no cycle of any length |
| `CapTree.ChildInList` | verus/cap_cdt_tree.rs:9-12 | every child is reached from the head of its parent's list -- the direction the small models leave open |
| `CapTree.ChildOnceInList` | verus/cap_cdt_tree.rs:39-53 | no slot occurs twice in a child list, and every slot in it is a child of that parent |
| `CapTree.DescentWithinLimit` | crates/caprock-cap/src/space.rs:264-280 | on a well-linked tree the descent along first children ends at a leaf within the step limit |
| `CapTree.LeafUnique` | crates/caprock-cap/src/space.rs:264-280 | the leaf a descent ends at is the only one on its way |
| `CapTree.RevokeDone` | crates/caprock-cap/src/space.rs:825-865 | removing leaves below a slot until it has none left removes all its descendants and changes nothing else but the slot's child link |
| `CapTree.MovedDesc` | crates/caprock-cap/src/space.rs:763-804 | a move preserves "lies below" between any two caps, in both directions, up to the new slot number |
| `CapSpaces.CapSpace.constructor` | crates/caprock-cap/src/space.rs:414-445 | fresh empty tables satisfy the invariant |
| `CapSpaces.DescendToLeaf` | crates/caprock-cap/src/space.rs:264-280 | on any table, torn ones included: a leaf with its distance, or an error exactly if no leaf lies within the limit |
| `CapSpaces.CountChildren` | crates/caprock-cap/src/space.rs:283-300 | on any table: the exact length of the child list, or an error only if it is no list of at most `limit` slots |
| `CapSpaces.Window` | crates/caprock-cap/src/space.rs:314-332 | a window inside the region it is cut from, and an error exactly if there is none |
| `CapSpaces.HangInFront` | crates/caprock-cap/src/space.rs:340-349 | the in-place link writes are the insertion at the head |
| `CapSpaces.CapSpace.Resolve` | crates/caprock-cap/src/space.rs:1182-1191 | a handle resolves exactly if its slot exists, is used and carries its generation |
| `CapSpaces.CapSpace.FreeSlotIndex` | crates/caprock-cap/src/space.rs:1193-1198 | the lowest free slot, or none exactly if all are used |
| `CapSpaces.CapSpace.AllocSlot` | crates/caprock-cap/src/space.rs:1200-1219 | one slot filled, its generation kept, the peak exact; a refusal changes nothing |
| `CapSpaces.CapSpace.AllocObject` | crates/caprock-cap/src/space.rs:1227-1236 | one object entry filled with count 1, the peak exact; a refusal changes nothing |
| `CapSpaces.CapSpace.Install` | crates/caprock-cap/src/space.rs:651-661 | one object and one root cap on it that looks up to the kind and rights asked for, badge 0; or an unchanged slot table with the exact residue in the object table; no other cap is touched |
| `CapSpaces.CapSpace.Lookup` | crates/caprock-cap/src/space.rs:669-677 | what a cap authorises: its object, a memory object narrowed to the cap's window, which lies inside it; its rights and its badge |
| `CapSpaces.CapSpace.LookupNarrows` | crates/caprock-cap/src/lib.rs:8-20 | what a cap looks up to never exceeds what a cap above it looks up to |
| `CapSpaces.CapSpace.Copy` | crates/caprock-cap/src/space.rs:702-713 | a child that looks up to the same region and badge with the intersection of the rights; the invariant kept, one reference more, no other cap touched; refusals change nothing |
| `CapSpaces.CapSpace.Mint` | crates/caprock-cap/src/space.rs:716-720 | as a copy, looking up to the new badge |
| `CapSpaces.CapSpace.Subregion` | crates/caprock-cap/src/space.rs:737-759 | a child that looks up to the region from base + offset of the given length, where base is that of the region the source looks up to; each refusal with its exact cause |
| `CapSpaces.CapSpace.MoveCap` | crates/caprock-cap/src/space.rs:763-804 | the cap in a new slot with all its links, looking up to what it did; the old handle dead, the new one alive, no other cap touched |
| `CapSpaces.CapSpace.Adopt` | crates/caprock-cap/src/space.rs:763-804 | the walk that gives a moved cap's children their new parent reaches every child and never hits its limit |
| `CapSpaces.CapSpace.UnlinkAndRelease` | crates/caprock-cap/src/space.rs:1268-1282 | the in-place unlink and release are the removal from the doubly linked list |
| `CapSpaces.CapSpace.DeleteLeaf` | crates/caprock-cap/src/space.rs:1286-1350 | exactly one slot gone, one reference less, the region freed or the object reported exactly at the last reference, and which report was dropped |
| `CapSpaces.CapSpace.Delete` | crates/caprock-cap/src/space.rs:809-821 | a cap goes exactly if it is alive and childless; its handle is dead afterwards, every other cap authorises what it did; a refusal changes nothing |
| `CapSpaces.CapSpace.Revoke` | crates/caprock-cap/src/space.rs:825-865 | terminates; removes exactly the proper descendants; every other slot is unchanged; the count falls by exactly their number; nothing is freed; one debug report per write right until the buffer is full |
| `CapSpaces.CapSpace.DeleteBelow` | crates/caprock-cap/src/space.rs:825-865 | the loop of revoke ends, never overruns its walk limit, and leaves the top childless |
| `CapSpaces.CapSpace.NoteOverrun` | crates/caprock-cap/src/space.rs:1171-1173 | the overrun counter saturates |
| `CapSpaces.Finalized.Push` | crates/caprock-cap/src/space.rs:187-194 | a report is kept while there is room; otherwise the overflow flag is set |
| `CapSpaces.Finalized.PushDebug` | crates/caprock-cap/src/space.rs:203-210 | the same for debug reports |
| `CapRuns.RevokeRun` | crates/caprock-cap/src/space.rs:825-865 | deleting leaf after leaf below a slot ends in the table the revoke contract describes, invariant included |
| `CapRuns.RunsStayGood` | verus/cap_cdt_refcount.rs:54-265 | every run of install, refused install, derive, move, delete and revoke keeps the whole invariant and, region by region, granted = freed + held |
| `CapRuns.NoEscalationEver` | crates/caprock-cap/src/lib.rs:8-20 | in no state of any run does a cap exceed any cap it was derived from |
| `CapRuns.AllReturned` | crates/caprock-cap/src/lib.rs:8-20 | once no cap is left, every granted region has been freed exactly once |
| `CapReports.WritersFit` | crates/caprock-cap/src/space.rs:825-865 | fewer caps below a cap carry the write right than the table has slots |
| `CapReports.RevokeReportsAll` | crates/caprock-cap/src/space.rs:825-865 | with room for one report less than there are slots, revoke loses no report |
| `CapReports.RoomNeeded` | crates/caprock-cap/src/space.rs:456-458 | for tables of n slots and any number of objects: some run reaches a table whose revoke owes more reports than there is room for, exactly if the room is less than n - 1 |
| `CapTraces.Start` | crates/caprock-cap/src/space.rs:414-445 | a new space has a history |
| `CapTraces.Install` | crates/caprock-cap/src/space.rs:651-661 | install, refused or not, prolongs the history of the space it is called on; a granted region enters the books exactly on success |
| `CapTraces.Copy` | crates/caprock-cap/src/space.rs:702-713 | copy prolongs the history |
| `CapTraces.Mint` | crates/caprock-cap/src/space.rs:716-720 | mint prolongs the history |
| `CapTraces.Subregion` | crates/caprock-cap/src/space.rs:737-759 | subregion prolongs the history |
| `CapTraces.MoveCap` | crates/caprock-cap/src/space.rs:763-804 | move prolongs the history |
| `CapTraces.Delete` | crates/caprock-cap/src/space.rs:809-821 | delete prolongs the history |
| `CapTraces.Revoke` | crates/caprock-cap/src/space.rs:825-865 | revoke prolongs the history, so whatever holds of every run holds of the space |
| `CapTraces.DeleteAgain` | crates/caprock-cap/src/lib.rs:15-16 | deleting with a handle whose cap is gone changes nothing, whatever has come into the slot, for fewer than 2 to the 32 releases of it |
| `CapHandles.GenCounts` | crates/caprock-cap/src/space.rs:1221-1226 | over any run the generation of a slot counts its releases modulo 2 to the 32 |
| `CapHandles.HandleMeans` | crates/caprock-cap/src/lib.rs:15-16 | a handle that was good is good later exactly if its slot is used then and was released a multiple of 2 to the 32 times in between |
| `CapHandles.DeadStaysDead` | crates/caprock-cap/src/lib.rs:15-16 | a handle whose slot has been released is dead until 2 to the 32 releases have passed |
| `CapHandles.NewHandleIsNew` | crates/caprock-cap/src/lib.rs:15-16 | a handle that is made is not one that was good before, within the same bound |
| `CapHandles.StaleHandleReturns` | crates/caprock-cap/src/lib.rs:15-16 | in tables of every size a run of 2 to the 32 releases brings a dead handle back |
| `CapAudit.AuditCdt` | crates/caprock-cap/src/space.rs:989-1127 | for every table, torn ones included: each verdict 0 to 8 and the access outside the table, with the exact condition, which is the first fault in slot order |
| `CapAudit.FindInList` | crates/caprock-cap/src/space.rs:989-1127 | the search through a child list: found, list ended, limit hit or list torn, each exactly, on cyclic and torn lists too |
| `CapAudit.AuditCounts` | crates/caprock-cap/src/space.rs:989-1127 | the reference counts pass exactly if they are the number of slots on each object; else the first fault decides the verdict |
| `CapAudit.VerdictZero` | crates/caprock-cap/src/space.rs:989-1127 | the code's checks hold exactly if there are ranks under which every parent chain and every child list is finite, reciprocal and complete |
| `CapAudit.PassesAndLinked` | crates/caprock-cap/src/space.rs:989-1127 | passing, with roots that have no siblings, is exactly being a counted, linked tree |
| `CapAudit.RootRingPasses` | crates/caprock-cap/src/space.rs:989-1127 | two roots chained into a ring pass the audit |
| `CapAudit.TornListPanics` | crates/caprock-cap/src/space.rs:989-1127 | a table on which the audit indexes outside the table |
| `CapAudit.WellFormedPasses` | crates/caprock-cap/src/space.rs:989-1127 | every table the operations can produce passes |
| `CapAudit.WellFormedNeverPanics` | crates/caprock-cap/src/space.rs:989-1127 | and never makes the audit index outside the table |
| `FatSizing.ComputeFatSectors` | tools/mkgpt.py:94-108 | the loop of eight rounds computes the eighth iterate |
| `FatSizing.SizingExact` | tools/mkgpt.py:94-108 | where the rounds end, in closed form, for every accepted size |
| `FatSizing.OffsetAt` | tools/mkgpt.py:94-108 | where every round from the second on stands: for remainders 1 and 2 it alternates for ever, otherwise it is fixed from the fourth on |
| `FatSizing.SizingBound` | tools/mkgpt.py:94-108 | at most four FAT entries are missing, none exactly for remainders 3 to 256, and the FAT never exceeds 256 sectors |
| `FatSizing.FourEntriesShort` | tools/mkgpt.py:94-108 | an accepted size at which the bound is met |
| `FatImage.FilesDisjoint` | tools/mkgpt.py:110-145 | no byte of entry, chain or content belongs to two files |
| `FatImage.StoredElsewhere` | tools/mkgpt.py:110-145 | a stored file survives every change outside its own bytes |
| `FatImage.ImageCopied` | tools/mkgpt.py:187-194 | an image keeps its files wherever it is copied to |
| `FatImage.NameBytes` | tools/mkgpt.py:136-138 | a name in the directory, byte by byte |
| `FatImage.DirEntryBytes` | tools/mkgpt.py:136-143 | a directory entry, byte by byte |
| `FatImage.BootBytes` | tools/mkgpt.py:110-122 | the boot sector, byte by byte, the two places for the sector count included |
| `FatWriter.WriteBootSector` | tools/mkgpt.py:110-122 | the in-place writes give the boot sector, field by field, and nothing else |
| `FatWriter.WriteClusters` | tools/mkgpt.py:124-145 | of one file, in or beyond the FAT: nothing outside its clusters changes; chain in both FATs and content where the links do not collide; and what stands in the first cluster's links otherwise |
| `FatWriter.WriteFile` | tools/mkgpt.py:124-145 | one file stored -- entry, chain, content -- and nothing else changed |
| `FatWriter.WriteFiles` | tools/mkgpt.py:124-145 | all files stored at once: no write for a later file harms an earlier one |
| `FatWriter.BuildFat16` | tools/mkgpt.py:83-145 | an image exactly if the size is FAT16, zero wherever no file lies; it holds every file if all clusters have a FAT entry, and otherwise still all entries but the first, with the last end mark where the loop puts it |
| `FatReader.FindEntry` | tools/checkfat.py:61-77 | the loop over root sectors is the search whose meaning RootExactly gives |
| `FatReader.WalkChain` | tools/checkfat.py:87-102 | the chain walk stops at an end mark, at its limit or at a broken link, like its recursive meaning |
| `FatReader.CheckFat` | tools/checkfat.py:31-118 | the tool's verdict on any image of whole sectors, however short, accesses outside it included |
| `FatRoundTrip.LayoutRead` | tools/checkfat.py:41-55 | from the boot sector alone the reader's arithmetic arrives at the writer's layout |
| `FatRoundTrip.SearchFinds` | tools/checkfat.py:61-77 | the search ends at the first entry of the name |
| `FatRoundTrip.WalkStored` | tools/checkfat.py:87-102 | in either FAT copy the walk follows exactly the clusters that were chained |
| `FatRoundTrip.ContentRead` | tools/checkfat.py:104-112 | joining the clusters and clipping gives back the bytes that were written |
| `FatRoundTrip.RoundTrip` | tools/checkfat.py:31-118 | the reader's verdict on every file written -- of several with one name, on the first: size, chain in both copies, content |
| `FatRoundTrip.EveryReport` | tools/checkfat.py:31-118 | the verdict on any name at all is a function of the files, absent and repeated names included |
| `FatRoundTrip.PassesExactly` | tools/checkfat.py:31-118 | a file passes exactly if its size is the expected one and its first 512000 bytes follow the pattern |
| `FatSpill.WriteLone` | tools/mkgpt.py:109-145 | one file written into any accepted image that has the sectors for it, with or without FAT entries |
| `FatSpill.LonePassesExactly` | tools/checkfat.py:31-118 | such a file passes exactly if it has no more clusters than a FAT has entries and passes by size and content |
| `FatSpill.ListReadsExactly` | tools/checkfat.py:31-118 | of two files or more, the reader's report on every name is right exactly if all their clusters have a FAT entry |
| `FatSpill.FirstFileLost` | tools/mkgpt.py:119-145 | if one has none, the first file is not found: the last end mark stands in its name |
| `FatSpill.ListThatSpills` | tools/mkgpt.py:83-108 | an accepted size and two files for which that happens, the lost one empty |
| `FatSpill.WideSpillShows` | tools/checkfat.py:79-102 | otherwise the first FAT's spilt link stands for the second copy's first one, and the reader sees two chains |
| `FatRoundTrip.AbsentNotFound` | tools/checkfat.py:61-77 | a name the image does not hold is not found |
| `FatDamage.WalkFollows` | tools/checkfat.py:87-102 | over any FAT: where a walk along a path of links ends, and with what |
| `FatDamage.SpoiltLinkShows` | tools/checkfat.py:79-102 | a link 0 or 1 in either FAT of a stored file is reported as broken, with FAT and value; an end mark too early as two FATs that differ |
| `FatVerdicts.LayoutExactly` | tools/checkfat.py:41-55 | on any image: where directory, FATs and data lie, for every cluster size and number of FATs |
| `FatVerdicts.RootExactly` | tools/checkfat.py:61-77 | on any directory: the first entry of the name that no unused entry precedes in its sector, and nothing exactly if there is none |
| `FatVerdicts.CheckExactly` | tools/checkfat.py:31-77 | on any image: no boot sector, odd sector size and not found with their exact conditions |
| `FatVerdicts.FileExactly` | tools/checkfat.py:72-102 | on any image: wrong size, broken chain and crash with their exact conditions, the first broken FAT among them |
| `FatVerdicts.PassExactly` | tools/checkfat.py:72-118 | on any image: a file passes exactly if its size is right, all FATs have one chain for it and every byte of it follows the pattern |
| `GptTables.ParsersAgree` | crates/caprock-part/src/lib.rs:173-220 | the tool's and the service's header parsers accept the same sectors up to the entry limits, with the same fields |
| `GptTables.StrictExactly` | crates/caprock-part/src/lib.rs:173-220 | every refusal of the strict parser with its exact condition on the bytes, and the fields it returns |
| `GptPatch.SoundParses` | tools/lxpd-e2e-platte.py:74-90 | the patch tool's parser on the bytes: signature, revision, checksum |
| `GptWriter.ProtectiveMbr` | tools/mkgpt.py:32-45 | the protective MBR, field by field, the sector count clipped to 32 bits |
| `GptWriter.BuildEntries` | tools/mkgpt.py:48-58 | 128 entries: the given partitions in order, all others zero |
| `GptWriter.NameMeans` | tools/mkgpt.py:48-58 | a partition's name is caprock and its index in decimal, two bytes a character |
| `GptWriter.BuildHeader` | tools/mkgpt.py:61-80 | every field where the standard has it and the checksum over the header with a zero in its place, or the damage asked for |
| `GptWriter.WriteTable` | tools/mkgpt.py:163-201 | both copies, each naming the other, over one list |
| `GptWriter.MkGpt` | tools/mkgpt.py:148-201 | refusals exactly as the code has them; otherwise a disk with both copies, the volume's files and the mark, and zeros in the rest of the usable area |
| `GptWriter.TableKept` | tools/mkgpt.py:163-201 | writing inside the usable area leaves both copies standing |
| `GptWriter.VolumeKept` | tools/mkgpt.py:187-194 | a volume keeps its files under changes outside it |
| `GptPatch.ResealedParses` | tools/lxpd-e2e-platte.py:127-153 | for every header and size: when a resealed header parses, and that only the list checksum has changed |
| `GptPatch.RewriteCopies` | tools/lxpd-e2e-platte.py:127-153 | the four writes in the tool's order, wherever the header that was parsed sends them, the other header read in between |
| `GptPatch.RewrittenFrame` | tools/lxpd-e2e-platte.py:127-153 | wherever it is sent the tool writes two lists and two sectors and nothing else |
| `GptPatch.RewrittenApart` | tools/lxpd-e2e-platte.py:127-153 | wherever the headers send the tool, if the places do not overlap both headers are resealed and both lists stand |
| `GptPatch.SelfCheckAnywhere` | tools/lxpd-e2e-platte.py:195-227 | and with the documents off the table the self check comes down to the backup header's signature and revision, in any layout |
| `GptPatch.PlacedPatched` | tools/lxpd-e2e-platte.py:111-153 | where the image tool puts the table these are four writes that do not overlap |
| `GptPatch.PatchTable` | tools/lxpd-e2e-platte.py:111-153 | for any header that parses, the table after the run as a function of the disk before |
| `GptPatch.WriteDocs` | tools/lxpd-e2e-platte.py:170-193 | directory and documents, padded to whole sectors |
| `GptPatch.DocsReadBack` | tools/lxpd-e2e-platte.py:170-193 | the directory says the three lengths and the documents read back exactly |
| `GptPatch.LeftFrame` | tools/lxpd-e2e-platte.py:101-227 | whatever the outcome: a byte that changed lies in a table copy or in the documents' range inside partition 2, never in a reserved sector |
| `GptPatch.SelfCheckSays` | tools/lxpd-e2e-platte.py:195-227 | the tool's look at its own work can find one thing only, a backup header that was foreign before |
| `GptPatch.Admit` | tools/lxpd-e2e-platte.py:101-125 | every refusal before the first write with its exact condition on the bytes of the disk |
| `GptPatch.Patch` | tools/lxpd-e2e-platte.py:101-227 | every outcome with its exact condition on the disk before and the documents, and every byte left |
| `GptPatch.VerdictExactly` | tools/lxpd-e2e-platte.py:101-227 | the same as a statement about the verdict: image size, header, list, type, bounds 20001 and 32700, GUID, documents, backup header, in this order |
| `GptPatch.LeftSays` | tools/lxpd-e2e-platte.py:101-227 | a disk that may not be patched is untouched; on one that may, both copies are resealed even if the documents are refused, and the documents are there exactly if they may be |
| `GptPatch.PatchSeals` | tools/lxpd-e2e-platte.py:111-153 | after success both copies parse and vouch for one list, which differs from the old one in 16 type bytes only, and the documents read back |
| `GptService.ReadExactly` | programs/lxpd-runtime/src/lib.rs:611-665 | reading in pieces of eight sectors gives the bytes asked for, or an error exactly if they do not lie on the disk |
| `GptService.Find` | programs/lxpd-runtime/src/lib.rs:671-764 | every refusal of the table with its exact condition on the bytes; a partition is named only if the list's checksum is that of the header |
| `GptService.FindExactly` | programs/lxpd-runtime/src/lib.rs:671-764 | the same as a statement about the answer: sizes, header, list, checksum, search |
| `GptService.EntriesExactly` | programs/lxpd-runtime/src/lib.rs:715-764 | what counts as a driver partition and as somebody else's, and what is reported of it, on the bytes of the disk |
| `GptService.SearchAll` | programs/lxpd-runtime/src/lib.rs:671-764 | the loop over the entries is the search, unreadable entries included |
| `GptService.SearchAnswers` | programs/lxpd-runtime/src/lib.rs:671-764 | the answer is the index-th driver partition, or too few of them, or an entry on the way that cannot be read |
| `GptService.SearchMeans` | programs/lxpd-runtime/src/lib.rs:671-764 | over any list: found exactly if there is an entry that index driver entries precede and every entry up to it can be read; the foreign count is the number of used entries of others before it |
| `GptService.LoadsWhatWasWritten` | programs/lxpd-runtime/src/lib.rs:769-793 | where the patch tool wrote its directory, the service reads exactly the three documents |
| `GptService.ReadDocuments` | programs/lxpd-runtime/src/lib.rs:769-793 | the reads of the service, one after the other |
| `GptService.DirectoryExactly` | programs/lxpd-runtime/src/lib.rs:362-400 | a directory is taken or refused by its magic, flags and lengths, each refusal exactly |
| `GptService.LoadsExactly` | programs/lxpd-runtime/src/lib.rs:769-793 | three documents are read exactly if a directory announces them, within the limits and the partition, and they are there |
| `GptEndToEnd.MadeParses` | tools/mkgpt.py:61-80 | on a built disk the patch tool's parser returns exactly what the image tool meant, or the damage it was asked for |
| `GptEndToEnd.SealedExactly` | tools/mkgpt.py:61-80 | a built copy is valid, list included, exactly if no damage was asked for |
| `GptEndToEnd.PatchOfMade` | tools/lxpd-e2e-platte.py:101-227 | the patch tool's verdict on every disk the image tool builds, whatever its partitions; damage to the list's checksum is not noticed |
| `GptEndToEnd.ServiceOfMade` | programs/lxpd-runtime/src/lib.rs:671-764 | the service's answer on every disk the image tool builds: each damage is named, the list's checksum included |
| `GptEndToEnd.ServiceFindsPartition` | programs/lxpd-runtime/src/lib.rs:671-764 | after a successful patch of a built disk the service finds partition 2 with its bounds and its GUID |
| `GptEndToEnd.ServiceReadsOldSector` | programs/lxpd-runtime/src/lib.rs:769-793 | the sector the service takes for the directory is one the tool has not written |
| `GptEndToEnd.MarkIsNoDirectory` | tools/mkgpt.py:148-201 | with the suite's mark in that sector the service gets no further |
| `GptEndToEnd.VolumeSurvives` | tools/lxpd-e2e-platte.py:101-227 | whatever the tool does, a volume in front of partition 2 keeps its files |
| `GptEndToEnd.ReportsSurvive` | tools/lxpd-e2e-platte.py:101-227 | every verdict of the FAT reader on that volume is the same before and after, whatever the name |
| `Colors.MakeStripe` | crates/caprock-mem/src/color.rs:114-144 | the stripe mask: refused exactly if the split is invalid, else its block repeated over the word |
| `Colors.OneStripe` | crates/caprock-mem/src/color.rs:114-144 | every colour lies in exactly the stripe its position in the period says |
| `Colors.StripesDisjoint` | crates/caprock-mem/src/color.rs:114-144 | different stripes share no bit |
| `Colors.StripesCover` | crates/caprock-mem/src/color.rs:114-144 | and together they fill the word |
| `Colors.EvenShare` | crates/caprock-mem/src/color.rs:114-144 | every stripe holds the same number of the machine's colours, also with more colours than mask bits |
| `Colors.ColorIsRemainder` | crates/caprock-mem/src/color.rs:74-79 | masking a truncated page number is the page number modulo the colours |
| `Colors.CheckPure` | kernel/src/colors.rs:886-895 | the loop says whether every page of a run has its colour in the mask |
| `Colors.PureIsWholeStripe` | kernel/src/colors.rs:216-229 | a run of stripe length is pure exactly if it starts where the stripe's block does: it is one whole stripe |
| `Colors.PureTouches` | kernel/src/colors.rs:904-914 | a pure run of that length touches every bit of its block and no other |
| `StripeClaims.PickFree` | crates/caprock-mem/src/color.rs:155-167 | the lowest free index, or none exactly if all are taken |
| `StripeClaims.RunStaysGood` | kernel/src/colors.rs:96-119 | under every interleaving of load, exchange with spurious failure and release: set bits = held stripes, no stripe with two holders |
| `StripeClaims.HoldersShareNoColor` | kernel/src/colors.rs:85-119 | in any run two tasks never hold a page colour in common |
| `StripeClaims.RefusedMeansFull` | kernel/src/colors.rs:96-112 | a claim is refused only if the word it loaded was full or the machine cannot be split |
| `StripeClaims.StrayRelease` | kernel/src/colors.rs:114-119 | a release by a non-holder keeps the books right exactly if the bit was clear |
| `StripeClaims.StrayReleaseShares` | kernel/src/colors.rs:114-119 | otherwise two steps suffice to give the stripe to a second holder, if it is the lowest free one |
| `RunScan.ScanBlock` | kernel/src/colors.rs:999-1040 | one block: recorded runs are pure, pairwise disjoint, inside fetched blocks, in their places of the array; and of a stripe that is still short every pure window of the block is recorded or overlaps a recorded run |
| `RunScan.Collect` | kernel/src/colors.rs:999-1040 | the same over all blocks, with every request made to the allocator; it stops short only with all blocks fetched or a request refused that is too small to halve |
| `RunScan.WholeStripesRecorded` | kernel/src/colors.rs:999-1040 | of a stripe that is short at the end, every whole stripe in the blocks is recorded |
| `RunScan.UsedBits` | kernel/src/colors.rs:904-914 | the mask bits a list of runs touches, exactly |
| `RunScan.CheckColors` | kernel/src/colors.rs:1057-1060 | the faithfulness check says what it is meant to: groups share, or do not share, colours |
| `RunScan.CompleteIsFaithful` | kernel/src/colors.rs:999-1060 | once the setup is complete victims and sharing attackers touch all of stripe one, the disjoint ones all of stripe two |
| `RunScan.Setup` | kernel/src/colors.rs:999-1060 | a setup that completes passes its own check; one that does not missed no run, and no more blocks were to be had |
| `PointerRing.BitReverseIs` | kernel/src/colors.rs:811-813 | the shifted 64-bit reversal is the reversal of the low bits, for no bits too |
| `PointerRing.SingleLine` | kernel/src/colors.rs:811-813 | over a single line the masked shift gives line 0 |
| `PointerRing.LineInside` | kernel/src/colors.rs:797-801 | a line lies inside its region |
| `PointerRing.Involution` | kernel/src/colors.rs:811-813 | reversing twice gives the index back, so it is a permutation |
| `PointerRing.LinesApart` | kernel/src/colors.rs:797-801 | different lines do not overlap, across regions too |
| `PointerRing.BuildChain` | kernel/src/colors.rs:818-828 | every line holds the address of the next stop, nothing else is written and nothing outside the regions; a build with overflow checks panics exactly over a single line |
| `PointerRing.Chase` | kernel/src/colors.rs:848-858 | the loop follows the pointers that many times |
| `PointerRing.RoundTrip` | kernel/src/colors.rs:818-858 | after one round the chase is back at the start |
| `PointerRing.VisitsEachLineOnce` | kernel/src/colors.rs:818-858 | line i is visited at step bit-reversal of i and at no other |
| `PointerRing.WalkBits` | kernel/src/colors.rs:867-882 | the walk's number of bits covers all lines and fits the word |
| `PointerRing.Walk` | kernel/src/colors.rs:867-882 | every line is written exactly once, inside the regions, for any number of lines; a build with overflow checks panics, before any write, exactly over a single line |
| `Sidecar.PartialStep` | kernel/src/sidecarkopie.rs:93-145 | one more write changes one word, to its final content, and no word is written twice |
| `Sidecar.OwnSlotOnly` | kernel/src/sidecarkopie.rs:93-145 | at every step of a delivery only its own slot differs |
| `Sidecar.MagicMeansComplete` | kernel/src/sidecarkopie.rs:93-145 | on a slot without magic, the magic is visible exactly when the whole frame is |
| `Sidecar.DeliveredWords` | kernel/src/sidecarkopie.rs:93-145 | where magic, version, generation, reason, code, widths, architecture, ABI words and frame stand in a delivered slot |
| `Sidecar.HeaderExactly` | kernel/src/sidecarkopie.rs:171-219 | every refusal of a header with its exact condition on the words, reserved words included |
| `Sidecar.ReusedSlotTorn` | kernel/src/sidecarkopie.rs:93-145 | on a slot with a magic, new generation and old frame are visible together |
| `Sidecar.NeverTornExactly` | kernel/src/sidecarkopie.rs:93-145 | at every step a visible magic means the complete frame, exactly if the slot held no magic or this very delivery |
| `Sidecar.WriteSlot` | kernel/src/sidecarkopie.rs:93-145 | the loops of volatile writes pass through exactly those partial windows |
| `Sidecar.Courier.Deposit` | kernel/src/sidecarkopie.rs:93-145 | the whole frame with the next generation, every word in its place, or nothing and the error counted |
| `Sidecar.Courier.Take` | kernel/src/sidecarkopie.rs:171-219 | for every content the handler may leave: taken exactly if every header word is right; words above the general registers never change, and none if it is refused |
| `Sidecar.DeliveredReadsBack` | kernel/src/sidecarkopie.rs:93-219 | what was delivered passes the header check and restores exactly the frame |
| `MeasureChain.Chain.Extend` | kernel/src/loader.rs:399-419 | one measurement more; the first 64 are linked, later ones counted as discarded, earlier links untouched |
| `MeasureChain.Chain.Current` | kernel/src/loader.rs:433-440 | the head is the replay of what was kept |
| `MeasureChain.Recompute` | tools/lx_attest_check.py:88-108 | the tool's loop is that replay |
| `MeasureChain.Check` | tools/lx_attest_check.py:88-147 | every verdict with its exact condition, in the order of the checks |
| `MeasureChain.TagExactly` | tools/lx_attest_check.py:56-63 | a tag is two hashes, with the key in front and behind; under one key it is good for one report only, up to a collision of both |
| `MeasureChain.SignedParts` | tools/lx_attest_check.py:61-63 | the signed bytes say head, count and nonce |
| `MeasureChain.MessageParts` | tools/lx_attest_check.py:48-53 | the measured bytes say state, program, domain and image, in this order |
| `MeasureChain.MessageInjective` | tools/lx_attest_check.py:48-53 | the 72-byte message determines the state before, program, domain and image |
| `MeasureChain.SameHeadExactly` | tools/lx_attest_check.py:88-108 | for every hash: two chains of one length have one head exactly if they are the same chain, or hash two different messages alike at some entry and go on alike |
| `MeasureChain.KernelsChainExactly` | tools/lx_attest_check.py:88-119 | for every hash: head and count fit the kernel's own genesis and entries, the chains that collide with them, and no others |
| `MeasureChain.OwnChainOrCollision` | tools/lx_attest_check.py:88-119 | whoever has another chain that fits has two different messages with one hash, and these are they |
| `Collisions.EveryHashCollides` | tools/lx_attest_check.py:48-53 | every hash into 32 bytes maps two different 72-byte messages to one |
| `MeasureChain.AnotherChainFits` | tools/lx_attest_check.py:88-119 | so for every hash there is a kernel chain whose head and count another chain fits too |
| `MeasureChain.FrontCutKeepsHead` | tools/lx_attest_check.py:88-119 | without the count, a chain cut at the front keeps its head |
| `MeasureChain.KeptExactly` | tools/lx_attest_check.py:88-119 | for a chain's report the tool accepts that chain's genesis with what it has kept, what collides with it, and nothing else |
| `MeasureChain.DiscardsInvisible` | kernel/src/loader.rs:399-440 | two chains with the same first 64 measurements report the same, whatever came after them, for every hash |
| `MeasureChain.KeptIsVisible` | kernel/src/loader.rs:399-440 | two chains report the same exactly if they have kept the same or what they have kept collides |
| `MeasureChain.TwoChainsOneReport` | kernel/src/loader.rs:399-440 | for every hash, two chains that differ in the 65th measurement and report the same |
| `VersionPin.Pins.Find` | kernel/src/loader.rs:2557-2561 | the table search finds the one pin of an id |
| `VersionPin.Pins.RecordOrCheck` | kernel/src/loader.rs:2571-2627 | the table refines a map with room for 64 ids |
| `VersionPin.Pins.Gate` | kernel/src/loader.rs:2525-2554 | the whole gate refines one step on that map |
| `VersionPin.OneVersion` | kernel/src/loader.rs:2571-2627 | over every history all passes of an id carry one version |
| `VersionPin.NoSecondPass` | kernel/src/loader.rs:2525-2541 | an id that has passed never passes again as NO_HOTRELOAD |
| `VersionPin.NeverOverfull` | kernel/src/loader.rs:2571-2627 | never more than 64 pins |
| `VersionPin.FullRefusesUnknownOnly` | kernel/src/loader.rs:2571-2627 | a full table refuses exactly the unknown ids |
| `VersionPin.PinnedIsPassed` | kernel/src/loader.rs:2571-2627 | pinned is what has passed before, and nothing else |
| `VersionPin.PassesByHistory` | kernel/src/loader.rs:2525-2627 | which earlier requests decide: a program passes if it never passed and fewer than 64 others did, or if it passed with this version and may be reloaded |
| `VersionPin.RefusalByHistory` | kernel/src/loader.rs:2525-2627 | each refusal with its exact condition on the earlier requests |
| `VersionPin.Pins.Record` | kernel/src/loader.rs:2545-2554 | the second half of the gate, on the table as it is by then |
| `VersionPin.OneVersionInAnyOrder` | kernel/src/loader.rs:2545-2627 | in every interleaving of looks and records of any number of loaders all passes of an id carry one version |
| `VersionPin.NeverOverfullInAnyOrder` | kernel/src/loader.rs:2571-2627 | and there are never more than 64 pins |
| `VersionPin.PassesAgainExactly` | kernel/src/loader.rs:2525-2627 | a NO_HOTRELOAD id passes again exactly if its look came before the first record, with the same version |
| `VersionPin.BothPass` | kernel/src/loader.rs:2525-2627 | two loaders that both look before either records both pass |
| `VersionPin.SerialPassesOnce` | kernel/src/verifizierer.rs:22-28 | where nothing happens between look and record it never does |
| `VersionPin.SerialPins` | kernel/src/loader.rs:2545-2554 | one loader after the other, the table is that of the history ... |
| `VersionPin.SerialPasses` | kernel/src/loader.rs:2545-2554 | ... and the same requests pass |
| `CapConservation.Endow` | kernel/src/loader.rs:630-863 | every cap the entry asks for in its slot, or none alive; refused exactly if something is missing |
| `CapConservation.Combine` | kernel/src/loader.rs:1669-1777 | manifest and offer together exactly if slots are distinct and enough; otherwise exactly what was collected is gone |
| `CapConservation.LoadDriver` | kernel/src/loader.rs:1669-1777 | success exactly if there is a backend, the entry can be granted, its slots and the offer's go together and the last step succeeds; then exactly manifest and offer are installed; on each failure exactly which offered caps are gone |
| `CapConservation.LoadVerifiedImage` | kernel/src/loader.rs:2055-2084 | the same, for an admitted image only; failure leaves alive exactly what was alive before, less the offer |
| `CapConservation.Collect` | kernel/src/loader.rs:3121-3141 | which caps are stored before a collision |
| `CapConservation.LoadByIndex` | kernel/src/loader.rs:3039-3242 | success exactly if no wanted slot is the offer's and the load succeeds; failure leaves exactly the residue |
| `CapConservation.ResidueIs` | kernel/src/loader.rs:3121-3242 | for a load's manifest, in which no cap stands twice, the residue is exactly the colliding cap and those after it |
| `CapConservation.NothingRemains` | kernel/src/loader.rs:3121-3242 | the residue is empty exactly if no manifest cap wants a slot the offer holds |
| `LxpdContainer.Parse` | kernel/src/lxpd_boot.rs:189-224 | the parser, every refusal in order, no access out of bounds on any input |
| `LxpdContainer.ParseIsExact` | kernel/src/lxpd_boot.rs:150-224 | a byte string is the encoding of a container exactly if it parses to its numbers and free bytes |
| `LxpdContainer.RefusalsExactly` | kernel/src/lxpd_boot.rs:189-224 | each refusal with its exact condition on the bytes, the first bad stub included |
| `LxpdContainer.AcceptedIsEncoding` | kernel/src/lxpd_boot.rs:150-224 | everything accepted is an encoding |
| `ImageAssembly.LoadedWhereCovered` | tools/kernel_hash.py:69-95 | where the file holds what the segments claim, memory is defined after loading exactly where one covers it |
| `ImageAssembly.HeaderFields` | tools/kernel_hash.py:69-80 | a program header that lies in the file is read field by field from its bytes |
| `ImageAssembly.Assemble` | tools/kernel_hash.py:69-95 | on any file and range: succeeds exactly if the segments claim to cover the range, with exactly the bytes Python's slice assignments leave |
| `ImageAssembly.BuiltIsMemory` | tools/kernel_hash.py:69-95 | if the parts inside the range are in the file, these are the bytes the segments leave in memory, copied in header order |
| `ImageAssembly.BuiltIsMemoryExactly` | tools/kernel_hash.py:69-95 | where no address of the range is backed twice, the bytes are those left in memory exactly if the parts inside the range are in the file |
| `ImageAssembly.FullLengthButWrong` | tools/kernel_hash.py:86-88 | segments and file for which the result has full length and one byte that nothing loads |
| `ImageAssembly.OverwrittenPartIsNotMissed` | tools/kernel_hash.py:86-88 | overlapping segments for which a missing part does no harm |
| `ImageAssembly.TruncatedPart` | tools/kernel_hash.py:86-88 | if only the last part inside the range is not in the file, the result is too short |
| `ImageAssembly.TruncatedFile` | tools/kernel_hash.py:69-95 | a file of 98 bytes for which the tool returns one byte for a range of two |
| `DepAudit.Closure` | tools/sign_trusted.py:94-125 | the worklist ends with exactly the reachable crates, on cyclic graphs too |
| `DepAudit.Audit` | tools/sign_trusted.py:94-156 | status word and verdict, exactly |
| `DepAudit.CheckDeps` | tools/eingeschlossenheit.py:409-488 | which findings exactly; none exactly if every dependency of a candidate is a candidate or allow-listed, and every local name among them is a path dependency |
| `DepAudit.CheckCrate` | tools/eingeschlossenheit.py:409-488 | which findings exactly; none exactly if one candidate is in order |
| `DepAudit.CheckRatchets` | tools/eingeschlossenheit.py:489-542 | which findings exactly; none exactly if the concession lists hold nothing stale |
| `DepAudit.Guard` | tools/eingeschlossenheit.py:382-542 | which findings exactly; none exactly if the whole rule holds |
| `DepAudit.CleanExactly` | tools/eingeschlossenheit.py:354-542 | for a silent guard: the audit of a candidate is clean exactly if everything behind the allow-listed crates it reaches is |
| `DepAudit.SilentGuardPassesAudit` | tools/eingeschlossenheit.py:354-542 | so if allow-listed crates depend on candidates and allow-listed crates only, every candidate passes the other tool's audit |
| `DepAudit.AllowedCrateIsAHole` | tools/sign_trusted.py:94-156 | a world with a silent guard and a failing audit, though both tools agree on every candidate |

## Left out

What follows is about whole parts first, then about single members.

* SHA-256, CRC-32, Ed25519, FNV-1a, hexadecimal and JSON text: hashes are function parameters, any function of the right width, and what would need one without collisions names the collision instead; documents are byte strings.
* Weak memory: the exchange on the stripe word and the writes to a sidecar slot are steps in program order; the fences are not modelled.
* Concurrent calls into the capability space: the kernel holds one lock around each operation, so a run is a sequence.
* The kernel's scheduler, IPC, paging and the DMA teardown behind a finalised object; `reload_driver`.
* Measurement, timing, reports and probes; the hosts' burn-in and soak tools; key generation and build scripts.
* The small Verus models of W^X, domains, DMA and loader disjointness, the key table: one-step invariants.
* `inspect`, `mark_slot`, `for_each_dma`, the single `install_*` variants and the peak queries of the capability space: they read, or call `install` with one kind.
- CapSpaces.CapSpace.Copy: does not model the 32-bit reference count wrapping around; the number of slots bounds it.
- FatWriter.BuildFat16: takes names already split at the dot, upper-cased and at most 8.3 (a longer name would grow the Python buffer), and at most 512 files that have the sectors: a longer list would run out of the directory, and files beyond the last sector would grow the buffer.
- FatReader.CheckFat: takes a disk of whole sectors; the test pattern stands for the expected content.
- GptWriter.MkGpt: takes a disk large enough for both copies, at most 128 partitions, and volume and mark inside the usable area, with a FAT entry for every cluster of the files.
- GptPatch.Patch: the verdict is for tables laid out where the image tool lays them out (any content, any checksums) on disks that hold partition 2; for others GptPatch.PatchTable and GptPatch.RewrittenFrame say what is written, and GptPatch.SelfCheckAnywhere what the self check then says where the places do not overlap. The documents' text is a function of the partition's GUID.
- GptService.Find: the checksum over the list is one call, not a running one; the phase bookkeeping of the service is left out.
- Colors.CheckPure: addresses are counted in pages, masks are sets of bits.
- RunScan.Collect: the allocator is any function that never gives a page twice.
- PointerRing.Walk: at most 2 to the 63 lines, more than any memory holds; the shift that counts the rounds would wrap beyond.
- Sidecar.Courier.Take: what the reads return while the handler runs is an input, so any interleaving with the handler is covered; the delivery counter is unbounded.
- MeasureChain.Check: missing or malformed JSON fields, which end the tool before any verdict.
- VersionPin.Pins.Gate: the policy and version-number checks in front of the gate are inputs, and whether the load behind it then succeeds is not modelled: the pin is made before (loader.rs:2752).
- CapConservation.Endow: what the loader calls is an input, one answer each; handles are ever-growing numbers, which by CapHandles.NewHandleIsNew and CapTraces.DeleteAgain is how the capability space behaves for fewer than 2 to the 32 releases of a slot; notification and endpoint ids that a failed load leaves behind are not tracked.
- CapConservation.LoadVerifiedImage: the checks in front of the load -- manifest entry, domain, container, hash -- are one input, `admitted`.
- DepAudit.Audit: crates are identified by name, and counting `unsafe` in source text is an input.
