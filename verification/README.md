# OtsarDB in Dafny

OtsarDB keeps a database in an object store: immutable segments and commit manifests, linked by
hash, and one mutable object, HEAD, that names the newest commit. Writers race for HEAD with
conditional writes, readers fetch pages on demand, and a local cache, a lease and a garbage
collector work on the same data. This project models the parts of it that carry the hard promises
and proves those promises.

Outside the modules about it, SHA-256 is a constructor without collisions, and the state of a
mutex-protected region changes in one step. What the network, the clock, the disk and other
processes do is a free choice of the model: whatever they do is covered.

## The parts

**The commit chain.** `CommitChain` has the objects of the store and the chain that HEAD spells by
digests. `PublishProtocol` is a state machine: any number of publish attempts upload segments, then
a manifest, then swap HEAD; every write that was sent may take effect at any later moment, again and
again, or never; checkpoints and sweeps run beside them, one store operation a step. `PublishSafety`
has the invariant that every step keeps, `PublishTheorems` what follows for whole runs, and
`PublishRuns` builds runs that exist, which show where those theorems end, and `SweepRuns` follows a
sweep to its end. `ResolveCommit` and
`ConflictDetection` are the two walks from HEAD towards a parent, as loops and as functions; each GET
of a walk sees a store of its own. `ResolveTheorems` says what their verdicts are worth in every later
state, whatever is published and swept before, between and after the reads.

**Lazy hydration.** `PageReplay` defines oldest-first replay of a chain and the newest-claimant
lookup and says exactly when they agree. `Hydrator` is the class with the local file, the page set,
the tasks and the read-ahead windows; each method keeps the invariant that every set page holds what
replay gives (or what SQLite wrote), so the theorem about reads holds after any sequence of calls. A
method that can fail has a ghost result `fault`, which is set where a write, a fetch or a decode failed,
a window was dropped or the hydrator was stopped; what fails without a fault is said exactly.
`RangeCoalescing` is the two-phase merging of byte ranges, `Completeness` the k-way merge that counts
unclaimed pages, `PageBitmap` the bit array, `KeySort` and `ListChain` the loader that reads the chain
from a listing.

**The page cache.** `RecencyList` is the abstract cache: pages in the order of their last use.
`SlotPool` and `PoolOps` have the slot array with three linked structures in it (hash chains, a doubly
linked recency list and a free list, links being index plus one), and `RamCache` the class whose
methods change it in place and act on the abstract list.

**Text.** `TextScan` is the first-occurrence search for a quoted name, `NumberText` numbers and lists,
`ManifestText` the segments array, `ManifestCodec` the document, `ManifestWriter` the two-pass writer
and `SegmentEnc` the encryption record that is spliced into written text.

**The rest.** `Lease` (the writer lease as a state machine, with the clocks of its store and its
claimers), `LocalCache` (the two-rename save with crashes), `Sha256` (schedule, rounds and output) over
`Sha256Stream` (streaming against the whole-message definition, for any compression function),
`GaloisField` and `Gcm`. `Sha256Bits`, `Sha256Constants`, `FieldPolynomials` and `GcmLayout` hold what
these compute against definitions of their own: bits, roots of primes, polynomials over two elements,
and numbers read back from blocks.

## Where the code falls short of what one would expect of it

Each has a lemma, or a method that runs the calls, at an input that shows it, and another that says
when the expected property holds.

- A commit that landed and was then swept can be reported SUPERSEDED
  (`ResolveTheorems.SweptMisjudges`, in a reachable state; `ResolveTheorems.LandedIsMisjudged`, from
  every state). On swept history the verdict about the commit that landed on a parent is right if and
  only if the checkpoint pointer is at most two above the parent (`ResolveCommit.SweptGuard`).
- In the same way a request can be reported SUPERSEDED without overlap although a commit that overtook
  it touches its pages, because that commit was swept (`ResolveTheorems.OverlapIsMissed`). The walk sees
  all commits that overtook the request if and only if the pointer is at most one above the parent
  (`ConflictDetection.SeenExact`), and otherwise those from the covered generation on
  (`ConflictDetection.SweptReport`).
- The checkpoint pointer is written unconditionally and may go back, and then a commit that it says is
  kept may be gone (`PublishRuns.PointerGoesBack`). Everything from the stored pointer on is complete if
  and only if it has not gone back (`PublishRuns.PointerExact`), so it is in every run that writes no
  checkpoint below the stored pointer (`PublishRuns.ForwardIsComplete`).
- Applying a segment that was fetched whole does not ask the bitmap: a page that SQLite wrote while its
  owner was such a segment and still pending is overwritten (`Hydrator.BlindWriteIsLost`). The write
  survives if and only if its owner was not pending (`Hydrator.WriteThenTurn`); pages of segments
  fetched by ranges, or applied before, are safe.
- The comments at `src/storage/lazy_hydration.c:1722-1727` and `:3256-3263` say that a page whose
  read-ahead window was dropped is fetched directly. The code fetches it only while a window still covers
  it, and otherwise fails the read and with it the hydrator for good (`Hydrator.DroppedIsNotFetched`). A
  read that meets no fault, a dropped window being one, succeeds if and only if every page was set, or
  has an owner, or is covered by the checkpoint (`Hydrator.Hydrator.HydrateRange`).
- The lookup takes the first claiming segment of a commit and replay the last one
  (`PageReplay.TwoClaimants`). For given page sets they agree on all bytes if and only if the newest
  commit that claims the page does so once (`PageReplay.ClaimedOnceExact`).
- `otsardb_lazy_is_complete` adds the pages of the checkpoint base to the marked pages, although base
  pages are marked on demand as well (`Completeness.CompletenessMisjudges`); it is right about every
  image exactly if the base has no page or all of them (`Completeness.CompletenessExact`).
- The loop of `otsardb_lazy_mark_range` counts in 32 bits and ends if and only if the range stops
  before page 2^32 - 1 (`PageBitmap.RangeLoopEnds`).
- A released lease starts again at generation one, so generations repeat (`Lease.ReleaseRestarts`);
  that a generation names one owner is stated for runs without a release.
- A renewal writes the bytes that are there (`src/ha/lease.c:107-129` has no time in them). In a store
  whose ETags are fresh per write, fencing holds in all runs (`Lease.OneCanRenew`). In one whose ETags
  are made from the content, two handles of one owner can both renew (`Lease.TwoCanRenew`); without a
  release, whoever can still renew has the owner and the generation of the stored record
  (`Lease.RenewerOwns`), and with releases even that fails (`Lease.ReleasedRenewsAgain`).
- Manifest values are not escaped, and the writer checks neither the length of a list nor the form of a
  checksum, which the reader does (`ManifestCodec.QuoteIsLost`; `ManifestCodec.RoundTripExact`).
- The comment at `src/storage/commit_manifest.c:18-23` says that strtoull reports a minus sign as out
  of range. It wraps around instead, and the reader's own test for a minus sign sits before the white
  space that strtoull skips (`NumberText.MinusOne`); `NumberText.MinusRead` says exactly which texts
  with a minus sign are read, and as what.
- A save that is given a size and a hash attests those, not its source, and other bytes can be
  delivered for its head (`LocalCache.ForeignAttestation`); what a probe delivers is the source exactly
  if the two agree (`LocalCache.CacheDir.Probe`).

## Model

| member | source | states |
|---|---|---|
| CommitChain.HistoryShape | src/storage/commit_publish.c:843-963 | a hash-linked chain has as many manifests as its head has generations, contiguous down to 1, and each manifest's own history is the rest of it |
| CommitChain.HistoryLinks | src/storage/commit_publish.c:938-957 | in a chain, every manifest's parent fields name the generation, the id and the digest of the next one |
| PublishSafety.BuiltFromHead | src/storage/commit_publish.c:411-569 | a request on the HEAD it read builds the one manifest that continues the chain |
| PublishSafety.DeliverKeepsImmutable | src/storage/commit_publish.c:45-78 | a segment or manifest write that takes effect at any time, for any attempt, keeps the invariant and destroys nothing |
| PublishSafety.SwapExtends | src/storage/journal.c:140-193 | an accepted conditional HEAD write extends the very chain its writer read, and all objects of the new commit are stored already |
| PublishSafety.DeliverKeepsHead | src/storage/journal.c:140-193 | an accepted HEAD write keeps the invariant, and no attempt's HEAD write is accepted twice |
| PublishSafety.CheckpointPutKeeps | src/storage/checkpoint_build.c:163-181 | storing the checkpoint of any commit that was ever HEAD, at any time and again, keeps the invariant |
| PublishSafety.CheckpointPointKeeps | src/storage/checkpoint_build.c:183-204 | writing CHECKPOINT.json for it, without a condition, at any later time and again, keeps the invariant |
| PublishSafety.SweepTargetsSuperseded | src/storage/gc.c:133-190 | what a sweep deletes next belongs to a commit below the highest covered generation, also if that commit never landed |
| PublishSafety.SweepDeleteKeeps | src/storage/gc.c:133-190 | a delete of a sweep, whether it takes effect or not, keeps the invariant |
| PublishSafety.StepExtends | src/storage/commit_publish.c:411-708 | no step of any kind changes the chain but for a new manifest in front |
| PublishSafety.StepKeeps | src/storage/commit_publish.c:411-708 | every step of every writer, checkpoint and sweep keeps the invariant |
| PublishTheorems.RunKeeps | src/storage/commit_publish.c:411-708 | the invariant holds after every run, and the chain, the covered generation and the requests only grow |
| PublishTheorems.StoreSpellsChain | src/storage/journal.c:112-138 | in every reachable state, following digests from the stored HEAD gives exactly the manifests that ever were HEAD |
| PublishTheorems.ChainShape | src/storage/commit_publish.c:411-708 | in every reachable state the chain is sound, its generations are contiguous, each commit id occurs once, and every manifest from the highest covered generation on is stored with all its segments |
| PublishTheorems.ChainOnlyGrows | src/storage/journal.c:140-193 | the chain of any reachable state is a tail of the chain of every later state |
| PublishTheorems.OneWinnerPerParent | src/storage/commit_publish.c:682-708 | two attempts from the same parent never both return OK |
| PublishTheorems.OkIsDurable | src/storage/commit_publish.c:682-708 | a commit whose publish returned OK is on the chain in every later state |
| PublishTheorems.OkStoresData | src/storage/commit_publish.c:411-708 | a publish that returned OK is on the chain in every later state with the parent, the page sets and the order of segments that were asked for, and until a later generation is covered the store has exactly the payloads of the request under its keys |
| PublishTheorems.HeadNeverRecurs | src/storage/journal.c:180-193 | a HEAD that was replaced never comes back, so ETags that depend on content alone are enough |
| PublishTheorems.StaleMeansBelow | src/storage/commit_publish.c:843-963 | a parent that is no longer HEAD has a generation below HEAD's |
| PublishTheorems.StaleCannotDeliver | src/storage/journal.c:180-193 | a HEAD write from a parent below HEAD is refused |
| PublishTheorems.OvertakenNeverLands | src/storage/journal.c:180-193 | once a writer was overtaken its HEAD write, however late it arrives, is refused in every later state |
| PublishTheorems.SweepIsSafe | src/storage/gc.c:94-190 | at every point of every sweep, beside any publishers: HEAD, the checkpoint objects and the chain are unchanged, every commit from the highest covered generation on is complete, and so is every commit from the stored pointer on unless it has gone back |
| PublishTheorems.DoomedGeneration | src/storage/gc.c:133-190 | the manifest a sweep read has the generation the sweep is at, one more than its parent's |
| PublishTheorems.SweepTerminates | src/storage/gc.c:34-190 | each step of a sweep, its first three reads included, decreases a measure, so the walk ends |
| PublishRuns.PublishesRequest | src/storage/commit_publish.c:411-708 | from any reachable state a request on the current HEAD, with any number of segments and fresh keys, can be published: a run ends with OK, one manifest more in front of the chain that says what the request asked for, and its payloads stored |
| PublishRuns.ChainsExist | src/storage/commit_publish.c:411-708 | there are reachable states with a chain of every length, with any page sets |
| PublishRuns.SweepHappens | src/storage/gc.c:94-190 | from every state any generation above the covered one can be covered and swept: there is a run after which the manifest below it is gone |
| PublishRuns.CoveredIsComplete | src/storage/gc.c:94-190 | in every reachable state every commit from the highest covered generation on is complete |
| PublishRuns.PointerGoesBack | src/storage/checkpoint_build.c:183-204 | from every state with two generations to cover, a run ends with the stored pointer at the lower one and a commit from that one on missing |
| PublishRuns.PointerExact | src/storage/checkpoint_build.c:183-204 | over all later states: everything from the stored pointer on is complete if and only if the pointer is at the highest generation ever covered |
| PublishRuns.ForwardIsComplete | src/storage/checkpoint_build.c:183-204 | in every run in which CHECKPOINT.json is never written below what it holds, every commit from the stored pointer on is complete, whatever was swept |
| SweepRuns.SweepClears | src/storage/gc.c:94-190 | every run of a sweep alone to its end, its deletes taking effect, has removed the manifest and all segments of every commit from where it began, down to genesis or to the first manifest that was missing, and added or changed nothing |
| SweepRuns.SweepEnds | src/storage/gc.c:94-190 | wherever a sweep is, it can be run to its end |
| SweepRuns.CheckpointClears | src/storage/gc.c:94-190 | from every state with a stored checkpoint at the covered generation there is a sweep after which nothing of the commits below is left, down to genesis or to one that was missing before |
| ResolveCommit.Resolve | src/storage/commit_publish.c:843-963 | with a store of its own for every GET, the loop returns what the recursive walk gives, and UNKNOWN exactly with an error result |
| ResolveCommit.BoundRead | src/storage/commit_publish.c:720-738 | a read that is bound to a digest returns the manifest of that digest or fails, and fails with NOT_FOUND exactly if nothing is stored |
| ResolveCommit.WalkExact | src/storage/commit_publish.c:886-963 | from any place of a chain whose manifests are there at their GETs the walk ends within its budget with the exact verdict |
| ResolveCommit.ResolutionExact | src/storage/commit_publish.c:843-963 | if every manifest above the parent is there at its GET and there are fewer than 1,000,000, the verdict about the chain of the HEAD that was read is COMMITTED exactly if the id is on it from the parent's generation on, NOT_COMMITTED exactly if HEAD has not passed the parent and is not that id, and SUPERSEDED otherwise |
| ResolveCommit.ResolutionJustified | src/storage/commit_publish.c:797-963 | whatever the stores at the GETs are: COMMITTED is reported only for a commit on the chain of the HEAD that was read, NOT_COMMITTED only if that HEAD had not passed the parent, and SUPERSEDED only if the commit is absent or hidden below a covered generation |
| ResolveCommit.SweptResolution | src/storage/commit_publish.c:898-921 | on swept history the verdict about any id is COMMITTED exactly if the id is on the chain at covered minus one or above |
| ResolveCommit.SweptCommit | src/storage/commit_publish.c:898-921 | on swept history a commit that landed is reported COMMITTED if the pointer is at most one above its generation, and SUPERSEDED otherwise |
| ResolveCommit.SweptGuard | src/storage/commit_publish.c:898-921 | on swept history the commit that landed on a parent is reported COMMITTED if and only if the pointer is at most two above the parent |
| ResolveTheorems.VerdictsArePermanent | src/storage/commit_publish.c:843-963 | what is true about an attempt's commit, once it is committed or superseded, is true in every later state |
| ResolveTheorems.CommittedIsForever | src/storage/commit_publish.c:843-963 | in every run, with any steps between the reads, a reported COMMITTED means that the commit is on the chain from the read of HEAD on, in every later state |
| ResolveTheorems.SupersededNeverLands | src/storage/commit_publish.c:843-963 | in every run, with any steps between the reads, the HEAD write of a request that was reported SUPERSEDED is refused from the read of HEAD on |
| ResolveTheorems.SupersededIsForever | src/storage/commit_publish.c:843-963 | a reported SUPERSEDED means that the manifest is on no later chain, nor is its id if ids are not used twice, when no intact checkpoint the call could read is more than two above the parent |
| ResolveTheorems.LandedIsMisjudged | src/storage/commit_publish.c:898-921 | from every state a commit two or more below a generation not yet covered can come to be reported SUPERSEDED although it is on the chain |
| ResolveTheorems.SweptMisjudges | src/storage/commit_publish.c:898-921 | a reachable state in which a commit on the chain is reported SUPERSEDED |
| ResolveTheorems.OverlapIsMissed | src/storage/commit_publish.c:1089-1113 | a reachable state in which a request is reported SUPERSEDED without overlap although a commit that overtook it touches its page |
| ResolveTheorems.ReachableResolutionExact | src/storage/commit_publish.c:843-963 | while no checkpoint covers more than the parent's next generation the reported verdict is the exact one for the chain of the HEAD that was read, whatever is published between the reads |
| ConflictDetection.SortedAnyIntersect | src/storage/commit_publish.c:981-997 | the merge over two sorted lists finds a common page exactly if there is one |
| ConflictDetection.RequestOverlaps | src/storage/commit_publish.c:999-1017 | true exactly if the request shares a page with the manifest or one of the page sets is unknown |
| ConflictDetection.WalkConflict | src/storage/commit_publish.c:1068-1165 | with a store of its own for every GET, the walk ends with the verdict of commit resolution; if it is SUPERSEDED, the overlap flag is set exactly if some commit that was read above the parent overlaps |
| ConflictDetection.DetectConflict | src/storage/commit_publish.c:1019-1165 | with a store of its own for every GET: the state verdict is that of commit resolution, and overlap is exact in each case: unknown pages overlap, NOT_COMMITTED with known pages does not, SUPERSEDED does exactly if a commit that was read does, which on readable history are all that overtook the request |
| ConflictDetection.SeenExact | src/storage/commit_publish.c:1089-1113 | after a sweep the walk reads all commits that overtook a request if and only if the covered generation is at most one above the parent |
| ConflictDetection.SweptReport | src/storage/commit_publish.c:1089-1113 | on swept history the reported overlap is exactly that with the commits from the covered generation on |
| ConflictDetection.DisjointCommutes | src/storage/commit_publish.c:969-1017 | writes to pages that no other commit of a sequence writes can be applied before or after the sequence |
| ConflictDetection.NoOverlapCommutes | src/storage/commit_publish.c:969-1017 | the request's pages and those of any commits none of which overlaps it can be applied in either order |
| ConflictDetection.ReportedCommutes | src/storage/commit_publish.c:1019-1165 | if no commit of the chain above the parent overlaps the request, its pages can be applied before or after all of them, replayed oldest first |
| ConflictDetection.DetectAndRebase | src/storage/commit_publish.c:1019-1165 | a report of SUPERSEDED without overlap is given exactly if that holds, and then the request commutes with the commits that overtook it |
| RecencyList.ShrinkFits | src/storage/lazy_hydration.c:612-615 | eviction stops as soon as one more page fits the budget, not earlier and not later |
| RecencyList.TouchKeepsRecent | src/storage/lazy_hydration.c:547-579 | a hit keeps the cache the most recent part of the history of uses |
| RecencyList.RemoveKeepsRecent | src/storage/lazy_hydration.c:647-684 | so does a removal, and the page is gone |
| RecencyList.StoreKeepsRecent | src/storage/lazy_hydration.c:597-644 | storing keeps the most recent pages, evicts exactly the least recently used ones, puts the page first, and stays within slots and budget but for a single page larger than the budget |
| RecencyList.StrictLru | src/storage/lazy_hydration.c:452-684 | after any sequence of lookups, stores and removals the cache is a most recent part of the order of use, holds for each page the bytes stored last, and is within its budget |
| SlotPool.LruCutLinked | src/storage/lazy_hydration.c:557-567 | unlinking any slot of the doubly linked list leaves the list without it |
| SlotPool.LruPushLinked | src/storage/lazy_hydration.c:637-641 | pushing a slot makes it the front of the doubly linked list |
| SlotPool.HashCutChained | src/storage/lazy_hydration.c:519-527 | unlinking from a hash chain leaves the chain without the slot |
| PoolOps.CutsCommute | src/storage/lazy_hydration.c:508-543 | leaving the hash chain and leaving the recency list are independent |
| PoolOps.DiscardWf | src/storage/lazy_hydration.c:647-684 | taking a slot out of its chain and the recency list onto the free list keeps all three structures, and the contents lose that page only |
| PoolOps.MoveWf | src/storage/lazy_hydration.c:557-573 | moving a slot to the front keeps all structures and the order of the others |
| PoolOps.InsertWf | src/storage/lazy_hydration.c:623-643 | taking a free slot keeps all structures, and the contents gain the page in front |
| PoolOps.OverwriteWf | src/storage/lazy_hydration.c:604-611 | replacing bytes keeps all structures and all other entries |
| RamCache.HeldWhere | src/storage/lazy_hydration.c:552-577 | a page is cached if its bucket's chain has a slot for it, and then at that place in the order |
| RamCache.NotHeld | src/storage/lazy_hydration.c:552-577 | a page without a slot in its bucket's chain is in no slot of the recency list |
| RamCache.Capacity | src/storage/lazy_hydration.c:619-622 | the free list is empty exactly if every slot is in the recency list |
| RamCache.EmptyWf | src/storage/lazy_hydration.c:481-488 | a fresh pool is well-formed and empty, all slots on the free list |
| RamCache.Cache.Init | src/storage/lazy_hydration.c:459-494 | the cache is switched on once, empty, with one slot per page of budget and one more, and a power-of-two table |
| RamCache.Cache.BucketCount | src/storage/lazy_hydration.c:469-470 | the table size is a power of two and at least twice the slots unless doubling was capped |
| RamCache.Cache.Clear | src/storage/lazy_hydration.c:497-505 | the cache is empty and off |
| RamCache.Cache.EvictLru | src/storage/lazy_hydration.c:508-543 | the least recently used page goes, and nothing else; its slot is the next free one |
| RamCache.Cache.Lookup | src/storage/lazy_hydration.c:547-579 | a hit returns the page's bytes and makes it the most recent; a miss changes nothing |
| RamCache.Cache.Contains | src/storage/lazy_hydration.c:582-591 | true exactly if the page is held, with no change of order |
| RamCache.Cache.Remove | src/storage/lazy_hydration.c:647-684 | the page goes, if held, and the order of the others stays |
| RamCache.Cache.FitBudget | src/storage/lazy_hydration.c:612-615 | least recently used pages go until one more fits |
| RamCache.Cache.MakeRoom | src/storage/lazy_hydration.c:612-622 | and until a slot is free |
| RamCache.Cache.Refresh | src/storage/lazy_hydration.c:602-611 | a held page gets new bytes and becomes the most recent |
| RamCache.Cache.Admit | src/storage/lazy_hydration.c:612-643 | a page not held is put in front of what is kept |
| RamCache.Cache.Store | src/storage/lazy_hydration.c:597-644 | the cache becomes the abstract store of the page; with no budget, or for page 0, nothing happens |
| PageBitmap.WithAt | src/storage/lazy_hydration.c:740-747 | setting a page's bit sets that page and no other |
| PageBitmap.WithoutAt | src/storage/lazy_hydration.c:755-765 | clearing a page's bit clears that page and no other |
| PageBitmap.Bitmap.constructor | src/storage/lazy_hydration.c:3534-3540 | a new bitmap has no page set, and its count is 0 |
| PageBitmap.Bitmap.Set | src/storage/lazy_hydration.c:740-747 | the set pages gain the page if it is in range, and the count stays the number of set pages |
| PageBitmap.Bitmap.Get | src/storage/lazy_hydration.c:749-753 | true exactly if the page is set |
| PageBitmap.Bitmap.ClearRange | src/storage/lazy_hydration.c:755-765 | exactly the pages of the range are cleared, for any bounds, and the count stays exact |
| PageBitmap.Bitmap.MarkAll | src/storage/lazy_hydration.c:3661-3672 | all pages are set, none beyond, and the count is the number of pages |
| PageBitmap.RangeLoopEnds | src/storage/lazy_hydration.c:3636-3647 | the 32-bit loop over a range of pages ends if and only if the range stops before page 2^32 - 1 |
| PageBitmap.Bitmap.SetRange | src/storage/lazy_hydration.c:3636-3647 | counting in 32 bits, exactly the pages of the range that exist are added, page 0 excepted, and the count stays exact |
| Completeness.Smallest | src/storage/lazy_hydration.c:2401-2411 | the smallest claimed page above the bound, or none if there is none |
| Completeness.Advance | src/storage/lazy_hydration.c:2417-2423 | every cursor stands behind the page just emitted |
| Completeness.CountUnclaimed | src/storage/lazy_hydration.c:2375-2429 | the k-way merge returns the number of pages up to the limit that no task claims |
| Completeness.CompletenessSound | src/storage/lazy_hydration.c:3624-3634 | the test never misses a complete image, and is right while no base page was marked |
| Completeness.CompletenessExact | src/storage/lazy_hydration.c:3624-3634 | the test is right about every set of marked pages exactly if the base has no page or all pages |
| Completeness.CompleteWithoutBase | src/storage/lazy_hydration.c:3624-3634 | without a checkpoint base the test holds exactly if every page is set |
| Completeness.CompletenessMisjudges | src/storage/lazy_hydration.c:3624-3634 | two pages, one of the base: reading that one is enough for the test |
| PageReplay.ReplayedSegments | src/storage/lazy_hydration.c:2090-2201 | replaying the segments of a commit leaves at each page the frame of the last segment that has it |
| PageReplay.KnownFinds | src/storage/lazy_hydration.c:2311-2365 | leaving segments without a page set out of the tasks changes no lookup |
| PageReplay.LookupIsReplay | src/storage/lazy_hydration.c:1590-1622 | the newest-claimant lookup gives what oldest-first replay leaves, exactly for the pages whose first and last claimant in the newest claiming commit agree |
| PageReplay.DisjointIsUnambiguous | src/storage/lazy_hydration.c:1590-1622 | that holds for every page of a chain whose commits have disjoint page sets |
| PageReplay.ClaimedOnceExact | src/storage/lazy_hydration.c:1590-1622 | for given page sets, lookup and replay agree on the page for all bytes if and only if the newest claiming commit claims it in one segment |
| PageReplay.TwoClaimants | src/storage/lazy_hydration.c:1590-1622 | one commit with two segments for a page: lookup and replay give different bytes |
| ResolvePage.LowerBound | src/storage/lazy_hydration.c:1597-1606 | binary search: the first index whose page is not below the one sought |
| ResolvePage.ResolveIn | src/storage/lazy_hydration.c:1594-1611 | the first claiming segment of a commit, or how many tasks the commit has |
| ResolvePage.Resolve | src/storage/lazy_hydration.c:1590-1614 | the place of the newest claimant among the segments, or none |
| RangeCoalescing.StretchEnd | src/storage/lazy_hydration.c:2783-2790 | the longest stretch of consecutive pages of one segment |
| RangeCoalescing.Runs | src/storage/lazy_hydration.c:2765-2844 | all collected pages are packed, in order, into runs whose byte ranges are exactly the blocks they cover, and every block of a run was asked for |
| RangeCoalescing.FindOpen | src/storage/lazy_hydration.c:2862-2868 | the open run of a segment, if there is one |
| RangeCoalescing.Take | src/storage/lazy_hydration.c:2860-2920 | one turn of the merge keeps: runs within some closed or open run, one open run a segment, closed runs out of reach, and no gap wider than the window inside any of them |
| RangeCoalescing.Merge | src/storage/lazy_hydration.c:2846-2941 | every run lies in a merged run, merged runs cover whole blocks, two of one segment are disjoint and, for a window above 0, more than the window apart, and inside one every run but the first comes at most the window after another |
| RangeCoalescing.Coalesce | src/storage/lazy_hydration.c:2729-2941 | every requested page is served by exactly one final run, final runs of one segment are out of each other's reach, and each begins and ends with requested blocks and holds no stretch of others wider than the window |
| Hydrator.PlaceSound | src/storage/lazy_hydration.c:1944-1970 | putting the frame of a page's owner in place keeps every promise about every other page |
| Hydrator.LoseSound | src/storage/lazy_hydration.c:687-705 | a failed write loses an unset page only |
| Hydrator.BaseSound | src/storage/lazy_hydration.c:3230-3243 | marking a page that no segment claims is right if the checkpoint image has it |
| Hydrator.WriteSound | src/storage/lazy_hydration.c:3636-3647 | a session write to any page, read before or not, keeps every promise |
| Hydrator.TurnSound | src/storage/lazy_hydration.c:3296-3327 | when a segment's turn comes none of its pages is cached, and only those the session wrote are set |
| Hydrator.AppliedSound | src/storage/lazy_hydration.c:2148-2193 | after a segment was applied every page it owns is set |
| Hydrator.Readable | src/storage/lazy_hydration.c:1814-1836 | a set page is in the file and holds the session's bytes or those of the chain |
| Hydrator.RamCacheFits | src/storage/lazy_hydration.c:597-644 | whatever the page cache keeps or evicts is among what the hydrator allows for |
| Hydrator.WriteFate | src/storage/lazy_hydration.c:2148-2191 | after any number of turns, a page that the session wrote with other bytes than its owner's shows the session's bytes if and only if its owner had no turn in between |
| Hydrator.WriteThenTurn | src/storage/lazy_hydration.c:2148-2191 | a session write and then the turns up to the page's owner: the write is there if and only if the owner was not pending when it was made; the turns fail only for a fault or an earlier failure |
| Hydrator.BlindWriteIsLost | src/storage/lazy_hydration.c:2155-2182 | a run of a session write and an apply, which succeeds unless it meets a fault, after which the page shows the segment's bytes |
| Hydrator.DroppedIsNotFetched | src/storage/lazy_hydration.c:3256-3287 | a page of a segment fetched by ranges that no window covers: the read fails, and a direct fetch right after it succeeds unless it meets a fault |
| Hydrator.Hydrator.constructor | src/storage/lazy_hydration.c:3339-3599 | a new hydrator is sound: no page set, the file is the checkpoint image |
| Hydrator.Hydrator.ApplyFrame | src/storage/lazy_hydration.c:3081-3159 | a fetched frame is placed only if its page is unset and its segment is still the newest claimant; then the page is set; it fails only for a failed write |
| Hydrator.Hydrator.ApplySegment | src/storage/lazy_hydration.c:2090-2201 | on success the file has exactly the frames the segment owns added, all of them are set, and exactly the session's writes to them are gone; it fails only for a fault, which leaves the hydrator broken and otherwise sound |
| Hydrator.Hydrator.FindWindow | src/storage/lazy_hydration.c:1858-1876 | where a window's pages lie in the segment, one after another; found exactly if the segment has them all |
| Hydrator.Hydrator.ApplyWindow | src/storage/lazy_hydration.c:1845-1985 | on success every page of the window that the segment owns is set; it fails only for a fault or a window that is not in a segment fetched by ranges; it keeps every promise |
| Hydrator.Hydrator.NoteMiss | src/storage/lazy_hydration.c:1738-1803 | windows that are scheduled lie in the database, and one segment fetched by ranges owns all their pages |
| Hydrator.Hydrator.JobStep | src/storage/lazy_hydration.c:2227-2242 | the worker of a window in flight keeps every promise, so a window that is done has all its pages set; without a fault none is dropped |
| Hydrator.Hydrator.WorkerStep | src/storage/lazy_hydration.c:2204-2282 | whatever a worker does in one region keeps every promise, and without a fault no window is dropped and nothing fails |
| Hydrator.Hydrator.AwaitTask | src/storage/lazy_hydration.c:2562-2593 | on success the segment was fetched, and any number of worker steps in between kept every promise; it fails only for a fault or an earlier failure |
| Hydrator.Hydrator.MarkBase | src/storage/lazy_hydration.c:3230-3243 | a page of the checkpoint image is set |
| Hydrator.Hydrator.ResolveCached | src/storage/lazy_hydration.c:1814-1836 | a cache hit sets the page with its right bytes |
| Hydrator.Hydrator.SessionWrite | src/storage/lazy_hydration.c:3636-3647 | for any page, read before or not, the session's bytes are in the file and the page is set; the cache forgets it |
| Hydrator.Hydrator.Covered | src/storage/lazy_hydration.c:1689-1702 | true exactly if an active window of the segment has the page |
| Hydrator.Hydrator.Probe | src/storage/lazy_hydration.c:2734-2758 | a page is settled already, or it is unset and its owner is the segment to fetch it from |
| Hydrator.Hydrator.Collect | src/storage/lazy_hydration.c:2734-2758 | every page of the range is settled or asked for, in page order, and only unset pages are asked for |
| Hydrator.Hydrator.ApplyRun | src/storage/lazy_hydration.c:3081-3159 | on success every page of the run that its segment owns is set; it fails only for a fault |
| Hydrator.Hydrator.FetchPages | src/storage/lazy_hydration.c:2721-3171 | on success every page asked for is set, though only the coalesced runs are fetched; it fails only for a fault |
| Hydrator.Hydrator.HydrateInline | src/storage/lazy_hydration.c:2721-3171 | on success every page of the range is settled: set, in a window, or owned by a segment that is fetched whole; it fails only for a fault, and never where nothing has to be fetched |
| Hydrator.Hydrator.TakeTurn | src/storage/lazy_hydration.c:3296-3327 | the next segment in order is applied, unless there is a fault or was a failure |
| Hydrator.Hydrator.ApplyUpTo | src/storage/lazy_hydration.c:3296-3327 | on success all segments up to the ordinal were applied, in order; it fails only for a fault or an earlier failure |
| Hydrator.Hydrator.HydratePage | src/storage/lazy_hydration.c:3210-3328 | on success the page is set, whichever way it is served; a set page, or one in the checkpoint image that no segment has, succeeds whatever happens; a page that the inline pass left settled fails only for a fault, an earlier failure, or for being in no segment and beyond the checkpoint |
| Hydrator.Hydrator.HydrateBase | src/storage/lazy_hydration.c:3222-3252 | a page that no segment claims succeeds exactly if the checkpoint covers it |
| Hydrator.Hydrator.HydrateRanged | src/storage/lazy_hydration.c:3256-3287 | on success a page of a window is set, after the window or by a fetch of its own; without a fault a page whose window was not dropped succeeds; an unset page that no window covers fails |
| Hydrator.Hydrator.HydrateRange | src/storage/lazy_hydration.c:3173-3337 | on success every page of the clamped range is set and holds the session's bytes or those of its newest claimant (the base if unclaimed), and exactly the session's writes to pages whose owner had its turn are gone; unless the hydrator failed before or the database has 2^32 - 1 pages, the call without a fault succeeds exactly if every page was set, is claimed, or is covered by the checkpoint; with only set and covered unclaimed pages it always does |
| Hydrator.Hydrator.ReadsReplay | src/storage/lazy_hydration.c:1590-1622 | a reader of a set page sees what the session wrote, else what replaying the whole chain oldest first over the checkpoint gives, exactly if the page is unambiguous |
| KeySort.CompareOpposite | src/storage/lazy_hydration.c:1201-1203 | the order of keys is antisymmetric, and equal exactly for equal keys |
| KeySort.LeqTransitive | src/storage/lazy_hydration.c:1201-1203 | it is transitive |
| KeySort.MergeRuns | src/storage/lazy_hydration.c:1216-1229 | two sorted neighbouring runs become one sorted run of the same slots; the rest of the array is untouched |
| KeySort.RunPass | src/storage/lazy_hydration.c:1214-1231 | after a pass all blocks of twice the width are sorted, and the slots are the same |
| KeySort.Sort | src/storage/lazy_hydration.c:1209-1234 | the slots are sorted by key, and are the same slots |
| KeySort.Search | src/storage/lazy_hydration.c:1380-1394 | the first slot whose key is not below the one sought; it has the key exactly if some slot has |
| ListChain.FindSlot | src/storage/lazy_hydration.c:1378-1399 | the slot of a key is found exactly if the listing has the key |
| ListChain.Walk | src/storage/lazy_hydration.c:1359-1449 | if the walk accepts, what it visits is the whole chain of HEAD; it accepts exactly if that chain is rooted and listed |
| ListChain.Load | src/storage/lazy_hydration.c:1250-1475 | if the loader accepts, the result is the parent-linked, hash-checked chain from HEAD to genesis, newest first, with as many manifests as HEAD's generation; it accepts exactly if every listed object was fetched and the chain is rooted and listed |
| ListChain.LinkedLength | src/storage/lazy_hydration.c:1446-1448 | a chain linked down to genesis has as many manifests as its generation, so the final count test cannot fail |
| ListChain.ListedAnyOrder | src/storage/lazy_hydration.c:1359-1399 | the order of the listing and other objects in it do not matter |
| ListChain.PresentIsListed | src/storage/lazy_hydration.c:1250-1475 | a store with a sound HEAD and a present chain lists everything the loader needs |
| ListChain.WellLinkedIsLinked | src/storage/lazy_hydration.c:1400-1448 | a chain with consistent parent fields is linked in the sense of the loader's tests |
| ListChain.LoadStore | src/storage/lazy_hydration.c:1250-1475 | the loader accepts every store with a sound HEAD whose chain is stored, whatever else is listed and in any order, and returns that chain |
| TextScan.SkipField | src/storage/commit_manifest.c:10-58 | the search for a name passes over every field of another name, whatever that field's quote-free value is |
| TextScan.FindField | src/storage/commit_manifest.c:10-58 | the first occurrence of a quoted name is the field of that name, not text inside a value |
| NumberText.ParseList | src/storage/commit_manifest.c:128-197 | the loop, which gives up at the first entry too many, reads what the list grammar with a cap on the whole list reads |
| NumberText.NumberRoundTrip | src/storage/commit_manifest.c:10-30 | every printed 64-bit number is read back, and reading stops behind it |
| NumberText.MinusRead | src/storage/commit_manifest.c:10-30 | a number with a minus sign is read if and only if white space other than blanks is before the sign and digits of a value below 2^64 behind it; what is read is 2^64 minus the value |
| NumberText.MinusOne | src/storage/commit_manifest.c:10-30 | a line feed and -1 are read as 2^64 - 1 |
| NumberText.ListRoundTrip | src/storage/commit_manifest.c:128-197 | a printed list of 64-bit numbers is read back, and reading stops behind its bracket, exactly if it has at most 1,000,000 entries |
| NumberText.ReadList | src/storage/commit_manifest.c:128-197 | no text yields a list of more than 1,000,000 entries, and reading always advances |
| NumberText.ValuesRead | src/storage/commit_manifest.c:128-197 | no text yields an entry of 2^64 or more |
| ManifestText.ParseSegments | src/storage/commit_manifest.c:260-369 | the loop over the segments array reads what the grammar with its cap of 128 reads, also where a comma follows the 128th |
| ManifestText.SegmentBack | src/storage/commit_manifest.c:268-348 | a printed segment is read back with pages and offsets, and reading stops behind its brace |
| ManifestText.SegmentsBack | src/storage/commit_manifest.c:260-369 | a printed array of valid segments is read back exactly if it has at most 128 of them |
| ManifestText.SegmentRead | src/storage/commit_manifest.c:225-369 | the reader accepts only segments that the writer accepts: pages sorted, within the database, offsets paired, increasing and inside the object |
| ManifestText.AcceptedSegments | src/storage/commit_manifest.c:260-369 | whatever the text, an accepted array has 1 to 128 segments and each is one the writer accepts |
| ManifestText.SkipSegments | src/storage/commit_manifest.c:34-58 | no name of the document is found inside the segments array |
| ManifestCodec.RoundTrip | src/storage/commit_manifest.c:709-834 | a valid manifest is read back from its text, whatever further fields follow it |
| ManifestCodec.RoundTripExact | src/storage/commit_manifest.c:488-834 | a manifest the writer accepts is read back exactly if its strings hold no quote and fit their fields, its lists have at most 1,000,000 entries and its checksum is absent or 16 hex digits |
| ManifestCodec.DecodedIsValid | src/storage/commit_manifest.c:709-834 | whatever the text, what the reader accepts the writer accepts too |
| ManifestCodec.ReadIsStable | src/storage/commit_manifest.c:488-834 | reading, writing and reading again gives the same manifest, for every text that is accepted |
| ManifestCodec.DocumentInjective | src/storage/commit_manifest.c:488-707 | different manifests have different texts |
| ManifestCodec.QuoteIsLost | src/storage/commit_manifest.c:488-707 | a valid manifest with a quote in it is not read back |
| ManifestWriter.ArraySize | src/storage/commit_manifest.c:372-394 | the predicted size of an array is the length of its text |
| ManifestWriter.WriteArray | src/storage/commit_manifest.c:398-429 | the array is written if it fits the space and refused if not, with no other outcome |
| ManifestWriter.SegmentSize | src/storage/commit_manifest.c:435-456 | the predicted size of a segment is the length of its text, refused exactly beyond INT_MAX |
| ManifestWriter.WriteSegment | src/storage/commit_manifest.c:458-486 | the segment is written if it fits the space and refused if not |
| ManifestWriter.Measure | src/storage/commit_manifest.c:531-542 | the first pass counts exactly what the second will write |
| ManifestWriter.WriteSegments | src/storage/commit_manifest.c:612-636 | in a buffer of the measured size the second pass never runs out of space |
| ManifestWriter.Encode | src/storage/commit_manifest.c:488-707 | a manifest is written exactly if it is valid and its text is at most INT_MAX long, and the text is the document |
| SegmentEnc.HexBack | src/crypto/cipher.c:379-388 | bytes printed in hex are read back |
| SegmentEnc.EntryBack | src/crypto/cipher.c:390-440 | a printed entry, sealed or plain, is read back |
| SegmentEnc.ParseEntries | src/crypto/cipher.c:459-475 | the loop reads what the grammar with its cap of 128 reads |
| SegmentEnc.AcceptedEntries | src/crypto/cipher.c:442-485 | only arrays of 1 to 128 entries with a 12-byte IV and a 16-byte tag are accepted |
| SegmentEnc.EntriesBack | src/crypto/cipher.c:459-481 | a printed array of entries is read back if there are at most 128, and refused if there are more |
| SegmentEnc.Inject | src/storage/commit_publish.c:354-403 | the loops produce the text with the array before its last brace, and refuse a text that does not end in one or grows beyond INT_MAX |
| SegmentEnc.InjectedDocument | src/storage/commit_publish.c:354-403 | splicing into a written manifest adds the array as its last field |
| SegmentEnc.InjectedDecodes | src/storage/commit_publish.c:632-648 | the spliced text still decodes to the same manifest, for any entries |
| SegmentEnc.InjectedParses | src/crypto/cipher.c:442-485 | from the spliced text exactly the injected entries are read, in order, if there are 1 to 128, and it is refused otherwise |
| SegmentEnc.PlainIsAbsent | src/crypto/cipher.c:451-456 | a manifest without the array reads as one of plain segments |
| Lease.StepFences | src/ha/lease.c:213-481 | every step of every handle, releases included, keeps the fencing invariant, and the history of writes only grows |
| Lease.RunFences | src/ha/lease.c:213-481 | so does every run |
| Lease.StepKeeps | src/ha/lease.c:213-437 | every step other than a release keeps the invariant about generations |
| Lease.RunKeeps | src/ha/lease.c:213-437 | so does every run without a release |
| Lease.GenerationNamesOwner | src/ha/lease.c:249-373 | over every run without a release the stored generation starts at 1, never falls, rises by exactly one at a change of owner and only then, so equal generations mean the same owner |
| Lease.ClaimExact | src/ha/lease.c:332-373 | a claim on the lease of another owner writes if and only if the store says when it was written and the claimer's clock is past that by the time to live (30 seconds if none is given) less five |
| Lease.TakeoverIsLate | src/ha/lease.c:332-373 | in every run a write that replaces another owner's record comes from a claim that read that record, of the generation before, and found it past its time; with ETags fresh per write it read the very write it replaces |
| Lease.LiveIsRespected | src/ha/lease.c:332-347 | in every run without a release in which no claim finds the lease past its time the owner never changes |
| Lease.ExpiredIsTaken | src/ha/lease.c:349-373 | from every reachable state a lease past its time can be taken over, with the next generation |
| Lease.OvertakenIsRefused | src/ha/lease.c:385-437 | with ETags fresh per write, a renewal by an overtaken handle is refused |
| Lease.OvertakenNeverRenews | src/ha/lease.c:385-437 | with ETags fresh per write, an overtaken handle never writes the lease again, in any continuation, releases included |
| Lease.OneCanRenew | src/ha/lease.c:385-437 | with ETags fresh per write, in every reachable state at most one handle can still renew |
| Lease.CurrentCanRenew | src/ha/lease.c:385-437 | with ETags of either kind, a handle whose ETag the store accepts can renew |
| Lease.RenewsOn | src/ha/lease.c:410-428 | a renewal that is accepted moves the handle to the write it made, so that it can renew again, and so on |
| Lease.LostForever | src/ha/lease.c:390-403 | a handle that was told it lost the lease sends no renewal again, in any continuation |
| Lease.RefusedIsLost | src/ha/lease.c:430-435 | a renewal that is refused, as every one of an overtaken handle is with ETags fresh per write, tells the handle so |
| Lease.RenewalRepeats | src/ha/lease.c:385-437 | with ETags of either kind, a renewal that takes effect leaves the owner and the generation as they are |
| Lease.PassedNeverRenews | src/ha/lease.c:385-437 | with ETags of either kind, a handle never writes the lease again once it went to another owner, in any continuation without a release |
| Lease.RenewerOwns | src/ha/lease.c:385-437 | with ETags of either kind and no release, whoever can still renew has the owner and the generation of the stored record |
| Lease.TwoCanRenew | src/ha/lease.c:107-129 | with ETags made from the content, from every state in which a handle can renew a second one of its owner can come to renew as well |
| Lease.ReleasedRenewsAgain | src/ha/lease.c:464-481 | with such ETags and releases, a handle whose lease went to another owner can still renew |
| Lease.ReleaseRestarts | src/ha/lease.c:464-481 | after a release another owner can hold generation 1 again |
| LocalCache.CacheDir.constructor | src/storage/local_cache.cpp:40-65 | an empty cache directory is valid |
| LocalCache.CacheDir.SaveImage | src/storage/local_cache.cpp:679-736 | a save that returns ok has image and metadata in place; one that stops after any step leaves the pair as it was, or the new image with the old metadata; without a fault it returns ok exactly if the head has a commit |
| LocalCache.CacheDir.PowerLoss | src/storage/local_cache.cpp:323-351 | after a power loss, with any renames lost, all metadata is still that of some save |
| LocalCache.CacheDir.Evict | src/storage/local_cache.cpp:590-614 | deleting the files one by one, each deletion working or not, stopped anywhere, keeps the cache valid; once the image is gone nothing is served for any head |
| LocalCache.CacheDir.SaveBesideOthers | src/storage/local_cache.cpp:679-736 | with other saves of the database between any two steps, on the same temporary names, all metadata is still that of one save |
| LocalCache.CacheDir.CopyVerified | src/storage/local_cache.cpp:258-318 | a copy is delivered exactly if it has the attested size and hash, and then it is the source file |
| LocalCache.CacheDir.Probe | src/storage/local_cache.cpp:618-658 | over any history of saves, stops, power losses and corruption: what a probe delivers for a head is what one save for that very head attested, and that save's source exactly if the save attested its source |
| LocalCache.ProbeBesideOthers | src/storage/local_cache.cpp:618-658 | with other saves meanwhile: what a probe delivers for a head is what one save for that very head attested |
| LocalCache.SaveThenProbe | src/storage/local_cache.cpp:618-736 | a finished save is served back for its head, exactly if the commit hash has 64 characters and the image is not empty |
| LocalCache.ForeignAttestation | src/storage/local_cache.cpp:618-736 | a save that attests the size and hash of other bytes: once the file holds those, they are delivered for its head |
| Sha256Stream.Hasher.constructor | src/crypto/sha256_pure.c:42-53 | a fresh hasher has seen the empty message |
| Sha256Stream.Hasher.Update | src/crypto/sha256_pure.c:79-95 | the message seen grows by the data, for any lengths; the buffer is never left full |
| Sha256Stream.Hasher.Pad | src/crypto/sha256_pure.c:103-118 | the buffer then ends with the padding: mark, zeros through one more block if needed, and the 64-bit length |
| Sha256Stream.Hasher.Final | src/crypto/sha256_pure.c:97-122 | for any split into updates and any compression function the result is the fold over the whole padded message, section 5.1.1 of FIPS 180-4 |
| Sha256Stream.PaddedInBuffer | src/crypto/sha256_pure.c:103-118 | the padding done in the buffer is the one of the definition |
| Sha256Stream.BigEndianInjective | src/crypto/sha256_pure.c:113-117 | the length bytes determine the length |
| Sha256Stream.DigestCollides | src/crypto/sha256_pure.c:97-132 | for any compression function: two messages below 2^61 bytes with one hash value yield two different inputs on which the compression function collides |
| Sha256.Schedule | src/crypto/sha256_pure.c:56-62 | the loops fill the 64 words of the message schedule of section 6.2.2 of FIPS 180-4 |
| Sha256.Turn | src/crypto/sha256_pure.c:66-73 | the shifting assignments are one round of that section |
| Sha256.CompressBlock | src/crypto/sha256_pure.c:55-77 | the loops compute the compression function of that section, 64 rounds and the final addition modulo 2^32 |
| Sha256.RoundUndone | src/crypto/sha256_pure.c:66-73 | every round can be undone |
| Sha256.RoundsInjective | src/crypto/sha256_pure.c:65-74 | with the block fixed, any number of rounds is one-to-one on the eight variables |
| Sha256.StoreWords | src/crypto/sha256_pure.c:35-40 | the eight words as 32 bytes, most significant first |
| Sha256.LoadStores | src/crypto/sha256_pure.c:30-40 | loading four bytes as a word and storing the word gives the four bytes |
| Sha256.HashPieces | src/crypto/sha256_pure.c:42-132 | however a message is cut into pieces, the 32 bytes that come out are the hash of the whole |
| Sha256.HashCollides | src/crypto/sha256_pure.c:124-132 | two messages below 2^61 bytes with the same 32 bytes yield a collision of the compression function |
| Sha256Bits.ChooseBit | src/crypto/sha256_pure.c:67 | every bit of Ch is the bit of the second word where the first has a one, else that of the third |
| Sha256Bits.MajorityBit | src/crypto/sha256_pure.c:70 | every bit of Maj is the one that at least two of the three words have |
| Sha256Bits.BigSigma0Bit | src/crypto/sha256_pure.c:69 | bit i is the parity of the bits 2, 13 and 22 above it, around the word |
| Sha256Bits.BigSigma1Bit | src/crypto/sha256_pure.c:66 | bit i is the parity of the bits 6, 11 and 25 above it, around the word |
| Sha256Bits.SmallSigma0Bit | src/crypto/sha256_pure.c:59 | bit i is the parity of the bits 7 and 18 above it, around the word, and of bit 3 above it, if there is one |
| Sha256Bits.SmallSigma1Bit | src/crypto/sha256_pure.c:60 | bit i is the parity of the bits 17 and 19 above it, around the word, and of bit 10 above it, if there is one |
| Sha256Constants.PrimesInOrder | src/crypto/sha256_pure.c:10-24 | the listed numbers are the first 64 primes, none left out |
| Sha256Constants.RoundConstants | src/crypto/sha256_pure.c:10-24 | the constant of round t is the first 32 bits of the fractional part of the cube root of the t-th prime, section 4.2.2 of FIPS 180-4 |
| Sha256Constants.InitialWords | src/crypto/sha256_pure.c:42-53 | the initial words are those of the square roots of the first eight primes, section 5.3.3 |
| GaloisField.TimesLinear | src/crypto/aes_gcm_pure.c:116-137 | the product is linear over XOR in both operands |
| GaloisField.TimesOne | src/crypto/aes_gcm_pure.c:116-137 | the block with the leftmost bit alone is the unit |
| GaloisField.TimesCommutes | src/crypto/aes_gcm_pure.c:116-137 | the product does not depend on which operand is shifted |
| GaloisField.TimesAssociates | src/crypto/aes_gcm_pure.c:116-137 | the product is associative |
| GaloisField.Multiply | src/crypto/aes_gcm_pure.c:116-137 | the shift-and-xor loop computes the product of section 6.3 of NIST SP 800-38D |
| FieldPolynomials.TimesIsRemainder | src/crypto/aes_gcm_pure.c:116-137 | as polynomials over the two-element field, the product of two blocks and their polynomial product differ by a multiple of 1 + x + x^2 + x^7 + x^128 |
| FieldPolynomials.OneRemainder | src/crypto/aes_gcm_pure.c:116-137 | and it is the only block that does |
| Gcm.Absorb | src/crypto/aes_gcm_pure.c:139-184 | the loop over 16-byte groups, the last one padded, folds the hash over the padded data |
| Gcm.GhashLinear | src/crypto/aes_gcm_pure.c:139-184 | the hash is linear over inputs of one length |
| Gcm.HashData | src/crypto/aes_gcm_pure.c:139-184 | hash of additional data, ciphertext and both lengths, section 6.4 of NIST SP 800-38D |
| Gcm.CounterMode | src/crypto/aes_gcm_pure.c:186-245 | the loop applies the key stream of the 32-bit wrapping counter, section 6.5 |
| Gcm.GctrTwice | src/crypto/aes_gcm_pure.c:186-245 | counter mode undoes itself, for every length |
| Gcm.Encrypt | src/crypto/aes_gcm_pure.c:198-245 | ciphertext and tag of section 7.1 |
| Gcm.TagsDiffer | src/crypto/aes_gcm_pure.c:198-245 | under one initialisation vector the difference of two tags is the hash of the difference of what was hashed |
| Gcm.SameTag | src/crypto/aes_gcm_pure.c:272-275 | the constant-time comparison is equality |
| Gcm.Decrypt | src/crypto/aes_gcm_pure.c:247-305 | the plaintext exactly if the tag is the right one, section 7.2 |
| Gcm.EncryptStream | src/crypto/cipher.c:110-176 | the first phase gives the ciphertext without knowing the additional data |
| Gcm.EncryptWithAad | src/crypto/cipher.c:178-272 | the second phase gives the envelope of IV, ciphertext and tag |
| Gcm.Open | src/crypto/cipher.c:274-365 | an envelope opens to the plaintext of its ciphertext or is refused |
| Gcm.SealedOpens | src/crypto/cipher.h:28-37 | what was sealed opens again under the same key and additional data, for every length, and its ciphertext is the first phase's stream |
| Gcm.OpenedIsSealed | src/crypto/cipher.c:274-365 | whatever opens is the envelope of what comes out, so nothing opens that was not sealed under this key and additional data |
| Gcm.OneTagOpens | src/crypto/aes_gcm_pure.c:247-305 | of all tags exactly one opens a given ciphertext |
| GcmLayout.GroupsAt | src/crypto/aes_gcm_pure.c:146-172 | every bit of the data has its place in the groups that are hashed, and the rest of the last group is zero |
| GcmLayout.HashInputLayout | src/crypto/aes_gcm_pure.c:139-184 | what is hashed: the groups of the additional data, those of the ciphertext, and a block with both lengths in bits as 64-bit numbers |
| GcmLayout.GctrAt | src/crypto/aes_gcm_pure.c:186-233 | every byte of counter mode is the data xor, bit by bit, the encryption of a block that holds the initialisation vector and the number 2 plus the index of the group, modulo 2^32 |
| GcmLayout.TagLayout | src/crypto/aes_gcm_pure.c:209-240 | the hash key is the encryption of sixteen zero bytes and the mask of the tag that of the block with number 1 |

## Left out

- ResolveTheorems.SupersededIsForever: asks that no intact checkpoint is more than two above the parent, because beyond that the verdict itself can be wrong (`ResolveTheorems.SweptMisjudges`); that the HEAD write never lands needs no such guard (`ResolveTheorems.SupersededNeverLands`). Its clause about the id takes each commit id to be used for one generation only, as docs/S3_STORAGE.md:206 asks.
- PublishProtocol: a sweep runs only where no commit id is used for two generations (docs/S3_STORAGE.md:206), because a manifest's key holds nothing but the id. A checkpoint holds the generation and id it covers and is stored under its digest; its page groups are not modelled, nor is the retention window.
- Lease.OvertakenNeverRenews: for stores whose ETags are fresh per write, because with ETags made from the content it fails for handles of one owner (`Lease.TwoCanRenew`); `Lease.PassedNeverRenews` is for both kinds.
- Lease.OneCanRenew: for stores whose ETags are fresh per write, for the same reason; `Lease.RenewerOwns` is for both kinds.
- PageBitmap.Bitmap.SetRange: asks that the range stops before page 2^32 - 1, because the loop does not end there (`PageBitmap.RangeLoopEnds`).
- Hydrator: its bitmap is a set and its cache a list of values, whose arrays are in `PageBitmap` and `RamCache`; segments without a page set, truncation (`otsardb_lazy_clear_beyond`), mark-all and rebuilding are not among its methods; which windows are read ahead and which pages the cache evicts is any choice; the cache's own order is in `RamCache`.
- Hydrator.Hydrator.SessionWrite: SQLite's write to the file and the marking of the page are one step, and one page at a time; the range loop is `PageBitmap.Bitmap.SetRange`.
- Hydrator.Hydrator.Wait: while a reader waits only workers take steps, because all reads and writes of a hydrator come from the one SQLite thread (src/storage/lazy_hydration.c:186-190); the rebuild after a lease takeover is left out.
- ManifestCodec.Decode: format version 4 (in the low 32 bits of the field) only; versions 1 to 3 are not modelled. Texts are taken to hold no NUL character.
- ManifestCodec: the manifest of this module and the one of `CommitChain` are two views of the same record; the publish machine works on values, not on text.
- CommitChain: HEAD's JSON text, keys as paths, and the read-back of an existing object byte by byte are values.
- PublishProtocol: the unconditional single-writer path, stores without conditional create, encryption of segments while publishing, and store errors other than a lost or late request.
- ResolveCommit: read errors other than a missing, undecodable or mismatching object.
- ListChain.Load: takes a HEAD generation above 0, which its one caller has checked (src/storage/lazy_hydration.c:3396).
- ListChain: the loader's other variant, which salts and fetches in parallel (`lazy_try_parallel_chain`); fetching is one result per listed object.
- Lease: the lease's JSON text, addresses (all handles of an owner are taken to have one address), and the lock. The clocks of the store and of the claimers are any numbers, read at any time.
- Lease.TakeoverIsLate: with ETags made from the content, the claim may have read an earlier write of the same record, because such a store takes both for one; the age it found is then that of the earlier write.
- LocalCache: the metadata and index text, and the choice of victims in `evict_over_budget`; a save of another database may remove files at any time.
- Sha256: `Sha256Stream.Hasher` is given the compression as a function, and `Sha256.CompressBlock` says that the loops compute that function; the hash is not connected to the collision-free constructor of the other modules beyond `Sha256.HashCollides`.
- Gcm: the AES block function is any function; key expansion and wiping.
- Threads and mutexes: each protected region is one step.
- Allocation failures, statistics, timing, the command line, forwarding, the S3 client, segment encoding, WAL decoding, recovery and checkpoint building.
