# Permission and state cores of an NFS server, modelled in Dafny

The server (an NFS-Ganesha tree) decides who may touch a file and keeps the state
that makes NFSv4 exact: the duplicate request cache, share reservations, client
ids and leases, the grace period, owner sequence ids and back-channel slots. This
project models those parts and proves what they promise, for every input, every
reachable state or every run.

Where the source changes state in place the model has a class with the same fields
or an array filled through a cursor; each method is tied by its postcondition to a
step function on values, and the invariants, run theorems and meaning theorems are
proved about those functions. Locks appear as the granularity of the steps: code
run under one lock is one step, and whatever may happen between two steps may
happen in a run. Where a single call gives up its lock in the middle, a method
named `Interfere`, `InterfereAll` or `Gap` stands for the other threads: its caller
learns only the postcondition, so anything allowed by it may have happened.

## Files

| file | content |
|---|---|
| AclTypes, AccessCheck | ACEs, callers, first-match meaning; the one-pass ACE scan and the mode check |
| RemoveAccess | choice between ACL and mode, the check in front of an unlink |
| ModeAcl | mode to ACEs, chmod over an existing ACL |
| PosixAcl, PosixMeaning | POSIX ACL to ACEs, and what that does to access |
| PosixBack, PosixRoundTrip | ACEs to POSIX ACL, and the round trip |
| Dupreq, DupreqCache, DupreqRuns | one duplicate request cache: steps, object, runs |
| DupreqSplit | the same runs with every finish taken apart at its lock drops |
| DrcRecycle, DrcTable | life of the caches: references, recycle queue, expiry |
| DrcJoin | caches and their contents in one run |
| Share, Reopen | share reservations; the shared descriptor under its lock |
| ClientIds, ClientIdRuns, ClientIdStore | client id tables, records, both reference counts |
| Lease, Reaper | lease validity over runs; the reaper's walk |
| Grace | starting and lifting the grace period |
| OwnerSeqid | open and lock owner sequence ids |
| CbSlots, CbChannel | back-channel slots; sending one callback |

## What the code does not do

Some properties one would expect are false of the code. Each is stated with the
exact condition under which it holds, and the failing case is proved to fail.

- An access request that insists on an explicit ALLOW keeps its request flag among
  the missing bits, so an ordinary caller is never granted one, and an ALLOW of
  DELETE or DELETE_CHILD has no effect on removal (`RequiredNeverGranted`,
  `CheckRemove`, `AllowDeleteNotHonoured`).
- chmod moves its output cursor also for the mode-generated entries it skips: it stays
  inside its buffer exactly when the source has none of them or nothing else
  (`StaysInsideIff`), and what a first chmod leaves behind is such a mixture
  (`SecondChmod`). Ids 1, 2 and 3 of named entries are taken for OWNER@, GROUP@ and
  EVERYONE@: the named entries keep their say exactly when there is no such id
  (`NamedOnlyIff`, `NamedDecideFirst`, `NamedGrantSurvivesIff`).
- POSIX to NFSv4 widens a permission exactly when everybody has it and the mask takes
  it from some group-class entry (`NeverWidensIff`); it narrows one for callers in
  several groups (`ScanVersusPosix`), and grants several at once that no single group
  entry holds (`ManyVersusPosix`).
- The POSIX round trip is the identity exactly when the mask is the computed one and
  no named id is 3 (`RoundTripIff`).
- A duplicate hit keeps its call-path reference on the cache: a cache nobody uses any
  more is recycled exactly when it has had no hit (`RecycledIff`, `LeakedIsHits`,
  `LeakedForever`).
- A finish retires by position alone. An entry still being processed is retired exactly
  when it stands among the first `n` in the queue, `n` being what the size exceeds the
  mark in force, six at most (`UnfinishedRetiredIff`, with the smallest configuration in
  `UnfinishedRetired`); a duplicate of it is then executed again, and its delete gives up
  a reference that is not its own (`DeleteKeepsInvIff`).
- A finish that finds another head after relocking gives up. The size therefore exceeds
  its bound also by the finishes that have done so, and can stay above it with nothing
  left to finish (`RunWithin`, `GivenUpCounts`).
- A failing close of the shared descriptor that still forgets the descriptor leaves
  the open-descriptor count one too high (`ReopenObj`).
- CREATE_SESSION renews a lease without checking it, so an invalid lease is not
  permanent (`PermanentIff`), and the reaper may expire the renewed one
  (`GapWithSession`).
- A lift of the grace period decided because all reclaims are complete cancels a restart
  made after the decision exactly when that restart falls into the second the period it
  read began in; a decision made in a later second never does (`ReclaimCancelsIff`,
  `LateDecisionSafe`, `SameSecondRestart`).
- A request of an owner is executed again on retransmission exactly when it saved a null
  object, or saved nothing after passing the check, or is one that skips the check when
  it arrives again: an OPEN with sequence id zero, or a LOCK introducing a lock owner
  that holds no lock then (`ReplayExecutedIff`, `OpenZeroRepeats`, `LockRepeatsIff`).
  Sequence ids are consecutive within the stretches cut at null saves and at requests
  that skip the check (`StretchConsecutive`).

## Model

| member | source | states |
|---|---|---|
| AclTypes.UnionGrant | src/FSAL/access_check.c:520-676 | a request for a union of permissions is granted exactly when each part is |
| AccessCheck.CheckAceGroup | src/FSAL/access_check.c:29-42 | the search answers whether the group is the primary or one of the supplementary groups |
| AccessCheck.ScanAces | src/FSAL/access_check.c:546-677 | one pass over the ACEs: success, status, allowed and denied masks all equal what per-bit first match gives; the status is that of the first refusing entry unless told to continue |
| AccessCheck.CheckAccessAcl | src/FSAL/access_check.c:434-677 | granted exactly when every needed bit has an ALLOW as its first deciding ACE; with CONTINUE the allowed mask is the implied bits plus the first-match-allowed ones; superuser and owner rules; no ACL answers NO_ACE |
| AccessCheck.CheckAccessNoAcl | src/FSAL/access_check.c:691-808 | the mode check grants exactly the permissions of the caller's class, with the superuser's execute rule, and splits the request between the two masks bit by bit |
| RemoveAccess.TestAccess | src/FSAL/access_check.c:818-859 | ACL or mode decides, and a request for an explicit ALLOW on an object without ACL is NO_ACE |
| RemoveAccess.RequiredNeverGranted | src/FSAL/access_check.c:465-677 | for an ordinary caller a request with the explicit-ALLOW flag is never granted |
| RemoveAccess.RequiredStatus | src/FSAL/access_check.c:546-677 | such a request answers NO_ACE unless the permission is refused |
| RemoveAccess.CheckRemove | src/FSAL/commonlib.c:1812-1884 | removal by an ordinary caller succeeds exactly when execute and add are given on the parent and neither DELETE nor DELETE_CHILD is refused; the superuser always may |
| RemoveAccess.AllowDeleteNotHonoured | src/FSAL/commonlib.c:1833-1884 | an object with an explicit ALLOW of DELETE and an executable parent, and the removal condition fails |
| ModeAcl.ModeSetAce | src/FSAL/commonlib.c:1919-1941 | the ALLOW entry gets the bits of the mode class and the DENY entry their complement |
| ModeAcl.GenPair | src/FSAL/commonlib.c:1948-1981 | one pair of entries with its flags and special who, everything around it untouched |
| ModeAcl.ModeGenSet | src/FSAL/commonlib.c:1943-1982 | the six entries for owner, group and everyone, in place |
| ModeAcl.ModeAcesMatch | src/FSAL/commonlib.c:1943-1982 | what first match over the six entries gives for every caller and bit |
| ModeAcl.ModeAclMeaning | src/FSAL/commonlib.c:1943-1982 | for every mode, owner, group, caller and request the ACE scan over the generated entries grants exactly when the mode check does |
| ModeAcl.CountPass | src/FSAL/commonlib.c:2025-2042 | for every source, the count of the entries to be copied |
| ModeAcl.CopyAce | src/FSAL/commonlib.c:2078-2105 | one source entry is written as its rewriting and the cursor moves by its length |
| ModeAcl.FillPass | src/FSAL/commonlib.c:2070-2106 | for every source, the rewritten entries with a gap for each skipped one, the cursor behind them, and whether every copy lies in the buffer |
| ModeAcl.ModeToAcl | src/FSAL/commonlib.c:2014-2120 | for every source: the rewritten list followed by the generated entries when the source has no mode-generated entry or nothing else, a write past the buffer otherwise, and never the server fault |
| ModeAcl.StaysInsideIff | src/FSAL/commonlib.c:2025-2114 | the fill and the generated entries stay inside the buffer exactly when the source has no mode-generated entry or nothing else |
| ModeAcl.SecondChmod | src/FSAL/commonlib.c:2070-2114 | what chmod makes of a source of its own is such a mixture, so the next chmod leaves its buffer |
| ModeAcl.ChmodMeaning | src/FSAL/commonlib.c:2070-2114 | chmod decides every other permission as before; read, write, append and execute by the named entries first and the new mode after them |
| ModeAcl.ChmodSetsMode | src/FSAL/commonlib.c:2070-2114 | over an ACL of special entries the new mode alone decides read, write and execute |
| ModeAcl.NamedOnlyIff | src/FSAL/commonlib.c:2094-2102 | the entries chmod treats as named are those without a special flag exactly when no id is 1, 2 or 3 |
| ModeAcl.NamedDecideFirst | src/FSAL/commonlib.c:2070-2114 | then the named entries decide read, write, append and execute before the new mode, for every source and mode |
| ModeAcl.NamedGrantSurvivesIff | src/FSAL/commonlib.c:2094-2102 | the witness: one named user whose grant survives exactly when the uid is not such a number |
| PosixAcl.FindEntry | src/FSAL/posix_acls.c:117-149 | the first entry with the tag and, for named ones, the id |
| PosixAcl.DenyPerm | src/FSAL/posix_acls.c:364-439 | the DENY bits of an entry are what it lacks and a later consulted entry has |
| PosixAcl.AllowPermOf | src/FSAL/posix_acls.c:324-362 | the ALLOW bits of an entry, cut by the mask in the group class |
| PosixAcl.StorePair | src/FSAL/posix_acls.c:442-453 | an empty DENY is dropped and its slot cleared |
| PosixAcl.ConvertEntry | src/FSAL/posix_acls.c:270-453 | one POSIX entry becomes its one or two ACEs at the cursor |
| PosixAcl.ConvertAll | src/FSAL/posix_acls.c:253-456 | all entries in order, mask skipped, never past the buffer, the rest left zeroed |
| PosixAcl.PosixToFsal | src/FSAL/posix_acls.c:194-460 | the buffer gets exactly the ACEs of the POSIX ACL and the cursor is returned ready for a second conversion |
| PosixMeaning.ScanExact | src/FSAL/posix_acls.c:253-456 | closed form of what the ACE scan grants on the compiled list, for every ordinary caller and any number of named entries |
| PosixMeaning.ScanVersusPosix | src/FSAL/posix_acls.c:253-456 | the compiled list grants more, or less, than the POSIX algorithm exactly in two stated situations |
| PosixMeaning.NeverWidensIff | src/FSAL/posix_acls.c:333-439 | no caller gains a permission exactly when the mask takes nothing from the group class that the other entry gives |
| PosixMeaning.WidenedWitness | src/FSAL/posix_acls.c:333-439 | the caller who gains one otherwise |
| PosixMeaning.ScanExactMany | src/FSAL/posix_acls.c:253-456 | a request for several permissions is granted when each is |
| PosixMeaning.OneGroupAgrees | src/FSAL/posix_acls.c:253-456 | callers matching at most one group entry and losing nothing to the mask get the same answer from both algorithms, whatever they ask |
| PosixMeaning.ManyVersusPosix | src/FSAL/posix_acls.c:253-456 | requests for several permissions by members of several groups: exactly when the compiled list grants more, and exactly when less, than the POSIX algorithm |
| PosixBack.CountInherited | src/FSAL/posix_acls.c:487-499 | zero exactly when no ACE concerns the default ACL |
| PosixBack.FirstPass | src/FSAL/posix_acls.c:535-560 | what EVERYONE@ is allowed and denied, in list order |
| PosixBack.FsalToPosix | src/FSAL/posix_acls.c:470-694 | no default ACL without inherited ACEs; otherwise the map from tag and id to permissions the two passes define, with a computed mask when an entry is named |
| PosixRoundTrip.RoundTripExact | src/FSAL/posix_acls.c:470-694 | what comes back of every POSIX ACL, entry by entry |
| PosixRoundTrip.RoundTripIff | src/FSAL/posix_acls.c:470-694 | POSIX to ACEs to POSIX is the identity exactly when the mask is present with named entries, equals the union of the group class, and no named id is 3 |
| PosixRoundTrip.CollisionBreaks | src/FSAL/posix_acls.c:607-636 | an entry with id 3 is lost |
| PosixRoundTrip.BothComeBack | src/FSAL/posix_acls.c:470-694 | access and default ACL share one list and each is read back as if the other were not there |
| Dupreq.StartKeepsInv | src/RPCAL/nfs_dupreq.c:1035-1107 | a start keeps index and queue equal, reference counts exact, insertion order, entry phases and the size bound |
| Dupreq.RetireSomeDrops | src/RPCAL/nfs_dupreq.c:1168-1226 | retirement drops a prefix of the queue, exactly as many entries as exceed the mark in force, six at most: the hard bound with the window open, the lower of the two marks with it closed |
| Dupreq.FinishKeepsInv | src/RPCAL/nfs_dupreq.c:1136-1234 | a finish keeps the invariant and the size bound |
| Dupreq.DeleteKeepsInv | src/RPCAL/nfs_dupreq.c:1252-1296 | so does a delete of a queued entry |
| Dupreq.DeleteKeepsInvIff | src/RPCAL/nfs_dupreq.c:1252-1296 | a delete keeps the invariant exactly when its entry is still queued; otherwise the counts are off whatever unlinking does to queue and index, and the entry is freed under its request exactly when no other holds it |
| Dupreq.ReleKeepsInv | src/RPCAL/nfs_dupreq.c:1307-1332 | so does a release |
| DupreqCache.Cache.constructor | src/RPCAL/nfs_dupreq.c:370-408 | an empty cache with window zero |
| DupreqCache.Cache.PutEntry | src/RPCAL/nfs_dupreq.c:864-875 | one reference less, freed with the last |
| DupreqCache.Cache.Start | src/RPCAL/nfs_dupreq.c:979-1108 | the answer and the whole new state of a lookup: being processed, hit with recorded result and window extended, or new entry with two references |
| DupreqCache.Cache.RetireHead | src/RPCAL/nfs_dupreq.c:1199-1218 | the head leaves queue and index and loses that reference |
| DupreqCache.Cache.RetireIfSame | src/RPCAL/nfs_dupreq.c:1181-1218 | after relocking the head is retired exactly when it still has the hash noted before |
| DupreqCache.Cache.Retire | src/RPCAL/nfs_dupreq.c:1168-1226 | the retire loop with the lock dropped before each retirement: the invariant and the caller's entry are kept whatever others do, and alone it retires exactly what the retire test asks for, six at most |
| DupreqCache.Cache.Finish | src/RPCAL/nfs_dupreq.c:1136-1234 | whatever others do the result is recorded and the invariant kept; alone it is the whole finish |
| DupreqCache.Cache.Delete | src/RPCAL/nfs_dupreq.c:1252-1296 | the whole new state: a queued entry leaves index and queue and loses that reference; for one retired meanwhile state, size and count change all the same, and queue and index become anything |
| DupreqCache.Cache.Rele | src/RPCAL/nfs_dupreq.c:1307-1332 | the caller's reference is given back |
| DupreqRuns.RunInv | src/RPCAL/nfs_dupreq.c:979-1332 | in every run, finishes split at their lock drops included, index and queue hold the same entries, an entry's count is one for being queued plus one per holding request and size is the queue length; with atomic finishes it is at most maxsize plus unfinished requests |
| DupreqRuns.FreedIff | src/RPCAL/nfs_dupreq.c:864-875 | an entry exists exactly while it is queued or held |
| DupreqRuns.FreedOnce | src/RPCAL/nfs_dupreq.c:864-875 | a freed entry stays freed over the rest of the run |
| DupreqRuns.AtMostOnce | src/RPCAL/nfs_dupreq.c:1040-1107 | while an executed request is cached, duplicates get "being processed" before its finish and exactly the recorded result after, never a second execution |
| DupreqRuns.ExecutedIff | src/RPCAL/nfs_dupreq.c:1040-1107 | a key is executed exactly when no earlier execution of it is still cached |
| DupreqRuns.FinishedOnce | src/RPCAL/nfs_dupreq.c:1148-1153 | no entry is finished twice in a run |
| DupreqRuns.RetireOrder | src/RPCAL/nfs_dupreq.c:1168-1226 | an entry leaves the cache before an older one only by deletion |
| DupreqRuns.DecisionShield | src/RPCAL/nfs_dupreq.c:898-945 | within fifteen finishes after a hit at a closed window the retire test answers yes only above the hard bound, however finishes interleave |
| DupreqRuns.RetireShield | src/RPCAL/nfs_dupreq.c:898-945 | a hit at a closed window keeps the next fifteen finishes from retiring anything within the hard bound; without another hit the sixteenth finds the window closed |
| DupreqRuns.FinishRetiresIff | src/RPCAL/nfs_dupreq.c:1164-1226 | the entry at a position is retired by a finish exactly when the position is below the number computed from size, marks and window beforehand |
| DupreqRuns.UnfinishedRetiredIff | src/RPCAL/nfs_dupreq.c:1164-1226 | an unfinished entry of another request is retired by a finish exactly when its position is below that number; exactly then it can no longer be deleted properly and its key is executed again |
| DupreqRuns.UnfinishedRetired | src/RPCAL/nfs_dupreq.c:1168-1226 | the run in which that happens, with both marks at their smallest configurable value |
| DupreqSplit.Covered | src/RPCAL/nfs_dupreq.c:1168-1226 | every cache reached with finishes taken apart step by step is reached by a run of `DupreqRuns`, so its theorems hold there |
| DupreqSplit.RunWithin | src/RPCAL/nfs_dupreq.c:1168-1226 | over every such run the size is at most maxsize plus the requests not yet finished, the finishes that have retired nothing yet and those that gave up |
| DupreqSplit.GivenUpCounts | src/RPCAL/nfs_dupreq.c:1190-1197 | the run that needs the last term: two finishes note one head, it is deleted, and the size stays at twice its bound with nothing pending |
| DrcRecycle.RevivedWasQueued | src/RPCAL/nfs_dupreq.c:591-613 | a lookup revives a cache of count zero only off the recycle queue |
| DrcRecycle.RecheckHolds | src/RPCAL/nfs_dupreq.c:711-715 | the recheck after the locks were swapped always succeeds |
| DrcRecycle.HolderCounted | src/RPCAL/nfs_dupreq.c:684-690 | no put underruns the count |
| DrcRecycle.FreesExactlyExpired | src/RPCAL/nfs_dupreq.c:463-516 | the expiry pass frees exactly the queued caches whose time is up, although it stops at the first that is not, each with no transport, no putter and no cached request; within its interval it changes nothing |
| DrcRecycle.StepKeeps | src/RPCAL/nfs_dupreq.c:463-732 | every step keeps one cache per address, the count equal to bound transports plus call-path, cached and leaked references, the queue, its counter and the order of recycle times |
| DrcRecycle.RunInv | src/RPCAL/nfs_dupreq.c:463-732 | so in every state of every interleaving |
| DrcRecycle.ZeroCount | src/RPCAL/nfs_dupreq.c:678-732 | a count of zero means queued with the flag set and no putter, or unqueued with exactly one putter |
| DrcRecycle.LeakedIsHits | src/RPCAL/nfs_dupreq.c:1001-1064 | over every run the leaked references of a cache are exactly the duplicate hits it has had |
| DrcRecycle.RecycledIff | src/RPCAL/nfs_dupreq.c:678-732 | a cache with no transport, call or cached entry is queued or about to be queued exactly when it has had no duplicate hit |
| DrcRecycle.LeakedForever | src/RPCAL/nfs_dupreq.c:1001-1064 | after one hit a cache is never queued nor freed again |
| DrcJoin.RunJoined | src/RPCAL/nfs_dupreq.c:979-1296 | in every run of caches and requests together the entry references counted on a cache are the length of its request queue |
| DrcJoin.RunContents | src/RPCAL/nfs_dupreq.c:979-1332 | and every cache keeps its own invariant |
| DrcJoin.FreedIsEmpty | src/RPCAL/nfs_dupreq.c:463-516 | a cache the expiry pass frees has an empty request queue and an empty index |
| DrcTable.Table.Dequeue | src/RPCAL/nfs_dupreq.c:609-611 | exactly that cache leaves the queue |
| DrcTable.Table.Lookup | src/RPCAL/nfs_dupreq.c:555-645 | retry on a count of zero outside the queue; otherwise revive or allocate, bind the transport and take both references |
| DrcTable.Table.Get | src/RPCAL/nfs_dupreq.c:525-667 | a bound transport only adds the call-path reference |
| DrcTable.Table.PutFirst | src/RPCAL/nfs_dupreq.c:678-705 | one reference less, and at zero the thread becomes the putter |
| DrcTable.Table.PutSecond | src/RPCAL/nfs_dupreq.c:706-732 | the putter queues the cache with time and flag |
| DrcTable.Table.Free | src/RPCAL/nfs_dupreq.c:463-516 | the expiry loop, with the source's assertion that the head's count is zero |
| Share.FileShare.UpdateCounters | src/FSAL/commonlib.c:2223-2263 | every counter moves by the new mode's weight less the old one's |
| Share.FileShare.CheckConflict | src/FSAL/commonlib.c:2282-2329 | passes exactly when the mode is compatible with every live open, seen without its advisory denies when bypassing |
| Share.FileShare.Add | src/FSAL/FSAL_VFS/file.c:400-418 | check then register; all pairs of live opens stay compatible |
| Share.FileShare.Remove | src/FSAL/commonlib.c:2223-2263 | closing takes exactly that open away and no counter goes below zero |
| Share.FileShare.Reopen | src/FSAL/FSAL_VFS/file.c:1014-1031 | the new mode is checked against every open, its own old one included |
| Share.FileShare.CheckMerge | src/FSAL/commonlib.c:2348-2378 | passes exactly when all cross pairs are compatible |
| Share.FileShare.Merge | src/FSAL/commonlib.c:2348-2394 | then the opens are those of both |
| Share.TallyMeans | src/FSAL/commonlib.c:2223-2263 | each counter is positive exactly when some open counts in it |
| Share.RunExact | src/FSAL/commonlib.c:2223-2394 | over every run the counters are the tally of the live opens, never negative, and all pairs are compatible |
| Reopen.UsableMeans | src/include/fsal.h:601-615 | a descriptor is usable when open in every requested mode, or in any for "any" |
| Reopen.Obj.Widen | src/FSAL/commonlib.c:2621-2679 | under the write lock: close, reopen with both modes, and the count moves with the descriptor but for a failed close that forgets it |
| Reopen.Obj.Temporary | src/FSAL/commonlib.c:2550-2595 | a temporary descriptor, with the lock held exactly when shares were checked |
| Reopen.Obj.ReopenObj | src/FSAL/commonlib.c:2447-2712 | under any interference: has_lock is "read lock held", no error leaves a lock, a passed share check still holds at return, the descriptor is usable, at most one open of the global descriptor and at most one failed close, which is what the close error reports; the count drifts by exactly the failed closes that forget the descriptor |
| ClientIds.UnrefKeeps | src/SAL/nfs4_clientid.c:363-401 | giving up an id reference keeps everything exact, and only an expired id is freed |
| ClientIdRuns.CreateKeeps | src/SAL/nfs4_clientid.c:526-593 | a created id holds one record reference and is in no table |
| ClientIdRuns.InsertKeeps | src/SAL/nfs4_clientid.c:607-648 | inserted ids are hashed and pointed at, a refused one is freed with its record reference |
| ClientIdRuns.RemoveKeeps | src/SAL/nfs4_clientid.c:659-736 | both removals leave the id expired, unhashed and unpointed |
| ClientIdRuns.ConfirmKeeps | src/SAL/nfs4_clientid.c:750-819 | confirming moves the id between tables, or expires it when the key is taken |
| ClientIdRuns.MarkKeeps | src/SAL/nfs4_clientid.c:891-937 | the first half of an expire decouples the record and drops its reference once |
| ClientIdRuns.StepKeeps | src/SAL/nfs4_clientid.c:363-960 | every step keeps tables, status, back-pointers and both reference counts exact |
| ClientIdRuns.RunInv | src/SAL/nfs4_clientid.c:363-960 | so in every run |
| ClientIdRuns.Placement | src/SAL/nfs4_clientid.c:607-960 | unconfirmed ids only in the unconfirmed table, confirmed or stale ids only in the confirmed one, expired ids in neither |
| ClientIdRuns.ExpireDeleteFinds | src/SAL/nfs4_clientid.c:936-959 | the table delete of an expire never fails and finds that very id |
| ClientIdRuns.SecondLookupNeverRuns | src/SAL/nfs4_clientid.c:944-952 | the second lookup of an expire never runs in any run and is never needed |
| ClientIdRuns.StaleThenExpireIff | src/SAL/nfs4_clientid.c:909-952 | why callers make only confirmed ids stale: expiring an id made stale finds it exactly when it was not unconfirmed |
| ClientIdRuns.FreedOnlyExpired | src/SAL/nfs4_clientid.c:363-401 | the last reference is only ever dropped by an expired, unhashed id |
| ClientIdRuns.NewIdEpoch | src/SAL/nfs4_clientid.c:1366-1372 | new ids pass the epoch test of a lookup, ids of another epoch are stale, different counters give different ids |
| ClientIdStore.Store.DecRecordRef | src/SAL/nfs4_clientid.c:1461-1533 | one record reference less, freed with the last |
| ClientIdStore.Store.DecClientRef | src/SAL/nfs4_clientid.c:363-401 | one id reference less, an expired id freed with the last, with its record reference |
| ClientIdStore.Store.InsertClient | src/SAL/nfs4_clientid.c:607-648 | result and whole new state of an insertion |
| ClientIdStore.Store.ConfirmClient | src/SAL/nfs4_clientid.c:750-819 | result and whole new state of a confirmation, both failures included |
| ClientIdStore.Store.RemoveUnconfirmedClient | src/SAL/nfs4_clientid.c:700-736 | unhashed, unpointed, expired, one reference less |
| ClientIdStore.Store.RemoveConfirmedClient | src/SAL/nfs4_clientid.c:659-690 | the same in the confirmed table |
| ClientIdStore.Store.MarkExpired | src/SAL/nfs4_clientid.c:891-937 | false on an id expired before; otherwise decoupled and marked, with the table chosen by its status |
| ClientIdStore.Store.FinishExpire | src/SAL/nfs4_clientid.c:936-959 | unhashed, the table's reference passing to the expiring thread |
| ClientIdStore.Store.PutClient | src/SAL/nfs4_clientid.c:1143-1145 | that reference, or any request's, given up |
| ClientIdStore.Store.GetClient | src/SAL/nfs4_clientid.c:1168-1231 | found with a reference, stale by epoch or by status, or expired |
| Lease.ValidMeans | src/SAL/nfs4_lease.c:50-67 | a lease is valid while reserved or within its lifetime, never once expired, and the seconds left lie within the lifetime |
| Lease.PermanentIff | src/SAL/nfs4_lease.c:50-149 | along any legal run from an invalid lease every later state is invalid exactly when no session is created on an unexpired id |
| Lease.GapHarmless | src/MainNFSD/nfs_reaper_thread.c:73-109 | so the lease found invalid is still invalid and unreserved when it is expired |
| Lease.GapWithSession | src/Protocols/NFS/nfs4_op_create_session.c:519-520 | a session created in between makes it valid and reserved |
| Lease.ClientLease.ReserveLease | src/SAL/nfs4_lease.c:109-128 | succeeds exactly on a valid lease and then holds it |
| Lease.ClientLease.UpdateLease | src/SAL/nfs4_lease.c:143-149 | the last release renews |
| Reaper.Table.ExpireClient | src/SAL/nfs4_clientid.c:891-902 | an id marked by another thread is left alone, any other is marked and leaves the partition |
| Reaper.Table.ExpireOne | src/MainNFSD/nfs_reaper_thread.c:88-126 | one victim, across the gap without locks |
| Reaper.Table.ReapPart | src/MainNFSD/nfs_reaper_thread.c:56-130 | the restarting walk ends although others, in any finite number of gaps, add ids or leave marked ids hashed; alone it leaves exactly the valid leases |
| Reaper.Table.Reap | src/MainNFSD/nfs_reaper_thread.c:44-133 | every lease the reaper expires was found invalid and, unless a session was created meanwhile, is still invalid and unreserved when it goes; the walk ends as above, and if others only unhash what they have marked exactly the valid leases remain |
| Grace.RunInv | src/SAL/nfs4_recovery.c:58-297 | in every run the client count is the length of the list and an open period started at the last restart |
| Grace.TimeoutLift | src/SAL/nfs4_recovery.c:260-297 | a timeout lift that takes effect ends a period whose own time is over, and with a positive period no restart came after its decision |
| Grace.RestartSurvives | src/SAL/nfs4_recovery.c:99-112 | a restart after the decision makes the compare fail |
| Grace.ReclaimCancelsIff | src/SAL/nfs4_recovery.c:99-112 | a lift decided by completed reclaims cancels a restart made after its decision exactly when the open period is a restart in the second whose start it read, and its decision then fell into that second |
| Grace.LateDecisionSafe | src/SAL/nfs4_recovery.c:260-297 | no lift decided in a later second than the start it read cancels a later restart |
| Grace.SameSecondRestart | src/SAL/nfs4_recovery.c:99-206 | the run in which it cancels a restart |
| Grace.Recovery.AddClid | src/SAL/nfs4_recovery.c:58-67 | entry and count together |
| Grace.Recovery.CleanupClids | src/SAL/nfs4_recovery.c:78-91 | the list empties and the count reaches zero with it |
| Grace.Recovery.LoadClids | src/SAL/nfs4_recovery.c:438-447 | a start-up begins from an empty list, a take-over adds to it |
| Grace.Recovery.StartGrace | src/SAL/nfs4_recovery.c:132-206 | whole new state of a start: graceless, fresh, extending, take-over |
| Grace.Recovery.StillInGrace | src/SAL/nfs4_recovery.c:270-282 | the decision from the value read, the reclaim counters and the clock |
| OwnerSeqid.ExecutionContinues | src/SAL/nfs4_owner.c:709-792 | over every run each execution, saved or not, continues the last saved one modulo 2^32 unless that one saved a null object or this one skips the check |
| OwnerSeqid.EachContinues | src/SAL/nfs4_owner.c:709-792 | so each saved request continues the one saved before it, with the same two exceptions |
| OwnerSeqid.StretchConsecutive | src/SAL/nfs4_owner.c:709-792 | over every run saved sequence ids are consecutive modulo 2^32 within each stretch cut at null saves and at requests that skip the check |
| OwnerSeqid.ConsecutiveSeqids | src/SAL/nfs4_owner.c:709-792 | so in a run without either they are consecutive from the first one |
| OwnerSeqid.AnswerExact | src/SAL/nfs4_owner.c:709-792 | what every request of every run gets: executed if it skips the check, before the first save and after a null save; otherwise only the next id executed, a retransmission of the last saved request answered with exactly its saved response, everything else a bad sequence id |
| OwnerSeqid.ReplayNeverExecuted | src/SAL/nfs4_owner.c:709-792 | within such a stretch of fewer than 2^32 saves no sequence id is saved twice |
| OwnerSeqid.ReplayExecutedIff | src/SAL/nfs4_owner.c:647-735 | a request just executed is executed again on retransmission exactly when it saved a null object or skips the check then, or, if it saved nothing, had passed the check or skips it then |
| OwnerSeqid.OpenZeroRepeats | src/Protocols/NFS/nfs4_op_open.c:243-266 | an OPEN with sequence id zero on an owner in use is executed every time, whatever object it saved |
| OwnerSeqid.LockRepeatsIff | src/Protocols/NFS/nfs4_op_lock.c:513-524 | a LOCK introducing an owner in use without locks is executed again exactly when that owner's locks are gone when the retransmission arrives, and otherwise answered with its own response |
| OwnerSeqid.StateOwner.Check | src/SAL/nfs4_owner.c:709-792 | the check, branch by branch |
| OwnerSeqid.StateOwner.Admit | src/Protocols/NFS/nfs4_op_open.c:243-266 | the requests executed without the check, then the check |
| OwnerSeqid.StateOwner.Copy | src/SAL/nfs4_owner.c:647-686 | the saved request is replaced as a whole |
| OwnerSeqid.StateOwner.Serve | src/Protocols/NFS/nfs4_op_close.c:225-330 | check, execute and save as one operation does them |
| CbSlots.RunValid | src/MainNFSD/nfs_rpc_callback.c:1122-1187 | whatever the threads do, sequence numbers sent on a slot are consecutive modulo 2^32 and only slots below the limit are in use |
| CbSlots.NoSharing | src/MainNFSD/nfs_rpc_callback.c:1122-1187 | between two reservations of a slot lies its release |
| CbSlots.GiveBack | src/MainNFSD/nfs_rpc_callback.c:1161-1187 | a slot given back unsent leaves the table as it was |
| CbChannel.CbSession.Scan | src/MainNFSD/nfs_rpc_callback.c:1130-1143 | the lowest free slot, and a highest slot that bounds all in use |
| CbChannel.CbSession.FindSlot | src/MainNFSD/nfs_rpc_callback.c:1122-1169 | reserves the lowest free slot, waiting once at most, and reports the highest slot in use |
| CbChannel.CbSession.ReleaseSlot | src/MainNFSD/nfs_rpc_callback.c:1179-1187 | the slot is free, its sequence number taken back if nothing was sent |
| CbChannel.TryOne | src/MainNFSD/nfs_rpc_callback.c:1219-1267 | one session, other threads acting between reservation, send and release: a sent call on its slot, or no slot left and the channel down after a failed send; alone, the table as found |
| CbChannel.Single | src/MainNFSD/nfs_rpc_callback.c:1189-1278 | ends however often, finitely, channels come up meanwhile; success leaves exactly one slot with the call, sent; failure leaves none, and every table as before if nobody else acts |

## Left out

- Sockets, RPC registration, XDR, transports, credentials, DBus, start-up and shutdown, logging: no logic of their own to prove here.
- Red-black trees, hash tables, libacl and the allocator: taken as maps and sequences with the contracts their callers rely on; partitions only where a walk depends on them.
- fsal_acl_to_mode and fsal_inherit_acls: folds over an ACL that promise no law with the parts modelled here.
- The owner-release loops, layout and delegation revocation inside nfs_client_id_expire, and the session list of a client: they need code outside this model; the table, record and count part is modelled.
- The UDP duplicate request cache and the no-cache path of a request: they only add cases without state.
- Widths of counters and reference counts: unbounded here; sequence ids, slot sequences and client id halves do wrap at 2^32.
- ModeAcl.ModeToAcl: the outcome `Overrun` ends the model; what memory holds after a write past a buffer is not described.
- DupreqRuns.RunInv: the size bound is stated for runs whose finishes are single steps; `DupreqSplit.RunWithin` has the one for finishes taken apart.
- DupreqRuns.StepKeeps: a delete is a step of a run only while its entry is queued; `Dupreq.DeleteKeepsInvIff` says what the other case breaks.
- DupreqCache.Cache.Delete: what unlinking an entry that is on no list leaves of queue and index is a parameter; the list and tree macros are not part of this model.
- DupreqCache.Cache.Start: the call-path reference on the cache itself is the subject of DrcRecycle; DrcJoin takes both steps together.
- DrcTable.Table.PutFirst: a transport forgets its cache here, a moment before the source clears the pointer; the transport is being destroyed and serves no request in between.
- DrcRecycle.FreesExactlyExpired: clock values are positive, as the source uses zero for "not recycled".
- Reopen.Obj.ReopenObj: a successful open of the descriptor records exactly the mode asked for, as the VFS module does; whether a failing close forgets the descriptor is a parameter.
- CbChannel.Single: other threads take and release slots and bring channels up and down at will, up a finite number of times; a failed send is taken as not sent, as the source does.
- ClientIdStore.Store.FinishExpire: the fatal error of a failing table delete has no state to describe; `ExpireDeleteFinds` shows it does not happen.
- ClientIdRuns.StepKeeps: callers remove the old unconfirmed id before inserting and the old confirmed one before confirming, and make only confirmed ids stale, as the operations of the protocol do.
- Reaper.Table.Reap: an unending supply of new ids, or an id marked and never unhashed, would keep the walk going, since expiring a marked id changes nothing (`ExpireClient`).
- Grace.Recovery.StillInGrace: the reclaim counters are read at one instant, where the source reads them one after the other without the lock.
- OwnerSeqid.StateOwner.Admit: the confirmed flag that an OPEN with sequence id zero clears is not part of the owner here.
- Liveness of wake-ups and timing of threads: only safety and termination measures are stated.
