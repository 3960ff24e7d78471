# A verified model of peerpaste

peerpaste is a peer-to-peer pastebin on a Chord ring. Its nodes keep a routing table (themselves, an optional
predecessor, up to ten successors), repair it by asking their successors and notifying them, look ids up by forwarding,
announce their finished files round the ring and fetch the files they lack in chunks.

This project models that behaviour in Dafny and proves what it is relied on for. Objects that the program updates in
place are classes. Their methods' contracts give the whole new state, and do so by functions on values wherever a
theorem builds on them; the theorems are about those functions, over every run.

* **The ring** (`Identifiers`, `Paths`, `RoutingTables`, `FindSuccessors`, `Maintenance`, `Rings`, `RingInvariants`,
  `Convergence`, `IdealRings`, `SuccessorLists`, `Lookups`, `FastLookups`, `Sweeps`, `Progress`, `Arrivals`,
  `Notifications`, `Dropping`, `Moves`). `Rings.State` is any finite number of nodes with their tables, unfinished
  stabilizations and joins, and all notifications ever sent. A step is one handler of one node. An answer carries what
  its sender knew when it answered, however much later it arrives; a notification may arrive late, repeatedly or never.
  The invariant `Rings.Inv` says that everything one node believes to be another's predecessor has a path to it which
  never jumps over it.
* **The messages of maintenance** (`Messages`, `Correspondence`, `StabilizeFlag`, `MessageTrees`): the phases of
  `Stabilize`, `Join`, `Notification` and relayed lookups on a node's own table, how they carry out the steps of the
  ring, the shared stabilize flag, and timeouts over trees of messages.
* **Files** (`Storages`, `FileTransfers`, `Broadcasts`): storage bookkeeping, chunked transfers over interruptions and
  restarts, and file lists travelling round the ring.
* **Plumbing** (`Wires`, `Handlers`): framing and the queue of a connection, cleaning up finished messages, and handing
  responses to handlers.

## What the proofs say of the code

* Runs that never drop a successor lose no path, change pointers boundedly often, and have nothing left to do exactly
  when the ring is ideal.
* Call it a sweep when every member is answered, takes the answer, adopts the closer node if there is one, and is heard
  by its successor. More sweeps than there is disorder meet the ideal ring, and it stays once nobody links in any more.
  Nine sweeps later, if no joiner splices in its list meanwhile, every lookup is right (`Sweeps.SweepsSettleLookups`): a
  splice may bring padding back (`SuccessorLists.SpliceBringsBack`).
* Where members rest and their successors know some predecessor, any number of sweeps is possible
  (`Progress.SweepsArePossible`). From the start all nodes can join, settle into one ideal ring and come to answer every
  lookup rightly (`Arrivals.EveryLookupCanBeRight`).
* Dropping the successor after an empty answer (src/stabilize.cpp:89-97) does cut nodes off:
  `Dropping.DroppingCutsOff` is a run of two nodes at whose end it happens. `DropKeepsPathsIff` says exactly when a drop
  costs a path. Runs in which no drop does, and in which predecessors may be forgotten, still cut nobody off, and
  change successors boundedly often (`Moves.MovesKeepPaths`, `Moves.SuccessorsSettle`).
* With padding at the end of the list, exactly the lookups for ids outside (self, successor] that wrap round are sent to
  nobody (`FindSuccessors.LookupIsLostIff`, with a two-node example in `PaddingBreaksALookup`).
* In a ring of ten members or fewer a full list goes round more than once, and the backward scan may pick the entry it
  meets last over a member nearer to the target (`FastLookups.ClosestMayBeMissed`; `HopIsClosestIff` says exactly when).
  With more members it does not, and a settled lookup is forwarded once for every ten members ahead
  (`FastLookups.LookupTakesTenths`).
* An old `Stabilize` that expires in its notify phase lowers a flag which belongs to a newer one
  (`StabilizeFlag.TwoMayWaitAtOnce`); `ExclusiveIffOwnFailure` says exactly when an event does that.
* The first notification a node receives is accepted but not answered (src/notify.cpp:87-92), so its sender's message
  ends by timeout.
* A message whose essential dependency failed is reported as timed out; whether the next check reports it again depends
  on its type's `handle_failed` (`MessageTrees.VerdictSticks`).
* Messages of 2^32 bytes and more are framed with a truncated length (`Wires.ReadBackIffItFits`).
* A file list that is passed on can be finished by its fetches exactly when nothing on it is missing or something on it
  can be received (`Broadcasts.ListFinishesIff`). Any other waits for its deadline, such as a list whose only file is
  just being received (`Broadcasts.AListIsStuck`).

## How things are modelled

* Peers stand by their ids; address and port are left out, and a default-constructed peer has the id `""`. A ring is the
  increasing sequence of the ids that ever take part; `Identifiers.EverySetIsARing` shows that this is no restriction.
  Distances count ids of that sequence (`Identifiers.LapCountsIds`).
* Every node starts as its own successor, as `MessageHandler::init` leaves it. One node is the creator and counts as
  joined; the others join through nodes that have joined.
* In runs of the ring a node has one list-changing stabilization at a time and does not link itself in while one is
  unfinished. `TakePred` leaves out the answer that makes a node drop its successor, and nothing times out; drops and
  predecessors given up are added in `Moves`, timeouts of stabilizations treated in `StabilizeFlag`.
* Each handler is one atomic step. Time is a natural number passed to the functions that read the clock.
* The hash is an uninterpreted function. The database table is a map, the directory a map from names to contents, and a
  write token a numbered entry of the blocked files.

## Model

| member | source | states |
|---|---|---|
| `Identifiers.LessIsStringOrder` | src/cryptowrapper.cpp:80-88 | the comparison is that of strings: one id is less exactly when it ends, or has the smaller character, at the first place where the two differ |
| `Identifiers.CommonPrefixDoesNotMatter` | src/cryptowrapper.cpp:80-88 | what two ids have in common in front does not change how they compare |
| `Identifiers.BetweenRotates` | src/cryptowrapper.cpp:80-88 | `between` reads the same from any of its three ids, for ids of any length |
| `Identifiers.BetweenIsTotal` | src/cryptowrapper.cpp:80-88 | of three distinct ids exactly one of the two cyclic orders holds |
| `Identifiers.BetweenIsTransitive` | src/cryptowrapper.cpp:80-88 | what lies inside an inner arc lies inside the outer one |
| `Identifiers.BetweenFullCircle` | src/cryptowrapper.cpp:80-88 | an arc from an id to itself is the whole ring but that id |
| `Identifiers.BetweenComparesDistances` | src/cryptowrapper.cpp:80-88 | on a ring, `between` compares clockwise distances |
| `Identifiers.LapCountsIds` | src/cryptowrapper.cpp:80-88 | the distance used by all measures counts the ids for which `between` holds |
| `RoutingTables.Resized` | include/peerpaste/concurrent_routing_table.hpp:128-140 | `resize(10)` keeps the first ten entries and pads with default peers |
| `RoutingTables.RoutingTable.SetSuccessor` | include/peerpaste/concurrent_routing_table.hpp:113-126 | replaces the first entry only, or creates it |
| `RoutingTables.RoutingTable.ReplaceSuccessorList` | include/peerpaste/concurrent_routing_table.hpp:128-133 | the list becomes the given one, cut or padded to ten |
| `RoutingTables.RoutingTable.ReplaceAfterSuccessor` | include/peerpaste/concurrent_routing_table.hpp:135-140 | the given list is spliced in behind the successor, then cut or padded |
| `RoutingTables.RoutingTable.PopFront` | include/peerpaste/concurrent_routing_table.hpp:160-171 | drops the successor unless it is the last entry |
| `RoutingTables.ListIsSplicedIn` | include/peerpaste/concurrent_routing_table.hpp:135-140 | entry by entry: successor, given list, old tail, padding |
| `RoutingTables.OnlyFirstIsSet` | include/peerpaste/concurrent_routing_table.hpp:113-126 | entry by entry: only the first changes, and an empty list gets one |
| `RoutingTables.OnlyFrontIsDropped` | include/peerpaste/concurrent_routing_table.hpp:160-171 | entry by entry: all others move up by one |
| `FindSuccessors.LastBetween` | src/find_successor.cpp:250-260 | the backward scan finds the last listed peer strictly between self and id, if there is one |
| `FindSuccessors.ClosestPreceding` | src/find_successor.cpp:242-260 | the hop is the listed peer between self and id behind which no listed peer is between them; self if there is none |
| `FindSuccessors.FindSuccessor.ClosestPrecedingNode` | src/find_successor.cpp:242-260 | the loop computes the closest preceding node of the table |
| `FindSuccessors.FindSuccessor.FindSuccessor` | src/find_successor.cpp:199-240 | the local answer to a lookup, null included |
| `FindSuccessors.RoutingMakesProgress` | src/find_successor.cpp:199-260 | a node with a successor answers exactly for ids in (self, successor]; otherwise the next hop is a listed peer strictly between self and id |
| `FindSuccessors.PaddingIsChosen` | src/find_successor.cpp:250-258 | with padding at the end, the scan finds padding if and only if id is not above self |
| `FindSuccessors.LookupIsLostIff` | src/find_successor.cpp:199-260 | with padding at the end, a lookup is forwarded, and to a default peer, if and only if id is not above self and not in (self, successor] |
| `FindSuccessors.PaddingBreaksALookup` | src/find_successor.cpp:242-260 | a concrete two-node table whose lookup is forwarded to a default peer |
| `Paths.ReachesTransitive` | src/stabilize.cpp:131-145 | paths that jump over nothing compose |
| `Paths.ShorteningKeepsPaths` | src/stabilize.cpp:147-160 | moving a successor back to a node on the way to it loses no path |
| `Paths.LinkingKeepsPaths` | src/join.cpp:92-104 | giving a lone node a successor loses no path |
| `Paths.TidyIsIdeal` | src/stabilize.cpp:131-145 | distinct successors that all lead to the creator leave only the ideal ring |
| `Paths.IdealIsOneCycle` | src/stabilize.cpp:131-145 | on an ideal ring every member reaches every other |
| `RingInvariants.StepKeepsInv` | src/stabilize.cpp:99-195 | every step of every node but a drop or a failure keeps the invariant and every path, and changes no other node |
| `RingInvariants.TakePredKeepsInv` | src/stabilize.cpp:99-145 | the successor's answer, stale or not, leaves a sound table and the same successor |
| `RingInvariants.TakeSelfKeepsInv` | src/stabilize.cpp:147-160 | the adopted successor is the closer node, and no path is lost |
| `RingInvariants.DeliverKeepsInv` | src/notify.cpp:86-115 | whoever becomes predecessor has a path to the node |
| `RingInvariants.SearchKeepsInv` | src/find_successor.cpp:81-176 | a join's lookup, over stale tables, ends with a member that does not jump over the creator |
| `RingInvariants.LinkKeepsInv` | src/join.cpp:92-104 | linking in with a stale lookup reply keeps the invariant |
| `RingInvariants.FinishJoinKeepsInv` | src/join.cpp:106-114 | splicing in the successor's list leaves only members, padding and the node itself listed |
| `RingInvariants.RunKeepsPaths` | src/stabilize.cpp:109-160 | nobody is cut off: over any run every path between nodes stays, and members stay members |
| `RingInvariants.NobodyJumpsOverCreator` | src/join.cpp:92-114 | in every reachable state each member's successor lies before the creator or is it, and leads to it |
| `RingInvariants.PathsStayInside` | src/stabilize.cpp:131-138 | from a member one only ever reaches members |
| `Convergence.StepSettles` | src/stabilize.cpp:131-158 | no step raises the disorder, and every change of a successor or predecessor lowers it |
| `Convergence.ChangesAreBounded` | src/stabilize.cpp:131-158 | the number of changes of a run is paid for by disorder |
| `Convergence.FinitelyManyChanges` | src/stabilize.cpp:82-160 | from the start, n nodes change successors and predecessors at most n(2n+1) times, joins included |
| `IdealRings.ContentIsAcknowledged` | src/stabilize.cpp:131-145 | stabilizing changes nothing exactly when the successor knows the node as its predecessor |
| `IdealRings.QuiescentIffIdeal` | src/notify.cpp:112-115 | nothing left to stabilize or notify if and only if every successor is the next member and knows its predecessor |
| `IdealRings.RestingRingIsOneCycle` | src/stabilize.cpp:131-145 | in every reachable quiescent state the members form one clockwise cycle |
| `IdealRings.IdealIsStable` | src/stabilize.cpp:82-160 | no stale answer or notification disturbs an ideal ring; only a new link does |
| `Sweeps.QuietSweepIsIdeal` | src/stabilize.cpp:131-145 | a sweep in which no successor or predecessor changes started on the ideal ring |
| `Sweeps.SweepsMeetIdealRing` | src/stabilize.cpp:82-160 | more sweeps than there is disorder meet the ideal ring, whatever joins, stale answers and other steps come between |
| `Sweeps.SweepsEndIdeal` | src/stabilize.cpp:82-160 | once nobody links in, more sweeps than there is disorder end on the ideal ring |
| `Sweeps.SweptRingAnswersRightly` | src/stabilize.cpp:109-129 | nine sweeps on an ideal ring without links or list splices make every lookup right |
| `Sweeps.SweepsSettleLookups` | include/peerpaste/message_handler.hpp:95-114 | sweeps without links, more than the disorder, then nine without list splices either, end on the ideal ring with every lookup right |
| `Sweeps.EveryLookupIsRightInTheEnd` | include/peerpaste/message_handler.hpp:95-114 | after any run from the start, with n nodes n(2n+1)+1 sweeps of the first kind and nine of the second are enough |
| `Progress.TurnIsPossible` | src/stabilize.cpp:82-195 | where members rest and their successors know some predecessor, any of them can stabilize to the end and be heard |
| `Progress.SweepsArePossible` | include/peerpaste/message_handler.hpp:95-114 | from there any number of sweeps can follow |
| `Progress.IdealRingIsReachable` | src/stabilize.cpp:82-195 | from there stabilization alone can lead to the ideal ring |
| `Arrivals.HostFor` | src/find_successor.cpp:219-230 | some member answers the lookup of a newcomer at once |
| `Arrivals.NodeCanJoin` | src/join.cpp:46-114 | from such a state a newcomer can join, and the state stays such |
| `Arrivals.EverybodyCanJoin` | src/join.cpp:46-114 | from the start some run makes all nodes members of one ideal ring |
| `Arrivals.EveryLookupCanBeRight` | include/peerpaste/message_handler.hpp:95-114 | and nine sweeps later every node answers every lookup rightly |
| `Dropping.DropKeepsPathsIff` | src/stabilize.cpp:89-97 | handling an empty answer costs no path if and only if there is one entry only, the node was its own successor, or the next entry is the successor again or leads to it from before |
| `Dropping.PaddingStrands` | include/peerpaste/concurrent_routing_table.hpp:160-171 | when padding takes over, the node leads to nobody |
| `Dropping.DroppingCutsOff` | src/stabilize.cpp:89-97 | a run from the start whose next drop costs a node its only path |
| `Dropping.DropKeepsInv` | src/stabilize.cpp:89-97 | a drop that costs no path keeps the invariant, its notification included |
| `Moves.ForgettingKeepsInv` | src/check_predecessor.cpp:101-106 | giving up a predecessor keeps the invariant and every path |
| `Moves.MovesKeepPaths` | src/stabilize.cpp:82-160 | nobody is cut off in runs whose drops cost no path, whatever predecessors are given up |
| `Moves.SuccessorsSettle` | src/stabilize.cpp:82-160 | in such runs n nodes change successors at most n*n times |
| `SuccessorLists.AnsweredWalk` | src/stabilize.cpp:109-129 | the new list follows the ring one entry further than the list it was answered |
| `SuccessorLists.AdoptedListWalks` | src/get_self_and_succ_list.cpp:60-93 | adopting the closer node gives a list that follows the ring one entry further than its list |
| `SuccessorLists.JoinedListWalks` | src/join.cpp:92-114 | so does joining before a node and taking its list |
| `SuccessorLists.QuietStepKeepsFilled` | src/get_pred_and_succ_list.cpp:80-86 | on an ideal ring no step but a link or the splice of a joiner's list lowers the depth to which lists and answers follow the ring |
| `SuccessorLists.RoundLifts` | src/stabilize.cpp:109-129 | with lists following the ring to depth k and answers under way to k-1, once each node has been answered and has taken an answer, in any order, all lists follow it to depth min(k+1,10), and the answers one less |
| `SuccessorLists.PaddingDrainsAway` | include/peerpaste/concurrent_routing_table.hpp:128-133 | nine such rounds replace all padding and stale entries by the walk round the ring |
| `SuccessorLists.SpliceBringsBack` | include/peerpaste/concurrent_routing_table.hpp:135-140 | what stands in the first nine entries of a joiner's late list, padding included, comes right behind its successor |
| `Lookups.HopsAdvance` | src/find_successor.cpp:122-149 | each forward goes to a member with strictly fewer members left before id |
| `Lookups.LookupIsBounded` | src/find_successor.cpp:122-149 | a lookup is forwarded at most once per member between start and id |
| `Lookups.LocalAnswerIsRight` | src/find_successor.cpp:219-230 | a node whose successor is the next member answers with the first member at or after id |
| `Lookups.LookupIsRight` | src/find_successor.cpp:81-176 | when all list entries are members and every front is the next member, predecessors set or not, the relayed answer is the first member at or after id |
| `Lookups.SettledLookupsAreRight` | src/find_successor.cpp:81-176 | nine rounds after the ring became ideal every lookup ends with the right answer, no assumption on lists needed |
| `FastLookups.HopIsClosestIff` | src/find_successor.cpp:250-258 | on a list that walks the ring the hop is the listed member nearest before id, if and only if it is not so that the very last entry lies before id and another listed one lies between |
| `FastLookups.ClosestMayBeMissed` | src/find_successor.cpp:250-258 | in a ring of three, whose lists go round more than once, a lookup takes the farther of two members |
| `FastLookups.LookupTakesTenths` | src/find_successor.cpp:122-149 | with more than ten members settled, a lookup with m members ahead is forwarded exactly m/10 times, rounded up |
| `FastLookups.SettledRingIsFast` | src/find_successor.cpp:122-149 | nine rounds after the ring became ideal it is settled in that sense |
| `Notifications.PredecessorIsNearest` | src/notify.cpp:86-115 | after any notifications the predecessor is the candidate nearest before self, self counting as farthest |
| `Notifications.NotificationsCommute` | src/notify.cpp:86-115 | order and repetition of notifications do not matter |
| `Messages.Stabilize.CreateRequest` | src/stabilize.cpp:178-195 | asks the successor for its predecessor and list, or gives up and lowers the flag |
| `Messages.Stabilize.HandleGetPredAndSuccList` | src/stabilize.cpp:82-145 | the list answer's effect on table, flag, deadline, dependencies and requests sent |
| `Messages.Stabilize.HandleGetSelfAndSuccList` | src/stabilize.cpp:147-161 | the closer node's list is adopted, the flag lowered, the new successor notified |
| `Messages.Stabilize.HandleNotification` | src/stabilize.cpp:46-80 | a failed sub-request ends the message and lowers the flag, others go to their phase |
| `Messages.Stabilize.HandleFailed` | src/stabilize.cpp:203-212 | only a failure in the first phase drops the successor; any lowers the flag |
| `Correspondence.StartFollowsRing` | src/stabilize.cpp:178-195 | the first request of a message goes where the ring's step says, to the successor |
| `Correspondence.ListAnswerFollowsRing` | src/stabilize.cpp:82-145 | same table as in the ring; the closer node is asked, by its name, exactly when the ring's node asks it, the successor notified exactly when the ring notes it, and the flag lowered exactly then |
| `Correspondence.EmptyAnswerFollowsRing` | src/stabilize.cpp:89-97 | an empty answer drops, lowers the flag and notifies as the ring's drop does |
| `Correspondence.CloserAnswerFollowsRing` | src/stabilize.cpp:147-161 | the closer node's answer is adopted, and notified, as in the ring |
| `Correspondence.NobodyIsNotified` | src/notify.cpp:35-44 | a node without a name notifies nobody, but waits for the notification |
| `Correspondence.NotificationAnswered` | src/stabilize.cpp:163-167 | the answered notification ends the message in success |
| `Correspondence.FailureReported` | src/stabilize.cpp:58-64 | a failed sub-request ends it in failure and leaves the table alone |
| `Correspondence.TimeIsUp` | src/stabilize.cpp:203-212 | running out of time drops the front in the first phase only, the other entries stay |
| `Maintenance.AnswerIsTakenOver` | src/stabilize.cpp:109-129 | entry by entry: the successor, then the list answered behind the predecessor, or a lone predecessor |
| `Maintenance.AnswersTellTheList` | src/get_self_and_succ_list.cpp:60-93 | both answers carry the whole list behind self or predecessor |
| `Messages.Notification.HandleRequest` | src/notify.cpp:66-126 | sets the predecessor when there is none or the notifier is nearer, and answers only if there was one |
| `Messages.HandlePredAndSuccListRequest` | src/get_pred_and_succ_list.cpp:60-97 | predecessor in front of the successor list, nothing without a predecessor |
| `Messages.HandleSelfAndSuccListRequest` | src/get_self_and_succ_list.cpp:60-93 | self in front of the successor list |
| `Messages.Join.HandleNotification` | src/join.cpp:46-114 | query, lookup and list request follow each other; the table changes in the last two phases only, and only the last or a failure ends the message |
| `Messages.LookupHandler.HandleRequest` | src/find_successor.cpp:81-149 | answers locally or forwards the same id to the closest preceding node |
| `Messages.LookupHandler.HandleForwardedResponse` | src/find_successor.cpp:151-176 | the forwarded answer is passed back unchanged |
| `StabilizeFlag.FlagIsAlwaysAwaited` | src/stabilize.cpp:46-212 | in every reachable state a raised flag means an unfinished message still awaits a list |
| `StabilizeFlag.NeverWedged` | include/peerpaste/message_handler.hpp:95-114 | once deadlines have passed, a cleaning pass lowers the flag and the next loop starts a new message |
| `StabilizeFlag.OnlyPopsDrop` | src/stabilize.cpp:46-212 | any event leaves the table alone, replaces the whole list, or is a pop, by a first request that expired or was answered with no peers |
| `StabilizeFlag.PopsAtMostOnce` | src/stabilize.cpp:203-212 | each message pops the successor at most once, and never after its first phase |
| `StabilizeFlag.DropsAtMostOnce` | src/stabilize.cpp:46-212 | counted by what happens to the table: over any run each message makes the list shorter at most once, and never after its first phase |
| `StabilizeFlag.ExclusiveIffOwnFailure` | src/stabilize.cpp:203-212 | an event keeps at most one message waiting under a raised flag if and only if it is not the failure of another message |
| `StabilizeFlag.TwoMayWaitAtOnce` | include/peerpaste/message_handler.hpp:157-161 | a concrete run, no message expiring before its deadline, after which two messages wait for lists at once |
| `MessageTrees.FailsIffDoomed` | src/messaging_base.cpp:83-118 | a check fails exactly when a chain of essential dependencies through unfinished messages ends in an expired or failed one |
| `MessageTrees.VerdictSticks` | src/messaging_base.cpp:86-115 | when a failed verdict is given again by the next check |
| `MessageTrees.DoneIffDoomed` | src/messaging_base.cpp:83-118 | a check leaves a message done if and only if it was done or such a chain exists |
| `MessageTrees.CheckedMessage` | src/messaging_base.cpp:83-118 | the state, verdict and dependencies a check leaves, by whether and how the message was doomed |
| `MessageTrees.CheckedDependencies` | src/messaging_base.cpp:100-109 | exactly the dependencies up to the first doomed essential one are checked |
| `MessageTrees.Message.CheckState` | src/messaging_base.cpp:83-118 | the recursive check of message objects does to the whole tree what the function on trees says |
| `MessageTrees.Message.CheckDependencies` | src/messaging_base.cpp:100-109 | `any_of` stops at the first essential failure and leaves the rest unchecked |
| `Storages.StaticStorage.CreateFile` | src/storage.cpp:85-144 | a writer at the recorded offset, unless the file is finished, being written, or recorded but gone |
| `Storages.CreatingMeans` | src/storage.cpp:97-144 | a new file starts empty with its announced size and hash entered, a known one stays as it is; other files are not touched |
| `Storages.StaticStorage.Write` | include/peerpaste/storage.hpp:52-63 | writes at the offset and records where the chunk began |
| `Storages.WritingMeans` | include/peerpaste/storage.hpp:52-56 | byte by byte: data at its offset, zeros in a gap, everything else as before |
| `Storages.StaticStorage.Close` | include/peerpaste/storage.hpp:24-32 | a destroyed writer releases its own token and no other |
| `Storages.StaticStorage.FinalizeFile` | src/storage.cpp:146-188 | only a blocked, unfinished file that is on disk with the announced hash becomes finished |
| `Storages.FinishingNeedsTheHash` | src/storage.cpp:164-187 | a file being received becomes finished if and only if its hash is the announced one, entered with its size, and freed of row and writer |
| `Storages.OpKeepsGenuine` | src/storage.cpp:85-188 | finished files go on having the size and hash recorded for them, whatever is done |
| `Storages.StaticStorage.SyncFiles` | src/storage.cpp:24-57 | on start the finished files are the directory's files without a row |
| `Storages.SyncedFiles` | src/storage.cpp:24-57 | after a start exactly the files on disk without a row are finished, each once, with size and hash |
| `Storages.RestartFreesNames` | src/storage.cpp:4-18 | after a restart no name is blocked, and disk and table are as before |
| `Storages.StaticStorage.ExistsInternal` | src/storage.cpp:282-286 | whether a finished file has the name |
| `Storages.StaticStorage.IsBlockedInternal` | src/storage.cpp:276-280 | whether a live writer has the name |
| `Storages.StorageStaysSound` | src/storage.cpp:85-188 | in every reachable state: one live writer a name at most, finished names distinct, without live writer or row |
| `FileTransfers.ChunksMakeUpTheFile` | src/get_file.cpp:211-238 | from offset o the chunks follow without gap, add up to the rest, and are (L-o)/1024 + 1 |
| `FileTransfers.FileSender.WriteFile` | src/get_file.cpp:178-239 | one chunk per call, ending with a short read and renewing the deadline; a failed write ends the message but goes on sending, a failed read ends it and sends nothing |
| `FileTransfers.FileSender.SendAll` | src/get_file.cpp:80-125 | when all writes succeed the loop ends having sent exactly those chunks |
| `FileTransfers.HandleChunk` | src/get_file.cpp:127-171 | write the chunk; at the announced size finalize, otherwise go on |
| `FileTransfers.ReceiveKeepsOk` | src/get_file.cpp:147-168 | finalization is reached only when the whole partial file is the source, and then succeeds |
| `FileTransfers.TransferRebuildsTheFile` | include/peerpaste/storage.hpp:52-63 | from storage without the file, over any interruptions, restarts and other files' traffic: the recorded bytes are the source's first bytes, and a finished file is the source |
| `FileTransfers.RunRecords` | include/peerpaste/storage.hpp:58-62 | over any run the table records where the last chunk received began, and that never falls |
| `FileTransfers.ResumesWhereItStopped` | src/storage.cpp:97-108 | a transfer begun again after any run starts at exactly that chunk, from zero if there was none |
| `FileTransfers.ResumedTransferCompletes` | src/get_file.cpp:127-171 | and then finishes with exactly the chunks needed from there |
| `FileTransfers.InterruptedCanResume` | include/peerpaste/storage.hpp:24-32 | an attempt cut short by the connection or a restart can always be begun again |
| `FileTransfers.TransferCompletes` | src/get_file.cpp:127-171 | left alone, a transfer finishes after exactly max(1, ceil((L-o)/1024)) chunks |
| `Broadcasts.BroadcastFilelist.CreateRequest` | src/broadcast_file_list.cpp:52-89 | the originator sends its finished files to its successor with itself as the one visitor |
| `Broadcasts.BroadcastFilelist.HandleRequest` | src/broadcast_file_list.cpp:91-172 | stops a list seen before; otherwise fetches what is missing from the first visitor and passes the list on |
| `Broadcasts.BroadcastFilelist.FetchMissing` | src/broadcast_file_list.cpp:114-127 | one fetch for each listed name not finished when its turn comes |
| `Broadcasts.BroadcastFilelist.HandleNotification` | src/broadcast_file_list.cpp:42-50 | a report of a fetch extends the deadline, and finishes the message once all have ended, unless the list is still being gone through |
| `Broadcasts.EveryMissingFileIsFetchedOnce` | src/broadcast_file_list.cpp:114-127 | a file is being fetched exactly once if it is listed and can be created, however often listed, and not at all otherwise |
| `Broadcasts.OnlyMissingFilesAreFetched` | src/broadcast_file_list.cpp:114-127 | nothing finished is fetched, everything comes from the originator, and finished files stay as they are |
| `Broadcasts.FetchesResume` | src/broadcast_file_list.cpp:114-127 | each running fetch asks for a listed file, from the recorded offset if there is one |
| `Broadcasts.SomeFetchRunsIff` | src/broadcast_file_list.cpp:114-127 | some fetch is running afterwards if and only if some listed file can be created |
| `Broadcasts.ReportFinishesIff` | src/broadcast_file_list.cpp:42-50 | a message is finished exactly by a report after which no fetch is running |
| `Broadcasts.FinishesIffRunning` | src/broadcast_file_list.cpp:42-50 | reports of its fetches can finish a message if and only if it is finished or some fetch is running |
| `Broadcasts.ListFinishesIff` | src/broadcast_file_list.cpp:113-171 | reports can finish a list passed on if and only if nothing listed is missing or something listed can be created |
| `Broadcasts.AListIsStuck` | src/broadcast_file_list.cpp:113-171 | a concrete sound storage and list for which no report ever does |
| `Broadcasts.BroadcastStops` | src/broadcast_file_list.cpp:102-165 | whatever the successors and however they change: no visitor twice, originator first, files unchanged, at most as many sends as members |
| `Broadcasts.BroadcastCoversTheRing` | src/broadcast_file_list.cpp:102-165 | on an ideal ring the list stops exactly at its n-th send, at the originator, when all members have handled it |
| `Broadcasts.BroadcastEnds` | src/broadcast_file_list.cpp:52-165 | the walk ends on any successor graph, and covers an ideal ring with one send a member |
| `Broadcasts.RestingRingIsCovered` | src/broadcast_file_list.cpp:52-165 | once nothing is left to stabilize, every member's list reaches every member |
| `Wires.EncodeHeader` | include/peerpaste/consumer.hpp:191-199 | writes the length into the first four bytes, most significant first, and nothing else |
| `Wires.DecodeHeader` | src/boost_session.cpp:199-209 | the accumulator loop computes the number the header holds, 0 for a short buffer |
| `Wires.MakeFrame` | include/peerpaste/consumer.hpp:146-157 | header and payload, the length taken modulo 2^32 |
| `Wires.HeaderKeepsLowBits` | src/boost_session.cpp:199-219 | decoding an encoded length gives it modulo 2^32 |
| `Wires.MostSignificantFirst` | include/peerpaste/consumer.hpp:191-199 | the first byte of a header weighs most |
| `Wires.ReadBackIffItFits` | src/boost_session.cpp:162-209 | a message is read back whole if and only if it is shorter than 2^32 bytes |
| `Wires.StreamIsReadBack` | src/boost_session.cpp:146-197 | repeated reads return exactly the payloads in order, and nothing of a frame cut short |
| `Wires.Reader.Read` | src/boost_session.cpp:146-197 | one read delivers one message or stops the session |
| `Wires.Session.QueueMessage` | src/boost_session.cpp:107-125 | queues the frame and starts a write only if none was in progress |
| `Wires.Session.PacketSendDone` | src/boost_session.cpp:127-144 | a written frame leaves the queue and the next is started; after an error nothing more is |
| `Wires.StopsOnErrorsOnly` | src/boost_session.cpp:127-144 | the session stops exactly on an error that is not a cancellation |
| `Wires.WireKeepsOrder` | src/boost_session.cpp:107-144 | over any run one write is outstanding exactly while the queue is non-empty and no error occurred, and the other side reads the sent messages in order |
| `Handlers.ConcurrentDeque.Clean` | include/peerpaste/concurrent_queue.hpp:122-137 | every message is checked once, and what stays is exactly the multiset of those not done |
| `Handlers.VisitCounts` | include/peerpaste/concurrent_queue.hpp:125-135 | filling the gap from the back loses and repeats no message |
| `Handlers.FoundIffPresent` | include/peerpaste/concurrent_request_handler.hpp:45-49 | the ordered set finds a handler exactly when one with the key is registered |
| `Handlers.InsertKeepsOrder` | include/peerpaste/concurrent_request_handler.hpp:61-65 | a key already taken keeps its handler |
| `Handlers.ConcurrentSet.GetAndEraseIf` | include/peerpaste/concurrent_request_handler.hpp:40-59 | returns the handler of the key and erases it only if allowed |
| `Handlers.ConcurrentSet.EraseIf` | include/peerpaste/concurrent_request_handler.hpp:73-90 | the iterator loop removes exactly the handlers the predicate holds of |
| `Handlers.MessageHandler.HandleResponse` | include/peerpaste/message_handler.hpp:179-208 | the response goes to the handler of its id if that handler's message still exists |
| `Handlers.HandlersAreCalledOnce` | include/peerpaste/message_handler.hpp:68-78 | over any run a handler only gets responses carrying its key, and one not persistent gets at most one |
| `Handlers.HandlerGetsItsResponses` | include/peerpaste/message_handler.hpp:179-208 | while its message lives, a persistent handler is called for every response with its key, any other for exactly the first |
| `Handlers.RegisteredHandlerIsCalled` | include/peerpaste/message_handler.hpp:74-78 | so from its registration under a free key on, after any run |

## Left out

- RingInvariants.StepKeepsInv: drops and predecessors given up are not steps of the plain runs; `Moves.MovesKeepPaths` adds the latter and the drops that cost no path, which `Dropping.DropKeepsPathsIff` tells from the others. Failures and timeouts are not steps of the ring at all.
- RingInvariants.TakePredKeepsInv: the empty answer at a node with more than one entry is a drop, treated in `Dropping`.
- `CheckPredecessor` (src/check_predecessor.cpp) as a message with its flag: of it only the predecessor reset is modelled.
- Sweeps.SweepsSettleLookups: a list splice (`FinishJoin`) during the last nine sweeps is excluded, because a late list may bring padding back.
- SuccessorLists.QuietStepKeepsFilled: links, after which the ring is not ideal, and list splices are excluded.
- That every fair run reaches the ideal ring: a node whose successor knows no predecessor drops it, so sweeps, in which no member is answered with nothing while it has another entry, are assumed to happen.
- `Query`, which may change a node's own id, and the `is_set` flags and condition variable of the routing table.
- Messages.Join.HandleNotification: answers without any peer, on which `front()` of an empty vector is undefined, and a list answer at a node without successor, which inserts behind the end of an empty list, are excluded.
- Messages.LookupHandler.HandleRequest: a node that does not know itself is excluded, since the code then dereferences a null pointer.
- FileTransfers.TransferRebuildsTheFile: interruptions happen between chunks, restarts between calls; crashes inside `create_file`, `write` and `finalize_file` and disk errors are left out, and the source does not change.
- FileTransfers.HandleChunk: the file being received stays on disk.
- FileTransfers.FileSender.SendAll: only successful reads and writes; after a failed write the code goes on with the next chunk, which `WriteFile` models and the transfer theorems do not use.
- Storages.StaticStorage.SyncFiles: the database's own two files are not part of the listing.
- Storages.StaticStorage.FinalizeFile: hashing a file removed from outside raises an error in the library, which is modelled as a refusal.
- Storages.StaticStorage.Close: a token is a numbered entry instead of a shared pointer, so tokens outliving their entry are not represented.
- Wires.Reader.Read: a message cut short makes the session wait for another header; only the end of the connection is modelled as the reason, so the session then stops.
- Handlers.ConcurrentDeque.Clean: messages are trees by value, so two entries sharing a sub-message are not represented.
- Handlers.MessageHandler.HandleResponse: the handler's own code is not run, the call is recorded.
- `write_direct`, sockets, threads, Protobuf, SQLite, encryption, transaction ids and their freshness, and the deprecated request handler.
