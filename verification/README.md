# Verification of a blockchain node: sync protocol, money flows, storage, transport

The project models the parts of the DEIP node whose correctness is least visible from reading one
function, and proves what they are for.

* **Block id negotiation** (`Chain`, `Synopsis`, `SyncPeer`, `PeerSync`, `BlockIdServer`, `ResyncCost`,
  `HonestReply`, `PeerListSafety`, `SyncInterleaved`, `SyncRun`). A node that needs blocks names some of its own at halving distances; the peer
  answers with a run of ids; the node checks the run and splices it into its list. A chain is a sequence of ids,
  an id is a free hash of the previous id and other header contents, so one shared id forces a shared history.
  `PeerListSafety` lets the peer send anything and `SyncInterleaved` takes an honest one; in both, requests, replies,
  blocks taken off the list, blocks accepted, blocks exchanged outside synchronisation and changes of the node's own
  chain come in any order. `SyncRun` follows an honest synchronisation to its end, with nothing between a request and
  its reply.
* **Requesting and processing sync blocks** (`SyncScheduler`, `Backlog`). Which peer is asked for which block, and
  the order in which received blocks reach the delegate. Every handler or loop iteration is one atomic step.
* **Requesting items outside synchronisation** (`ItemQueue`).
* **Money** (`Ledger`, `Quotients`, `Vesting`, `Awards`, `AwardPayments`, `Licensing`). Every quotient is rounded
  down as in the source.
* **Storage and encoding** (`Sequences`, `Bytes`, `BlockLog`, `Merkle`, `Transport`, `GenesisText`). Files and streams are byte
  sequences; the block packer and the block cipher are parameters with the one law they are used for.

Code that changes fields step by step is a class whose methods are proved against a function of the old state;
the protocol-level results are lemmas about that function and about runs of it.

What the code does differently from what it is meant to do is stated as it is, with a condition that says exactly
when the intention holds:

* Withdrawing from a vesting contract lowers `balance` and raises `withdrawn`, and the schedule is computed from
  the lowered balance. The check on the allowance then fails for more than half the deposit, and the rest stays
  locked (`Vesting.AllowanceNonNegativeIff`, `Vesting.RestIsLocked`). Genesis stores the duration as the cliff, so its
  contracts grant everything at the end and nothing before (`Vesting.GenesisContractsVestAtOnce`).
* Validation of an award compares a sub-award with what it passes on only when its source is not the main awardee,
  so a recipient's total can be negative (`Awards.TotalsPositiveIff`). Its search for sub-awards that are each other's
  source never decides (`Awards.CycleCheckIsRedundant`).
* Approving an award needs a supply strictly above the award, creating it only one that covers it
  (`Awards.WholeSupplyIsRefused`).
* A sync block its peer refuses to send stays recorded as on its way, and synchronisation asks no peer for it again.
  This happens by refusals and by nothing else (`SyncScheduler.StrandedExactlyByRefusals`).
* A backlog pass ends at the first block that had been accepted before, although later blocks may be ready
  (`Backlog.AcceptedBlockStopsPass`; exactly when, `Backlog.PassLeavesReadyIff`). It cannot happen when no accepted
  block among those waiting is on a list (`Backlog.PassIsExhaustive`).
* The node's half of a synopsis need not fit the delegate's half when blocks are being processed in between
  (`SyncPeer.JoinWithGapSkipsAHeight`). It does fit exactly under a condition on three lengths
  (`SyncPeer.SeamlessIff`): none is being processed, or the blocks from the delegate's start up to the first
  pending one number at most one more than those pending, or one is being processed and the distances happen to halve evenly.
* The request loop reads past the end of the pending ids when the delegate's part starts above the last of them
  (`SyncPeer.RequestInRangeIff`, and a run that gets there, `PeerListSafety.RequestCanRunOut`).
* When a reply empties the list, the handler asserts that the delegate has its first block. A peer that switches
  forks at the wrong moment makes this fail (`PeerListSafety.EmptiedListCanStartUnknown`). Some reply can do so
  exactly when a block named in the request is off the list, being worked on and not yet accepted
  (`PeerListSafety.EmptiedListStartsKnownIff`).
* A block taken off the list between a request and its reply can be listed again while it is being worked on. A reply
  that meets an empty list lists all its blocks the delegate lacks (`SyncInterleaved.ListsAgainIff`), or, behind
  another peer's front, all its blocks (`SyncInterleaved.ListsAgainBehindOthersIff`); one that meets a list
  adds a range of block numbers (`SyncInterleaved.ListsAgainBehindListIff`).
* With blocks being processed between those summarised and those pending, a fork can cost more repeated ids than the
  requester has blocks past it (`ResyncCost.GapCanCost`; how many at most, `ResyncCost.ResyncCostBound`).
* A node whose last irreversible block is not on the responder's chain gets an empty answer and takes itself to be in
  sync (`SyncRun.FalseSyncIff`). The other results of `SyncRun` assume that the block is shared; that every reply
  passes the checks does not need it (`HonestReply.EveryReplyFits`).
* A reply limit of one id makes no progress (`SyncRun.ProgressNeedsTwo`).
* The index of a log of one block is not rebuilt (`BlockLog.OpenRestoresIndexIff`, `BlockLog.LostIndexOfOneBlock`),
  and an index cut inside an entry can be taken for complete (`BlockLog.TornIndexCanBeTrusted`,
  `BlockLog.TornIndexHappens`).
  The comment at libraries/chain/block_log.cpp:122-126 says that an outdated index is continued from its end; the
  code rebuilds it from the start, and the model follows the code.
* The shortest octal escape swallows a following octal digit (`GenesisText.GenesisRoundTrip`).
* The queue of wanted items is ordered only as long as waiting items span at most half of the 32-bit counter's
  range (`ItemQueue.TotalExactlyOnHalfTheRange`).

## Model

| member | source | states |
|---|---|---|
| Chain.ChainPrefix | libraries/protocol/block.cpp:13-27 | a block's number is its position, and its id determines the whole chain below it |
| Chain.SharedIdSharesHistory | libraries/protocol/block.cpp:18-27 | two chains that share an id have it at the same height and are equal below it |
| Chain.IncludedIsPrefix | libraries/app/application.cpp:618-634 | a block counts as included exactly when its chain is the start of the preferred chain |
| Synopsis.HeightsShape | libraries/app/application.cpp:896-907 | the halving recurrence visits strictly rising heights from low to exactly the end, floor(log2 n) + 1 of them for n heights |
| Synopsis.HeightsHalveTheGap | libraries/app/application.cpp:896-907 | for every height f the highest visited height e at or below it leaves f - e at most as large as the distance from f to the end |
| Synopsis.HeightsSplit | libraries/net/node.cpp:2631-2636 | the heights the delegate visits followed by those the node visits are those of one loop |
| Synopsis.HeightsFromShape | libraries/net/node.cpp:2631-2637 | the node's part rises strictly, stays in the pending range and ends at its last height |
| Synopsis.CommonHeight | libraries/app/application.cpp:832-850 | the number of blocks two chains share from the bottom: equal below it, different at it |
| Synopsis.GetBlockIdsOnFork | libraries/chain/database/database.cpp:384-402 | the fork's blocks newest first down to what the preferred chain shares, then the common ancestor; at least two entries |
| Synopsis.DescendTo | libraries/chain/database/database.cpp:388-389 | walking previous ids down from the head reaches the block at the fork head's height |
| Synopsis.MeetBelow | libraries/chain/database/database.cpp:388-398 | walking both branches down stops exactly at the last shared block |
| Synopsis.ForkHistoryReversed | libraries/app/application.cpp:839-851 | reversed and without the ancestor it is the chain above the fork, and the ancestor's number is the fork height |
| Synopsis.LocateReference | libraries/app/application.cpp:797-885 | every height to be summarised has its block on the preferred chain or at a valid index of the fork history; an unknown reference and a fork below the undoable blocks are errors |
| Synopsis.CollectSynopsis | libraries/app/application.cpp:894-907 | the do-loop over both vectors yields what a loop over the one summarised chain yields |
| Synopsis.SampleIsBlocksAt | libraries/app/application.cpp:896-907 | that loop is the list of blocks at the heights of the recurrence |
| Synopsis.GetBlockchainSynopsis | libraries/app/application.cpp:786-917 | the delegate's synopsis is the blocks of the summarised chain at the recurrence's heights, in every case and error case |
| Synopsis.ChainSynopsisEntries | libraries/app/application.cpp:896-907 | every entry's block number is the height it stands for, heights rise, the first is low and, with nothing following, the last is the end |
| Synopsis.SynopsisBeginsAndEnds | libraries/app/application.cpp:797-907 | a synopsis starts at the last irreversible block, at an older reference block on the preferred chain, or at block 1; it names only the reference block or head and blocks below it, and ends there when nothing follows |
| Synopsis.NoSynopsisIff | libraries/app/application.cpp:833-874 | none can be made exactly for an unknown reference block, or one on a fork whose history lacks the last irreversible block |
| SyncPeer.PendingSampleNumbers | libraries/net/node.cpp:2631-2637 | the pending ids named rise in number, wherever the loop starts |
| SyncPeer.PendingSampleEnds | libraries/net/node.cpp:2631-2637 | from any starting height in range the loop names only pending ids and ends with the last one |
| SyncPeer.JoinedSynopsisShape | libraries/net/node.cpp:2621-2638 | whatever the pending ids are, a request whose first index is in range ends with the last of them, so the final assertion holds |
| SyncPeer.JoinedSynopsisRises | libraries/net/node.cpp:2621-2638 | block numbers of the request rise strictly when the pending ids lie above the summarised chain |
| SyncPeer.DelegateStartsLow | libraries/net/node.cpp:2627-2629 | the node starts from the height the delegate started from |
| SyncPeer.RequestInRangeIff | libraries/net/node.cpp:2623-2637 | a request can be made from pending ids exactly when the height the delegate starts from is no higher than the last of them |
| SyncPeer.SeamlessJoin | libraries/net/node.cpp:2621-2636 | both loops together give the single loop's synopsis when the pending ids follow directly |
| SyncPeer.SeamlessSynopsis | libraries/net/node.cpp:2592-2640 | from the database's state: with the pending ids right after the reference block, delegate loop then node loop equals one loop over main chain, fork and pending ids |
| SyncPeer.SameHeightsIff | libraries/net/node.cpp:2631-2637 | the delegate names the heights one loop over everything would, exactly when the numbers of summarised, processed and pending blocks allow it |
| SyncPeer.SeamlessIff | libraries/net/node.cpp:2621-2637 | with any number of blocks being processed in between, the request is the synopsis of one loop over all blocks exactly under that condition |
| SyncPeer.SeamlessRequestIff | libraries/net/node.cpp:2592-2640 | the same from the database's state |
| SyncPeer.JoinWithGapSkipsAHeight | libraries/net/node.cpp:2627-2636 | with a gap before the pending ids the joined request can miss a height a single loop names |
| PeerSync.KnownPrefix | libraries/net/node.cpp:2823-2838 | the longest prefix of a reply the delegate has |
| PeerSync.CutAt | libraries/net/node.cpp:2856-2862 | what popping from the back leaves: a prefix that ends with the id looked for, which does not occur after it |
| PeerSync.PeerConnection.CreateBlockchainSynopsis | libraries/net/node.cpp:2592-2640 | for every list the method returns the two-part synopsis, the delegate's error, or an error where the source reads past the pending ids |
| PeerSync.PeerConnection.AppendPending | libraries/net/node.cpp:2631-2637 | the do-loop appends the pending ids at the heights of the recurrence, its indices in range |
| PeerSync.PeerConnection.FetchNextBatchOfItemIds | libraries/net/node.cpp:2642-2671 | a request is recorded exactly when a synopsis can be made; only a fork too old to switch to disconnects, other errors are not caught; nothing else changes |
| PeerSync.PeerConnection.CheckReply | libraries/net/node.cpp:2684-2757 | a reply passes exactly when it is empty, or numbered without gaps and starts in what was asked |
| PeerSync.PeerConnection.OnBlockchainItemIdsInventory | libraries/net/node.cpp:2673-2956 | the handler's whole effect on the peer's state and its next action, for every reply |
| PeerSync.PeerConnection.Absorb | libraries/net/node.cpp:2799-2887 | the list and last seen block after splicing |
| PeerSync.PeerConnection.DropKnown | libraries/net/node.cpp:2821-2842 | exactly the known prefix is dropped and its last id remembered |
| PeerSync.PeerConnection.MakeRoomFor | libraries/net/node.cpp:2856-2880 | the list is cut before the first received id; if that empties it the first received id becomes the last seen block |
| PeerSync.PeerConnection.StartSynchronizing | libraries/net/node.cpp:4259-4269 | restarting clears the list and the last seen block and asks for blocks again, and a request can then be made from any database |
| BlockIdServer.LastRecognised | libraries/app/application.cpp:663-676 | the entry found is on our chain and no later entry is; none is found only when none is |
| BlockIdServer.FindLastRecognised | libraries/app/application.cpp:661-681 | the backward loop finds that entry |
| BlockIdServer.CollectIds | libraries/app/application.cpp:683-691 | the result is a contiguous run of the chain starting at the asked block, with the exact count of blocks after it |
| BlockIdServer.GetBlockIds | libraries/app/application.cpp:636-693 | the answer for every synopsis: the run from the highest recognised entry, all from block 1, or an unreachable fork |
| BlockIdServer.OnFetchBlockchainItemIds | libraries/net/node.cpp:2477-2552 | the reply sent, whether the peer is considered in need of blocks, whether synchronisation with it restarts, and whether it is disconnected |
| HonestReply.ReplyIsStretch | libraries/app/application.cpp:683-691 | every reply is empty or a stretch of the chain with the exact count of blocks after it |
| HonestReply.EveryReplyFits | libraries/net/node.cpp:2684-2757 | every reply of every honest responder passes the checks, whatever blocks either node has |
| HonestReply.LateReplyFitsIff | libraries/net/node.cpp:2714-2756 | a reply that meets a later request passes exactly when it starts at a block named there |
| HonestReply.AnswerAfter | libraries/app/application.cpp:663-691 | a request that ends with a block of the responder is answered from that block on |
| HonestReply.StillNeedsIff | libraries/net/node.cpp:2498-2515 | the responder stops counting a peer as in need exactly when it has no blocks, recognises none of those named, or its head is the last it recognises |
| HonestReply.TakeExtension | libraries/net/node.cpp:2847-2891 | a reply that starts at the last listed block extends the list and changes nothing else, wherever the delegate is |
| SyncRun.ExchangeWithPending | libraries/net/node.cpp:2847-2891 | with ids pending, an exchange with nothing in between extends the list by the responder's next blocks and changes nothing else |
| SyncRun.ExchangeCaughtUp | libraries/net/node.cpp:2774-2891 | with all named blocks delivered, such an exchange lists the unknown rest, or ends synchronisation at the responder's head |
| SyncRun.ExchangeFromNothing | libraries/app/application.cpp:652-691 | a node without blocks gets the responder's chain from block 1 |
| SyncRun.FirstRequest | libraries/app/application.cpp:663-691 | a first synopsis names a block both have, and the reply starts at it |
| SyncRun.ExchangeIsGood | libraries/net/node.cpp:2684-2956 | with a shared irreversible block, such an exchange keeps the invariant, lowers the number of unnamed blocks until it is 0, and ends synchronisation only when nothing is missing |
| SyncRun.ProgressNeedsTwo | libraries/app/application.cpp:683-691 | an exchange names something new exactly when the limit is at least 2 |
| SyncRun.FalseSyncIff | libraries/net/node.cpp:2774-2797 | a node is told it is in sync while it lacks blocks exactly when its last irreversible block is not shared and it lacks the last block |
| SyncRun.ExchangeWithoutAgreement | libraries/app/application.cpp:678-681 | without a shared irreversible block the first answer is empty and is taken as in sync |
| SyncRun.BeginningIsDriven | libraries/net/node.cpp:4259-4268 | a node that begins to synchronise with a shared irreversible block is in a state from which the results on driven runs hold |
| SyncRun.StartingOverIsDriven | libraries/net/node.cpp:4259-4268 | so is one that starts over, whatever it remembered of the peer |
| SyncRun.AskingGoesOn | libraries/net/node.cpp:2920-2956 | a round of asking, done when the handler says so, keeps the invariant and brings the end nearer |
| SyncRun.DeliveringGoesOn | libraries/net/node.cpp:3860-3882 | a block fetched and accepted does so too |
| SyncRun.EveryDrivenRunEnds | libraries/net/node.cpp:2920-2956 | a node that follows the actions its handler returns is done after a bounded number of moves; once all is named its list is exactly the missing blocks; in sync means nothing is missing |
| SyncRun.EveryDrivenRunIsBounded | libraries/net/node.cpp:2920-2956 | over every such run the list stays within 10000 ids and one reply, and blocks are fetched with ids left to name only from 9999 on |
| SyncRun.CanGoOn | libraries/net/node.cpp:2920-2956 | until then there is always a next move |
| SyncRun.CanReachSync | libraries/net/node.cpp:2920-2956 | from every state of such a run synchronisation can be completed |
| SyncRun.NotInNeedMeans | libraries/net/node.cpp:2498-2515 | a requester the responder no longer counts as in need has or lists all of its blocks |
| SyncRun.NegotiateOnce | libraries/net/node.cpp:2454-2956 | the methods of both nodes, composed, perform such an exchange, and the responder's verdict means that |
| ResyncCost.OnlySharedBlocksRecognised | libraries/app/application.cpp:665-671 | of the requester's blocks the responder recognises exactly those up to the fork |
| ResyncCost.HighestShared | libraries/app/application.cpp:663-676 | of a rising synopsis the entry chosen is the highest at or below the fork |
| ResyncCost.HighestNamed | libraries/net/node.cpp:2621-2637 | how far below a height the highest one named by both loops together can be, with any number of blocks being processed in between |
| ResyncCost.GapCanCost | libraries/net/node.cpp:2627-2636 | lengths for which that distance is reached: eight blocks offered again with two past the fork |
| ResyncCost.ResyncCostBound | libraries/app/application.cpp:663-691 | the reply to the request starts at its highest entry at or below the fork; the blocks re-offered number at most those past the fork when none is being processed, and keep a bound by the three lengths otherwise |
| PeerListSafety.MergeKeepsRun | libraries/net/node.cpp:2805-2891 | dropping, cutting and splicing keep a list of consecutive blocks |
| PeerListSafety.StepKeepsRun | libraries/net/node.cpp:2684-2891 | every event, replies of any content and blocks exchanged outside synchronisation included, keeps it |
| PeerListSafety.EveryRunKeepsOneRun | libraries/net/node.cpp:2684-2891 | over every run, whatever the peer sends and whatever happens between request and reply, the list is consecutive block numbers with no id twice |
| PeerListSafety.NamedStaysAccountedFor | libraries/net/node.cpp:2642-2662 | over every run each id of an outstanding request is had, listed or being worked on while the list is not empty |
| PeerListSafety.EmptiedListStartsKnown | libraries/net/node.cpp:2863-2875 | with neither the list nor the node's blocks changed since the request, a reply that empties the list starts with a block the delegate has |
| PeerListSafety.EmptiedListStartsAccountedFor | libraries/net/node.cpp:2863-2875 | over every run and for every reply that empties the list, the delegate has its first block or is working on it |
| PeerListSafety.EmptiedListBecomesReply | libraries/net/node.cpp:2863-2891 | the last seen block and the list are then together the reply |
| PeerListSafety.EmptiedListStartsKnownIff | libraries/net/node.cpp:2863-2875 | over every run, some reply can make the assertion there fail exactly when, with ids listed, a block named in the request is off the list, being worked on and not yet accepted |
| PeerListSafety.EmptiedListCanStartUnknown | libraries/net/node.cpp:2863-2875 | a run in which that assertion fails |
| PeerListSafety.RequestCanRunOut | libraries/net/node.cpp:2623-2634 | a run after which the next request would read past the end of the pending ids |
| SyncInterleaved.ReplyExtendsList | libraries/net/node.cpp:2847-2891 | with ids listed, a reply extends the list by the responder's next blocks and does nothing else, whatever was taken off or accepted since the request |
| SyncInterleaved.ReplyFillsList | libraries/net/node.cpp:2774-2845 | with nothing listed, the list becomes the reply without the blocks the delegate has, or synchronisation ends |
| SyncInterleaved.EventKeepsInv | libraries/net/node.cpp:2642-2956 | every event keeps the list a stretch of the responder's chain and an outstanding request ending with its last block |
| SyncInterleaved.EveryRunIsSafe | libraries/net/node.cpp:2642-2956 | in every state of every run with an honest responder that holds, the reply to an outstanding request passes the checks, and it ends synchronisation only when nothing is missing or nothing named was recognised |
| SyncInterleaved.InSyncMeans | libraries/net/node.cpp:2774-2797 | what being told in sync says about the blocks of both nodes |
| SyncInterleaved.ListsAgainIff | libraries/net/node.cpp:2805-2845 | a reply that meets an empty list lists a block, being worked on or not, exactly when it has it and the delegate does not |
| SyncInterleaved.ListsAgainBehindOthersIff | libraries/net/node.cpp:2811-2826 | when it starts with another peer's front it lists every block it has, unless it says there is nothing new |
| SyncInterleaved.ListsAgainBehindListIff | libraries/net/node.cpp:2847-2891 | a reply that meets a list newly lists exactly the blocks numbered above all those named and up to the responder's limit |
| SyncInterleaved.LastNamedIsListedAgain | libraries/net/node.cpp:2805-2845 | the last block named is listed again when all were taken off before the reply and it is not accepted yet |
| SyncInterleaved.ReplyNamesMoreIff | libraries/app/application.cpp:683-691 | with ids listed, a reply names something new exactly when something is left and the limit is at least 2 |
| SyncScheduler.PickIsComplete | libraries/net/node.cpp:1150-1175 | a batch holds free ids of the list, each once; it is full or nothing free is left |
| SyncScheduler.PickIsEarliest | libraries/net/node.cpp:1150-1175 | it holds the earliest free ids, in the order of the list |
| SyncScheduler.PlanIsGood | libraries/net/node.cpp:1136-1179 | after a pass every idle, needing, uninhibited peer has a full batch or nothing left to ask for, and no block is asked of two peers |
| SyncScheduler.PassServes | libraries/net/node.cpp:1136-1179 | a pass asks exactly the active, needing, idle and uninhibited peers, for listed blocks neither received nor on the way, up to the limit or until nothing is free, and touches no other |
| SyncScheduler.EventKeepsDisjoint | libraries/net/node.cpp:1108-1122 | every event keeps outstanding requests disjoint and recorded |
| SyncScheduler.EveryRunKeepsDisjoint | libraries/net/node.cpp:1108-1183 | over every run different open peers are never asked for the same block and every request is recorded |
| SyncScheduler.ArrivedIsNotAskedAgain | libraries/net/node.cpp:1154-1158 | over every run a block that was asked for and arrived is asked of nobody until it is taken out of the received ones |
| SyncScheduler.MisbehavingPeerIsNotAsked | libraries/net/node.cpp:3085-3101 | over every run a peer that refused a block, or sent one that was not asked for, is asked for nothing more until something else changes it |
| SyncScheduler.RefusalStrands | libraries/net/node.cpp:3085-3101 | a refused block leaves the peer's set but stays recorded as on its way |
| SyncScheduler.StrandedForGood | libraries/net/node.cpp:1160-1162 | it is then asked of no peer ever again |
| SyncScheduler.StrandsIff | libraries/net/node.cpp:3085-3101 | an event strands a block exactly when it is the refusal of a block the peer was asked for; none is freed again |
| SyncScheduler.StrandedExactlyByRefusals | libraries/net/node.cpp:1108-1183 | over every run a block is stranded exactly when one of its peers has refused it |
| SyncScheduler.SyncNode.FetchSyncItems | libraries/net/node.cpp:1124-1183 | one round of the loop sends exactly the planned batches |
| SyncScheduler.SyncNode.ScanList | libraries/net/node.cpp:1150-1175 | the inner loop picks the batch |
| SyncScheduler.SyncNode.RequestAll | libraries/net/node.cpp:1108-1122 | sending records every request with its peer and with the node |
| SyncScheduler.SyncNode.ProcessBlock | libraries/net/node.cpp:3860-3871 | a requested block leaves both records, is taken in and held back from further requests; an unrequested one costs the connection |
| SyncScheduler.SyncNode.OnItemNotAvailable | libraries/net/node.cpp:3085-3101 | the peer's record is cleared and the peer inhibited or disconnected |
| SyncScheduler.SyncNode.OnConnectionClosed | libraries/net/node.cpp:3291-3298 | closing frees the peer's outstanding requests |
| Backlog.FirstReady | libraries/net/node.cpp:3555-3571 | the copy taken is the first received one that is next on some peer's list |
| Backlog.RoundConserves | libraries/net/node.cpp:3547-3626 | one turn of the loop loses no copy and duplicates none |
| Backlog.DrainEnds | libraries/net/node.cpp:3547-3641 | a pass never exceeds the limit of blocks in progress, counts what it hands over, suspends fetching exactly at both limits, and otherwise stops only with nothing ready or at a block accepted before |
| Backlog.PassEnds | libraries/net/node.cpp:3505-3641 | the same of a whole pass, which lets fetching go on again unless both limits are reached |
| Backlog.PassIsExhaustive | libraries/net/node.cpp:3505-3641 | a pass below the limit leaves no received block next in line when no waiting block that was accepted before is on any peer's list |
| Backlog.AcceptedBlockStopsPass | libraries/net/node.cpp:3592-3626 | a literal state in which an already accepted block ends the pass although the next block is ready |
| Backlog.LastTurnIff | libraries/net/node.cpp:3571-3626 | a turn that gives nothing to the delegate leaves a block ready exactly when it crosses off an accepted one with another ready behind it |
| Backlog.PassLeavesReadyIff | libraries/net/node.cpp:3505-3641 | a pass below the limit leaves a received block next in line exactly when, from the state it starts in, it comes to such a turn |
| Backlog.ConsumeTakesPrefix | libraries/net/node.cpp:3561-3570 | what leaves a list is its beginning, in the order the blocks were handled |
| Backlog.DrainConsumes | libraries/net/node.cpp:3561-3570 | in a pass every list loses exactly the handled blocks that were at its front in turn |
| Backlog.DrainHands | libraries/net/node.cpp:3582-3599 | the delegate is handed every block handled, in that order, except a last one already accepted |
| Backlog.EveryCopyIsAccounted | libraries/net/node.cpp:3547-3600 | over every run the copies received are those waiting and those handed over |
| Backlog.HandedAtMostOnce | libraries/net/node.cpp:3586-3594 | over every run each copy is handed over at most once |
| Backlog.ArrivalsWaitInOrder | libraries/net/node.cpp:3549-3551 | copies that come in between two passes wait in the order they came, before the older ones |
| Backlog.EventAsksIff | libraries/net/node.cpp:3605-3622 | a pass or an accepted block asks a peer for more ids exactly when it leaves it with nothing listed, unnamed or being worked on |
| Backlog.ListsAreConsumedInOrder | libraries/net/node.cpp:3561-3570 | as long as a peer stays connected, what leaves its list leaves it front first and in its order, also while its end is trimmed or it is cleared |
| Backlog.EveryRunHandsInOrder | libraries/net/node.cpp:3586-3594 | over every run the delegate is handed handled blocks only, in the order they were handled |
| Backlog.EveryRunHandlesParentsFirst | libraries/net/node.cpp:3558-3586 | with honest lists no block is handled before the block it builds on, in whatever order copies arrive |
| Backlog.BlockBacklog.ProcessBlockDuringSync | libraries/net/node.cpp:3657-3668 | a received block waits in front of the earlier new ones |
| Backlog.BlockBacklog.BlockAccepted | libraries/net/node.cpp:3427-3450 | an accepted block is no longer being worked on for any peer, and peers left with nothing are asked for more |
| Backlog.BlockBacklog.ProcessBacklog | libraries/net/node.cpp:3505-3647 | the method performs one pass, which ends because every continuing turn shrinks the waiting blocks |
| Backlog.BlockBacklog.TakeNext | libraries/net/node.cpp:3549-3628 | one turn of the do-loop, and one waiting copy less exactly when another turn follows |
| Backlog.BlockBacklog.CollectNew | libraries/net/node.cpp:3549-3551 | new copies are put before the waiting ones in reverse order |
| Backlog.BlockBacklog.PopFronts | libraries/net/node.cpp:3561-3570 | every list that starts with the block loses it; the result says whether one did |
| Backlog.BlockBacklog.FinishEverywhere | libraries/net/node.cpp:3605-3622 | the block is no longer in processing, and peers left with nothing are asked for more |
| ItemQueue.BlocksFirstThenOldest | libraries/net/node.cpp:298-307 | within half the counter's range the order is blocks first, then oldest first, across wrap-around |
| ItemQueue.StrictTotalOrder | libraries/net/node.cpp:298-307 | there it is irreflexive, asymmetric, transitive and total |
| ItemQueue.TotalExactlyOnHalfTheRange | libraries/net/node.cpp:306-306 | all items of a window are comparable exactly when it is at most 2^31 wide |
| ItemQueue.WiderWindowsAreCyclic | libraries/net/node.cpp:306-306 | in a wider window three items can be in a cycle |
| ItemQueue.InsertionKeepsOrder | libraries/net/node.cpp:3171-3171 | insertion keeps the queue sorted inside such a window |
| ItemQueue.PassPartitions | libraries/net/node.cpp:1271-1323 | the wanted items are split into expired, requested and kept, nothing lost or duplicated |
| ItemQueue.MessageMatchesLoad | libraries/net/node.cpp:1308-1316 | a peer's message has exactly the items assigned to it |
| ItemQueue.MessagesAreDisjoint | libraries/net/node.cpp:1308-1317 | no item is requested from two peers |
| ItemQueue.OutcomesHaveReasons | libraries/net/node.cpp:1271-1322 | an item is dropped exactly when too old, sent only to an idle peer below its cap that advertised it and is not inhibited, and kept only when no such peer is left |
| ItemQueue.RecordMatchesOutcomes | libraries/net/node.cpp:1308-1316 | after the pass a peer counts as asked for exactly the items sent to it, besides what it was asked before |
| ItemQueue.LoadStaysWithinCap | libraries/net/node.cpp:1297-1297 | no peer gets more than its cap, and only idle peers get anything |
| ItemQueue.NoEligiblePeerIsLeft | libraries/net/node.cpp:1289-1322 | at the end no kept item has a peer that could still take it |
| ItemQueue.NoneIsPassedOver | libraries/net/node.cpp:1271-1322 | a peer that takes a later item could not have taken a kept earlier one |
| ItemQueue.RequestsAreShared | libraries/net/node.cpp:1287-1297 | peers that all have every item differ by at most one request |
| ItemQueue.KeptStaysSorted | libraries/net/node.cpp:1271-1323 | the kept items stay in order |
| ItemQueue.ItemFetcher.ChoosePeer | libraries/net/node.cpp:1290-1320 | the inner loop finds a least loaded peer that has the item, or none, and the earliest time one stops being inhibited |
| ItemQueue.ItemFetcher.FetchItems | libraries/net/node.cpp:1216-1348 | one iteration gives every item its right outcome, sends each peer its items and sets the retry time |
| Ledger.AdjustedTotals | libraries/chain/services/dbs_account_balance.cpp:163-184 | an adjustment moves the asset's total by its amount and touches no other balance |
| Ledger.AccountBalances.Adjust | libraries/chain/services/dbs_account_balance.cpp:163-184 | a missing balance is created; a debit beyond the balance is refused |
| Vesting.VestedGrows | libraries/chain/deip_evaluator.cpp:1090-1100 | the vested amount is at most the balance and grows with time and balance |
| Vesting.VestedIs | libraries/chain/deip_evaluator.cpp:1090-1100 | with k of n periods passed, k parts of n of the balance have vested, less than a unit short, and everything at the end |
| Vesting.PaidIff | libraries/chain/deip_evaluator.cpp:1083-1110 | a withdrawal is paid exactly when the cliff is over and all that is taken stays within that, and moves the amount and nothing else |
| Vesting.GenesisContractsVestAtOnce | libraries/chain/genesis.cpp:789-799 | a contract whose cliff is its duration grants nothing before its end and everything then |
| Vesting.VestingBalance.Withdraw | libraries/chain/deip_evaluator.cpp:1083-1110 | the evaluator's effect in every case; the service's own balance check never fails |
| Vesting.RunNeverOverpays | libraries/chain/deip_evaluator.cpp:1083-1110 | over every run nothing is lost and never more is withdrawn than the schedule grants of the original deposit |
| Vesting.AllowanceIsAsPromisedIff | libraries/chain/services/dbs_vesting_balance.cpp:69-77 | exactly when the allowance is what the schedule grants of the original deposit |
| Vesting.AllowanceNonNegativeIff | libraries/chain/deip_evaluator.cpp:1102-1103 | exactly when the assertion on the allowance holds |
| Vesting.RestIsLocked | libraries/chain/deip_evaluator.cpp:1102-1103 | after more than half is withdrawn nothing can be withdrawn any more |
| Vesting.SplittingMatters | libraries/chain/deip_evaluator.cpp:1083-1110 | which two-step withdrawals succeed compared with one of the same sum |
| Vesting.SixtyOfAHundred | libraries/chain/deip_evaluator.cpp:1102-1103 | a concrete contract whose last forty of a hundred stay locked |
| Awards.SumSourcedFrom | libraries/chain/deip_evaluator.cpp:1578-1589 | the accumulate folds compute what an account passes on |
| Awards.Validate | libraries/protocol/operations/create_award_operation.cpp:10-71 | validation accepts exactly the award lists described |
| Awards.CheckSubAward | libraries/protocol/operations/create_award_operation.cpp:36-70 | the loop body's checks of one sub-award |
| Awards.ChecksDecide | libraries/protocol/operations/create_award_operation.cpp:36-71 | passing them for every sub-award is distinctness and validity of all |
| Awards.CreateAward | libraries/chain/deip_evaluator.cpp:1576-1642 | through the map everyone gets the award less what is passed on, under its own number and source |
| Awards.RecipientEntries | libraries/chain/deip_evaluator.cpp:1594-1642 | the awardee comes first, then every sub-award in order with its number, recipient and source |
| Awards.FeeIsTheOverhead | libraries/chain/deip_evaluator.cpp:1573-1577 | the fee is the overhead in ten-thousandths of the award, less than a unit short |
| Awards.EveryShareIsOwed | libraries/chain/deip_evaluator.cpp:1576-1642 | a sub-awardee is owed its sub-award less what it passes on, the awardee the award less the fee and what it passes on, everybody else nothing |
| Awards.PassedOnOnce | libraries/chain/deip_evaluator.cpp:1583-1592 | what distinct sub-awardees pass on is counted once |
| Awards.AwardBalance | libraries/chain/deip_evaluator.cpp:1576-1642 | fee and totals differ from the award by exactly the sub-awards whose source is nobody in the list |
| Awards.AwardIsConserved | libraries/chain/deip_evaluator.cpp:1576-1642 | for a validated award fee and totals are exactly the award |
| Awards.EveryChainReachesTheAwardee | libraries/protocol/operations/create_award_operation.cpp:48-69 | although only short cycles are looked for, following sources always ends at the awardee |
| Awards.CycleCheckIsRedundant | libraries/protocol/operations/create_award_operation.cpp:48-51 | what the other checks let through has no two sub-awards that are each other's source |
| Awards.TotalsPositiveIff | libraries/protocol/operations/create_award_operation.cpp:53-69 | exactly when every recipient's total is positive |
| Awards.NegativeTotalIsAccepted | libraries/protocol/operations/create_award_operation.cpp:53-69 | an accepted award with a negative total |
| Awards.CreditedTotals | libraries/chain/deip_evaluator.cpp:1679-1684 | crediting recipients raises the asset's total by the sum of their totals, each account by its own, and touches no other asset |
| Awards.AwardRecord.Approve | libraries/chain/deip_evaluator.cpp:1664-1687 | when approval goes through, in whatever order the recipients come, and its effect on status, supply and balances; otherwise nothing changes |
| Awards.AwardRecord.Reject | libraries/chain/deip_evaluator.cpp:1690-1725 | only a pending award can be rejected, and no money moves |
| Awards.CreditAll | libraries/chain/deip_evaluator.cpp:1679-1684 | the loop credits all recipients in order or is refused |
| Awards.CreditingKeepsBalances | libraries/chain/deip_evaluator.cpp:1679-1684 | crediting is allowed exactly when it takes no balance below zero on the way |
| Awards.ApprovalConserves | libraries/chain/deip_evaluator.cpp:1673-1687 | in whatever order the recipients come, approval takes the award from the supply and gives every account exactly its share, the university the fee |
| Awards.WholeSupplyIsRefused | libraries/chain/services/dbs_funding_opportunity.cpp:297-308 | an award of the whole supply is never approved |
| Awards.PositiveTotalsAreCredited | libraries/chain/deip_evaluator.cpp:1679-1684 | positive totals are never refused |
| AwardPayments.PaymentDesk.CreateRequest | libraries/chain/deip_evaluator.cpp:1750-1783 | a request is created exactly for an approved award, its own recipient and a covered amount |
| AwardPayments.PaymentDesk.CertifyRequest | libraries/chain/deip_evaluator.cpp:1799-1820 | only a pending request is certified |
| AwardPayments.PaymentDesk.ApproveRequest | libraries/chain/deip_evaluator.cpp:1837-1859 | only a certified request is approved |
| AwardPayments.PaymentDesk.RejectRequest | libraries/chain/deip_evaluator.cpp:1876-1913 | only a pending or certified request is rejected |
| AwardPayments.PaymentDesk.PayRequest | libraries/chain/deip_evaluator.cpp:1933-1970 | an approved, still covered request is paid once, from the treasury to its requester, charged and burned; otherwise nothing changes |
| AwardPayments.PaymentNetsToZero | libraries/chain/deip_evaluator.cpp:1967-1968 | a payment leaves the total of the paying asset as it was |
| AwardPayments.StepIsAccounted | libraries/chain/deip_evaluator.cpp:1955-1970 | every operation keeps expenses equal to the payments made and within the totals |
| AwardPayments.EveryRunIsAccounted | libraries/chain/deip_evaluator.cpp:1727-1971 | over every run, with any number of open requests, expenses are the payments charged and never exceed the total, and nothing is paid twice |
| AwardPayments.EveryRunMovesMoney | libraries/chain/deip_evaluator.cpp:1955-1970 | over every run each account has what it had and what its own requests were paid, the treasury has paid it, and other assets are as they were |
| AwardPayments.EveryRunKeepsRequestsOwn | libraries/chain/deip_evaluator.cpp:1750-1971 | over every run requests exist only for an approved award, each of its own recipient within that recipient's total, and are charged to a recipient with the same awardee |
| AwardPayments.FirstPaymentIff | libraries/chain/deip_evaluator.cpp:1727-1971 | requested, certified, approved and paid, a first payment is made exactly when award, requester, total, supply and treasury allow it |
| AwardPayments.StepFollowsLifecycle | libraries/chain/deip_evaluator.cpp:1786-1971 | a request moves only along pending, certified, approved, paid, or to rejected from the first two |
| AwardPayments.LaterStatus | libraries/chain/deip_evaluator.cpp:1786-1971 | over every run a request never goes back, and paid and rejected are final |
| Licensing.RevenueWithinShare | libraries/chain/deip_evaluator.cpp:2607-2619 | holders within the supply get at most the token's share in all, each rounded down |
| Licensing.ShareOfIsShare | libraries/chain/util/reward.cpp:94-100 | a token's share is its percentage of the fee, less than a unit short |
| Licensing.DecimalsScale | libraries/chain/util/reward.cpp:94-100 | one more decimal with a zero behind is the same percentage, and a hundred per cent is the fee |
| Licensing.RevenueRoundsDown | libraries/chain/util/reward.cpp:69-74 | a holder's revenue is the part of the share that its balance is of the supply, less than a unit short |
| Licensing.DistributeToken | libraries/chain/deip_evaluator.cpp:2601-2621 | by the balances before and after, every holder has received its part of the share, less than a unit short, and nobody else anything; the sum is the revenue counted |
| Licensing.SharesWithinFee | libraries/chain/deip_evaluator.cpp:2589-2599 | percentages of at most 100 in all give shares of at most the fee |
| Licensing.DistributeAll | libraries/chain/deip_evaluator.cpp:2589-2621 | over all tokens the asset's total rises by the revenue, which for well issued tokens is at most the fee |
| Licensing.CreateResearchLicense | libraries/chain/deip_evaluator.cpp:2575-2631 | holders receive their parts token by token, the research group the rest, and the licensee pays the fee; the asset's total is unchanged, no balance goes below zero, the last charge cannot be refused and the revenue check cannot fail for well issued tokens |
| BlockLog.BlockAt | libraries/chain/block_log.cpp:200-203 | at a block's position stand its packing and then that position |
| BlockLog.IndexAt | libraries/chain/block_log.cpp:203-203 | entry i of the index is the position of block i |
| BlockLog.BlockLogFiles.Append | libraries/chain/block_log.cpp:187-210 | refused exactly when the index does not end where the block belongs; else both files grow by one block |
| BlockLog.BlockLogFiles.ReadBlock | libraries/chain/block_log.cpp:218-231 | the block that unpacks at a position and where the next one starts |
| BlockLog.BlockLogFiles.GetBlockPos | libraries/chain/block_log.cpp:250-264 | the position of block n, or npos for a number not in the log |
| BlockLog.BlockLogFiles.ReadBlockByNum | libraries/chain/block_log.cpp:233-248 | the n-th appended block, nothing for other numbers, and the check on its number never fails |
| BlockLog.BlockLogFiles.ReadHead | libraries/chain/block_log.cpp:266-278 | the last appended block |
| BlockLog.BlockLogFiles.ConstructIndex | libraries/chain/block_log.cpp:285-312 | the index the appends would have written, or an empty one for a log of one block |
| BlockLog.BlockLogFiles.Open | libraries/chain/block_log.cpp:94-175 | the state and index after opening, for any index file |
| BlockLog.AppendAll | libraries/chain/block_log.cpp:187-210 | after any sequence of appends the log and index are those of all blocks |
| BlockLog.WriteCloseAndRead | libraries/chain/block_log.cpp:94-278 | blocks written, closed and reopened read back by number and as head |
| BlockLog.OpenRestoresIndexIff | libraries/chain/block_log.cpp:130-166 | opening leaves the right index exactly when it was right before, the log is empty, or the log has two blocks or more and the index does not end with the last position |
| BlockLog.TruncatedIndexIsRestored | libraries/chain/block_log.cpp:136-165 | for two blocks or more every proper prefix of the index, at entry boundaries, is rebuilt |
| BlockLog.OverlongIndexIsRestored | libraries/chain/block_log.cpp:150-154 | so is the right index followed by anything ending in a larger entry |
| BlockLog.TornIndexCanBeTrusted | libraries/chain/block_log.cpp:146-159 | an index cut inside an entry is kept as it is when its last eight bytes happen to be the last position |
| BlockLog.TornIndexHappens | libraries/chain/block_log.cpp:146-159 | a packing and three numbered blocks for which they do |
| BlockLog.LostIndexOfOneBlock | libraries/chain/block_log.cpp:295-310 | after losing the index of a one-block log the next append is refused |
| Merkle.SplitPoint | libraries/protocol/block.cpp:55-67 | the split is strictly inside and at least half |
| Merkle.SplitPointIsPower | libraries/protocol/block.cpp:55-67 | it is a power of two, hence the largest below n |
| Merkle.PairingKeepsTree | libraries/protocol/block.cpp:61-65 | one pairwise pass does not change the recursive tree's digest |
| Merkle.HashInPairs | libraries/protocol/block.cpp:58-66 | the pass in place computes the pairs of the old digests and overwrites none unread |
| Merkle.CalculateMerkleRoot | libraries/protocol/block.cpp:44-69 | the root is the tree that splits at the largest power of two, as in section 2.1 of RFC 6962 without its prefix bytes |
| Merkle.TreeContents | libraries/protocol/block.cpp:49-68 | the leaves of the tree, in order, are the transactions |
| Merkle.RootDeterminesTransactions | libraries/protocol/block.cpp:44-69 | roots are equal exactly for equal transaction lists |
| Transport.DecodeUndoesEncode | libraries/net/stcp_socket.cpp:128-184 | decoding the blocks of an encoding gives the bytes back and keeps both ciphers in step |
| Transport.StcpSocket.WriteSome | libraries/net/stcp_socket.cpp:144-188 | at most 4096 bytes are encoded and written |
| Transport.StcpSocket.Write | libraries/net/message_oriented_connection.cpp:288-288 | the chunks together are the encoding of the whole buffer |
| Transport.StcpSocket.ReadSome | libraries/net/stcp_socket.cpp:89-132 | a fragment is completed to whole blocks within the requested length and decoded |
| Transport.CompletionFits | libraries/net/stcp_socket.cpp:120-127 | the completion never exceeds the requested length |
| Transport.StcpSocket.Read | libraries/net/message_oriented_connection.cpp:165-177 | exactly the requested bytes are decoded whatever the fragments |
| Transport.FrameSizesAgree | libraries/net/message_oriented_connection.cpp:171-284 | sender and receiver agree on a frame's size; sizes below LEFTOVER wrap to no extra bytes |
| Transport.SendMessage | libraries/net/message_oriented_connection.cpp:278-292 | header, data and padding to whole blocks are sent, whatever the padding holds |
| Transport.ReadMessage | libraries/net/message_oriented_connection.cpp:162-180 | one round reads one frame, refuses a too large size, or meets the end |
| Transport.FrameReadsBack | libraries/net/message_oriented_connection.cpp:162-292 | a frame is read back as its message |
| Transport.ReadLoop | libraries/net/message_oriented_connection.cpp:147-205 | the messages delivered are those sent up to the first one over the limit |
| Transport.SendAndReceive | libraries/net/message_oriented_connection.cpp:147-294 | the round trip over any fragmentation, complete exactly when no message is over the limit |
| GenesisText.OctalDigitsValue | libraries/egenesis/embed_genesis.cpp:115-122 | the shortest octal escape has the character's value |
| GenesisText.AppendEscaped | libraries/egenesis/embed_genesis.cpp:79-125 | the inner loop writes the escapes of the row's characters |
| GenesisText.ConvertToCArray | libraries/egenesis/embed_genesis.cpp:68-130 | the printer writes the escaped rows separated by commas and counts them |
| GenesisText.ReadPrinted | libraries/egenesis/embed_genesis.cpp:79-126 | what a compiler reads for a printed row, by section 2.14.3 of ISO/IEC 14882:2011 |
| GenesisText.RereadIff | libraries/egenesis/embed_genesis.cpp:114-122 | a row reads back as itself exactly when no short octal escape stands before an octal digit; else it is shorter |
| GenesisText.PaddedRereadIff | libraries/egenesis/egenesis_full.cpp:1131-1134 | padding a shortened row with NULs never makes up for it |
| GenesisText.ReadJoined | libraries/egenesis/embed_genesis.cpp:68-130 | the printed array reads back as its rows |
| GenesisText.ComputeEgenesisJson | libraries/egenesis/egenesis_full.cpp:1126-1137 | the reader concatenates whole rows and the last one up to its first NUL |
| GenesisText.ChunksShape | libraries/egenesis/embed_genesis.cpp:174-178 | rows of 40 cover the text, ceil(n/40) of them |
| GenesisText.GenesisRoundTrip | libraries/egenesis/embed_genesis.cpp:170-178 | the embedded text is the text exactly when no row has an ambiguous escape and the last row no NUL |
| GenesisText.JsonTextSurvives | libraries/egenesis/embed_genesis.cpp:114-122 | every text without unnamed control characters survives, which sections 2 and 7 of RFC 8259 make true of JSON |

## Left out

- Block heights are unbounded and timestamps are absent: the 32-bit height limit and the plausibility check of offered blocks against the clock are not modelled.
- Amounts are unbounded integers; the source's 64-bit amounts throw on overflow, which is not modelled.
- The fork database keeps every known block; its pruning and the eviction from the list of recently accepted blocks by capacity are not modelled, the latter only as an event that may remove any of them.
- Fibers, timeouts, bandwidth limits, logging, and disconnection beyond leaving the active set: environment.
- PeerListSafety.EmptiedListStartsKnown: covers an unchanged list only; `PeerListSafety.EmptiedListStartsAccountedFor` and `PeerListSafety.EmptiedListStartsKnownIff` cover every run.
- PeerSync.PeerConnection.OnBlockchainItemIdsInventory: the disconnection of a peer that offers more blocks than can exist by the clock is not modelled, because it needs timestamps.
- SyncInterleaved.EveryRunIsSafe: one request is outstanding at a time, as `idle` requires; restarting may send a second one, and when its check meets the first answer `HonestReply.LateReplyFitsIff` says what happens. The responder's chain stays as it is.
- SyncInterleaved.EventKeepsInv: a request reads the list and the delegate's blocks at one moment; blocks taken off or accepted while the delegate prepares its part count as taken off or accepted after it.
- SyncRun.ExchangeWithPending: nothing happens between request and reply; `SyncInterleaved.ReplyExtendsList` is the statement without that.
- SyncRun.ExchangeCaughtUp: nothing happens between request and reply and no block is being worked on; `SyncInterleaved.ReplyFillsList` is the statement without that.
- SyncRun.FirstRequest: assumes the requester's last irreversible block is on the responder's chain; `SyncRun.FalseSyncIff` says what happens otherwise.
- SyncRun.ExchangeIsGood: assumes the same, that nothing happens between request and reply, and that no other peer's list starts with one of the responder's blocks.
- SyncRun.EveryDrivenRunEnds: a front block is fetched and accepted in one move, the delegate accepts the responder's blocks, and no block is sent to the peer or accepted from its advertisement meanwhile, which would set the last seen block (libraries/net/node.cpp:3055 and 3755); `SyncInterleaved.EveryRunIsSafe` allows that.
- ResyncCost.ResyncCostBound: a requester that summarises no block has none being processed before its pending ids.
- SyncScheduler.SyncNode.FetchSyncItems: takes the order of the set of connections as a parameter; the suspended state is not part of it.
- SyncScheduler.EveryRunKeepsDisjoint: other changes to a peer or to the received blocks are one event that may change anything but the requests.
- Backlog.BlockBacklog.ProcessBacklog: one pass is one step; blocks that arrive while a pass sends a request are taken by the next pass.
- Backlog.BlockBacklog.BlockAccepted: peers without any work that then synchronise anew, and peers disconnected over a hard fork, are not modelled.
- Backlog.BlockBacklog.FinishEverywhere: the request for more ids that goes to peers left with nothing is recorded as a set of peers, not sent.
- Backlog.PassLeavesReadyIff: the condition follows the turns from the starting state until one meets an accepted block, because the order of the waiting copies decides; `Backlog.PassIsExhaustive` is a one-way condition that can be read off the state.
- Backlog.EveryRunHandlesParentsFirst: handled means handed to the delegate or found accepted before; whether the delegate accepts a block is an event.
- ItemQueue.ItemFetcher.FetchItems: peers with equal loads come in any order; splitting a peer's message by item type is not modelled.
- Transport.StcpSocket.Read: key exchange and the cipher itself are not modelled; the cipher is any pair of matching stateful block functions.
- BlockLog.BlockLogFiles.Append: an append after a read is taken to write at the end, as a stream opened for appending does; a log file that ends in a torn block is not modelled.
- BlockLog.TruncatedIndexIsRestored: stated for cuts between entries; a cut inside an entry can go wrong (`BlockLog.TornIndexCanBeTrusted`), exactly when `BlockLog.OpenRestoresIndexIff` says.
- Awards.Validate: the syntax of names and numbers, matching asset symbols and the range of the overhead are not modelled; the amounts conditions are.
- Awards.AwardRecord.Approve: existence of accounts and records is assumed; a refused operation's changes are undone with its transaction.
- Awards.PositiveTotalsAreCredited: nothing is claimed for negative totals, which a credit may refuse.
- AwardPayments.PaymentDesk.PayRequest: an operation that passes its checks is charged at the fixed rate of one to one in the source; one award is modelled, with its recipients and requests.
- Licensing.DistributeAll: tokens come as a list in the order of their symbols; holders of a token come in any order; history records and licence terms are not modelled.
- GenesisText.ConvertToCArray: trigraphs do not arise because the question mark is always escaped; other compiler limits on literals are not modelled.
- Peer database, handshake, firewall checks, message cache, advertising, bandwidth: bookkeeping over single sets and maps.
- Expertise scores, votes, proposals, research groups, non-disclosure agreements, assets apart from their totals: they would add easy members or rest on services with little logic.
