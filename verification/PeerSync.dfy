/** One peer's side of block id negotiation as the node keeps it: sending a request, taking
    in a reply, restarting. The class is proved against functions on its abstract value;
    what the protocol guarantees is proved about those functions. */
module PeerSync {
  import opened Wrappers
  import opened Chain
  import opened Synopsis
  import opened SyncPeer

  // ---------- What a reply does to the list of pending ids ----------

  predicate Sequential(ids: seq<BlockId>) {
    forall i :: 1 <= i < |ids| ==> Num(ids[i]) == Num(ids[0]) + i
  }

  // The reply is acceptable: one ascending run that builds on an entry of the synopsis sent.
  predicate FitsRequest(synopsis: seq<BlockId>, ids: seq<BlockId>) {
    ids == [] || (Sequential(ids) && if synopsis == [] then Num(ids[0]) == 1 else ids[0] in synopsis)
  }

  // How many ids at the front the delegate already has.
  function KnownPrefix(ids: seq<BlockId>, known: set<BlockId>): (n: nat)
    ensures n <= |ids| && (forall i :: 0 <= i < n ==> ids[i] in known)
    ensures n < |ids| ==> ids[n] !in known
  {
    if ids == [] || ids[0] !in known then 0 else KnownPrefix(ids[1..], known) + 1
  }

  // What is left of a list up to and including the last occurrence of id.
  function CutAt(list: seq<BlockId>, id: BlockId): (kept: seq<BlockId>)
    ensures kept <= list
    ensures kept != [] ==> kept[|kept| - 1] == id
    ensures forall i :: |kept| <= i < |list| ==> list[i] != id
  {
    if list == [] || list[|list| - 1] == id then list else CutAt(list[..|list| - 1], id)
  }

  datatype Merged = Merged(idsToGet: seq<BlockId>, lastSeen: BlockId)

  function Merge(v: PeerView, known: set<BlockId>, otherFronts: set<BlockId>, ids: seq<BlockId>): Merged {
    if ids == [] then Merged(v.idsToGet, v.lastSeen)
    else if v.idsToGet == [] then
      if ids[0] in otherFronts then Merged(ids, v.lastSeen)
      else
        var n := KnownPrefix(ids, known);
        Merged(ids[n..], if n == 0 then v.lastSeen else ids[n - 1])
    else
      var kept := CutAt(v.idsToGet, ids[0]);
      if kept == [] then Merged(ids[1..], ids[0]) else Merged(kept[..|kept| - 1] + ids, v.lastSeen)
  }

  predicate SaysUpToDate(v: PeerView, known: set<BlockId>, ids: seq<BlockId>, remaining: nat) {
    && remaining == 0 && (ids == [] || (|ids| == 1 && ids[0] in known))
    && v.idsToGet == [] && v.unfetched == 0
  }

  function NextAction(idsToGet: seq<BlockId>, remaining: nat): Action {
    if remaining != 0 then (if |idsToGet| > MIN_BLOCK_IDS_TO_PREFETCH then FetchBlocks else FetchMoreIds)
    else if idsToGet != [] then FetchBlocks else FetchMoreIds
  }

  // The reply handler as a whole.
  function TakeReply(v: PeerView, known: set<BlockId>, otherFronts: set<BlockId>, ids: seq<BlockId>, remaining: nat): (PeerView, Action) {
    match v.requested
    case None => (v, Ignore)
    case Some(synopsis) =>
      if !FitsRequest(synopsis, ids) then (v, Disconnect)
      else if SaysUpToDate(v, known, ids, remaining) then (v.(requested := None, needSync := false), InSync)
      else
        var m := Merge(v, known, otherFronts, ids);
        (v.(requested := None, idsToGet := m.idsToGet, lastSeen := m.lastSeen, unfetched := remaining),
         NextAction(m.idsToGet, remaining))
  }

  // The request: the view afterwards, or nothing when no synopsis can be made.
  ghost function SendRequest(v: PeerView, db: ChainState): Option<PeerView> {
    match SynopsisForPeer(db, v.lastSeen, v.idsToGet)
    case Failure(_) => None
    case Success(s) => Some(v.(requested := Some(s)))
  }

  // What becomes of a request. Only a fork too old to switch to is handled, by disconnecting;
  // other errors are not caught here.
  datatype FetchOutcome = RequestSent | OnUnreachableFork | NotCaught(error: SynopsisError)

  function Restarted(v: PeerView): PeerView {
    v.(idsToGet := [], unfetched := 0, needSync := true, lastSeen := Zero)
  }

  // ---------- The connection object ----------

  class PeerConnection {
    var idsOfItemsToGet: seq<BlockId>
    var numberOfUnfetchedItemIds: nat
    var weNeedSyncItemsFromPeer: bool
    var lastBlockDelegateHasSeen: BlockId
    var itemIdsRequestedFromPeer: Option<seq<BlockId>>

    ghost function View(): PeerView
      reads this
    {
      PeerView(idsOfItemsToGet, numberOfUnfetchedItemIds, lastBlockDelegateHasSeen, weNeedSyncItemsFromPeer, itemIdsRequestedFromPeer)
    }

    constructor ()
      ensures View() == PeerView([], 0, Zero, true, None)
    {
      idsOfItemsToGet := [];
      numberOfUnfetchedItemIds := 0;
      weNeedSyncItemsFromPeer := true;
      lastBlockDelegateHasSeen := Zero;
      itemIdsRequestedFromPeer := None;
    }

    // create_blockchain_synopsis_for_peer. Where the source would read past the end of the
    // pending ids, which only the loop's first turn can, this returns an error.
    method CreateBlockchainSynopsis(db: ChainState) returns (r: Result<seq<BlockId>, SynopsisError>)
      requires db.Valid()
      ensures r == SynopsisForPeer(db, lastBlockDelegateHasSeen, idsOfItemsToGet)
    {
      hide PendingSample, SynopsisOf, SynopsisForPeer;
      var original := idsOfItemsToGet;
      SynopsisForPeerIs(db, lastBlockDelegateHasSeen, original);
      var d := GetBlockchainSynopsis(db, lastBlockDelegateHasSeen, |original|);
      if d.Failure? {
        return Failure(d.error);
      }
      var synopsis := d.value;
      if |original| > 0 {
        var low := if synopsis == [] then 1 else Num(synopsis[0]);
        if low >= Num(original[0]) + |original| {
          return Failure(PendingIndexOutOfRange);
        }
        synopsis := AppendPending(original, Num(original[0]), low, synopsis);
      }
      r := Success(synopsis);
    }

    // The node's do-loop.
    static method AppendPending(original: seq<BlockId>, firstBlockNum: nat, start: nat, delegatePart: seq<BlockId>)
      returns (synopsis: seq<BlockId>)
      requires original != [] && start < firstBlockNum + |original|
      ensures synopsis == delegatePart + PendingSample(original, firstBlockNum, start)
    {
      hide PendingSample;
      var trueHigh := firstBlockNum + |original| - 1;
      var low := start;
      synopsis := delegatePart;
      ghost var target := delegatePart + PendingSample(original, firstBlockNum, low);
      var more := true;
      while more
        invariant more == (low <= trueHigh) && low <= trueHigh + 1
        invariant synopsis + PendingSample(original, firstBlockNum, low) == target
        decreases trueHigh + 1 - low
      {
        ghost var before := synopsis;
        if low >= firstBlockNum {
          synopsis := synopsis + [original[low - firstBlockNum]];
        }
        PendingSampleStep(original, firstBlockNum, low, before, synopsis);
        low := low + (trueHigh - low + 2) / 2;
        more := low <= trueHigh;
      }
      PendingSampleOver(original, firstBlockNum, low);
      assert synopsis + [] == synopsis;
    }

    // fetch_next_batch_of_item_ids_from_peer.
    method FetchNextBatchOfItemIds(db: ChainState) returns (outcome: FetchOutcome)
      requires db.Valid()
      modifies this`itemIdsRequestedFromPeer
      ensures outcome == match SynopsisForPeer(db, lastBlockDelegateHasSeen, idsOfItemsToGet)
                         case Success(_) => RequestSent
                         case Failure(e) => if e == BlockOlderThanUndoHistory then OnUnreachableFork else NotCaught(e)
      ensures View() == if outcome == RequestSent then SendRequest(old(View()), db).value else old(View())
    {
      hide SynopsisForPeer;
      var r := CreateBlockchainSynopsis(db);
      if r.Failure? {
        return if r.error == BlockOlderThanUndoHistory then OnUnreachableFork else NotCaught(r.error);
      }
      itemIdsRequestedFromPeer := Some(r.value);
      outcome := RequestSent;
    }

    // on_blockchain_item_ids_inventory_message.
    method OnBlockchainItemIdsInventory(known: set<BlockId>, otherFronts: set<BlockId>, ids: seq<BlockId>, remaining: nat)
      returns (action: Action)
      modifies this
      ensures (View(), action) == TakeReply(old(View()), known, otherFronts, ids, remaining)
    {
      hide FitsRequest, Merge;
      if itemIdsRequestedFromPeer.None? {
        return Ignore;
      }
      var fits := CheckReply(itemIdsRequestedFromPeer.value, ids);
      if !fits {
        return Disconnect;
      }
      itemIdsRequestedFromPeer := None;
      if remaining == 0 && (ids == [] || (|ids| == 1 && ids[0] in known))
         && idsOfItemsToGet == [] && numberOfUnfetchedItemIds == 0 {
        weNeedSyncItemsFromPeer := false;
        return InSync;
      }
      MergeIgnoresRequest(old(View()), known, otherFronts, ids);
      Absorb(known, otherFronts, ids);
      numberOfUnfetchedItemIds := remaining;
      if remaining != 0 {
        action := if |idsOfItemsToGet| > MIN_BLOCK_IDS_TO_PREFETCH then FetchBlocks else FetchMoreIds;
      } else {
        action := if idsOfItemsToGet != [] then FetchBlocks else FetchMoreIds;
      }
    }

    // The list must ascend without gaps and build on something we named in the request.
    method CheckReply(synopsis: seq<BlockId>, ids: seq<BlockId>) returns (ok: bool)
      ensures ok == FitsRequest(synopsis, ids)
    {
      if ids == [] {
        return true;
      }
      var i := 1;
      while i < |ids|
        invariant 1 <= i <= |ids| && forall j :: 1 <= j < i ==> Num(ids[j]) == Num(ids[0]) + j
      {
        if Num(ids[i]) != Num(ids[0]) + i {
          return false;
        }
        i := i + 1;
      }
      ok := if synopsis == [] then Num(ids[0]) == 1 else ids[0] in synopsis;
    }

    // Adds the received ids to the list, less those the delegate has or the list repeats.
    method Absorb(known: set<BlockId>, otherFronts: set<BlockId>, ids: seq<BlockId>)
      modifies this`idsOfItemsToGet, this`lastBlockDelegateHasSeen
      ensures Merged(idsOfItemsToGet, lastBlockDelegateHasSeen) == Merge(old(View()), known, otherFronts, ids)
    {
      var received := ids;
      if received != [] && idsOfItemsToGet == [] {
        if ids[0] !in otherFronts {
          received := DropKnown(known, ids);
        }
        assert idsOfItemsToGet + received == received;
      } else if received != [] {
        received := MakeRoomFor(received);
        assert [] + received == received;
      } else {
        assert idsOfItemsToGet + received == idsOfItemsToGet;
      }
      idsOfItemsToGet := idsOfItemsToGet + received;
    }

    // Flushes the ids at the front that the delegate already has.
    method DropKnown(known: set<BlockId>, ids: seq<BlockId>) returns (received: seq<BlockId>)
      modifies this`lastBlockDelegateHasSeen
      ensures var n := KnownPrefix(ids, known);
              && received == ids[n..]
              && lastBlockDelegateHasSeen == if n == 0 then old(lastBlockDelegateHasSeen) else ids[n - 1]
    {
      received := ids;
      ghost var n := 0;
      while received != [] && received[0] in known
        invariant n <= |ids| && received == ids[n..]
        invariant n + KnownPrefix(received, known) == KnownPrefix(ids, known)
        invariant lastBlockDelegateHasSeen == if n == 0 then old(lastBlockDelegateHasSeen) else ids[n - 1]
        decreases |received|
      {
        lastBlockDelegateHasSeen := received[0];
        received := received[1..];
        n := n + 1;
      }
    }

    // Pops ids off the back of the list until the first received id is found, then that one.
    method MakeRoomFor(ids: seq<BlockId>) returns (received: seq<BlockId>)
      requires ids != []
      modifies this`idsOfItemsToGet, this`lastBlockDelegateHasSeen
      ensures var kept := CutAt(old(idsOfItemsToGet), ids[0]);
              if kept == [] then
                idsOfItemsToGet == [] && received == ids[1..] && lastBlockDelegateHasSeen == ids[0]
              else
                idsOfItemsToGet == kept[..|kept| - 1] && received == ids && lastBlockDelegateHasSeen == old(lastBlockDelegateHasSeen)
    {
      received := ids;
      while idsOfItemsToGet != [] && received[0] != idsOfItemsToGet[|idsOfItemsToGet| - 1]
        invariant CutAt(idsOfItemsToGet, ids[0]) == CutAt(old(idsOfItemsToGet), ids[0])
        invariant lastBlockDelegateHasSeen == old(lastBlockDelegateHasSeen)
        decreases |idsOfItemsToGet|
      {
        idsOfItemsToGet := idsOfItemsToGet[..|idsOfItemsToGet| - 1];
      }
      assert CutAt(idsOfItemsToGet, ids[0]) == idsOfItemsToGet;
      if idsOfItemsToGet == [] {
        lastBlockDelegateHasSeen := received[0];
        received := received[1..];
      } else {
        idsOfItemsToGet := idsOfItemsToGet[..|idsOfItemsToGet| - 1];
      }
    }

    // start_synchronizing_with_peer, up to the request it ends with, which can always be made.
    method StartSynchronizing()
      modifies this
      ensures View() == Restarted(old(View()))
      ensures forall db :: SynopsisForPeer(db, lastBlockDelegateHasSeen, idsOfItemsToGet).Success?
    {
      idsOfItemsToGet := [];
      numberOfUnfetchedItemIds := 0;
      weNeedSyncItemsFromPeer := true;
      lastBlockDelegateHasSeen := Zero;
    }
  }

  lemma MergeIgnoresRequest(v: PeerView, known: set<BlockId>, otherFronts: set<BlockId>, ids: seq<BlockId>)
    ensures Merge(v.(requested := None), known, otherFronts, ids) == Merge(v, known, otherFronts, ids)
  {
    hide KnownPrefix, CutAt;
  }

  lemma SynopsisForPeerIs(db: ChainState, lastSeen: BlockId, pending: seq<BlockId>)
    ensures SynopsisForPeer(db, lastSeen, pending) ==
            match SynopsisOf(db, lastSeen, |pending|)
            case Failure(e) => Failure(e)
            case Success(d) =>
              if pending == [] then Success(d)
              else if FirstNumber(d) >= Num(pending[0]) + |pending| then Failure(PendingIndexOutOfRange)
              else Success(d + PendingSample(pending, Num(pending[0]), FirstNumber(d)))
  {
    hide PendingSample, ChainSynopsis;
  }

  lemma PendingSampleOver(pending: seq<BlockId>, first: nat, low: nat)
    requires pending != [] && low > first + |pending| - 1
    ensures PendingSample(pending, first, low) == []
  {
  }

  lemma PendingSampleStep(pending: seq<BlockId>, first: nat, low: nat, before: seq<BlockId>, after: seq<BlockId>)
    requires pending != [] && low <= first + |pending| - 1
    requires after == if low >= first then before + [pending[low - first]] else before
    ensures before + PendingSample(pending, first, low)
         == after + PendingSample(pending, first, NextHeight(low, first + |pending| - 1))
  {
  }
}
