/** The answering side: the run of block ids a node offers for a peer's synopsis. */
module BlockIdServer {
  import opened Wrappers
  import opened Chain

  datatype ServeError = PeerOnUnreachableFork

  datatype Offer = Offer(ids: seq<BlockId>, remaining: nat)

  predicate Recognised(db: ChainState, id: BlockId) {
    id == Zero || (id in db.known && db.IsIncluded(id))
  }

  predicate MeansNoBlocks(synopsis: seq<BlockId>) {
    synopsis == [] || synopsis == [Zero]
  }

  // The offer that starts at the block start (block 1 when start is zero).
  function OfferFrom(main: seq<BlockId>, start: nat, limit: nat): (o: Offer)
    requires start <= |main|
  {
    var low := if start == 0 then 0 else start - 1;
    var high := if low + limit <= |main| then low + limit else |main|;
    Offer(main[low..high], if high == low then 0 else |main| - high)
  }

  // The last entry of the synopsis that is on our chain.
  function LastRecognised(db: ChainState, synopsis: seq<BlockId>): (e: Option<BlockId>)
    ensures match e
            case None => forall id :: id in synopsis ==> !Recognised(db, id)
            case Some(id) => Recognised(db, id) && exists k :: 0 <= k < |synopsis| && synopsis[k] == id && NoneRecognisedAfter(db, synopsis, k)
  {
    if synopsis == [] then None
    else
      var last := |synopsis| - 1;
      if Recognised(db, synopsis[last]) then
        assert NoneRecognisedAfter(db, synopsis, last);
        Some(synopsis[last])
      else
        assert forall k :: NoneRecognisedAfter(db, synopsis[..last], k) ==> NoneRecognisedAfter(db, synopsis, k);
        LastRecognised(db, synopsis[..last])
  }

  predicate NoneRecognisedAfter(db: ChainState, synopsis: seq<BlockId>, k: int) {
    forall j :: 0 <= k < j < |synopsis| ==> !Recognised(db, synopsis[j])
  }

  function AnswerTo(db: ChainState, synopsis: seq<BlockId>, limit: nat): Result<Offer, ServeError> {
    if db.main == [] then Success(Offer([], 0))
    else if MeansNoBlocks(synopsis) then Success(OfferFrom(db.main, 0, limit))
    else
      match LastRecognised(db, synopsis)
      case None => Failure(PeerOnUnreachableFork)
      case Some(e) => Success(OfferFrom(db.main, Num(e), limit))
  }

  // The entries are tried from the last to the first.
  method FindLastRecognised(db: ChainState, synopsis: seq<BlockId>) returns (found: Option<BlockId>)
    ensures found == LastRecognised(db, synopsis)
  {
    var i := |synopsis|;
    assert synopsis[..i] == synopsis;
    while i > 0
      invariant 0 <= i <= |synopsis|
      invariant LastRecognised(db, synopsis) == LastRecognised(db, synopsis[..i])
    {
      assert synopsis[..i][..i - 1] == synopsis[..i - 1];
      i := i - 1;
      if synopsis[i] == Zero || (synopsis[i] in db.known && db.IsIncluded(synopsis[i])) {
        return Some(synopsis[i]);
      }
    }
    found := None;
  }

  // The run of ids from the block after which the peer asked, that block included.
  method CollectIds(main: seq<BlockId>, start: nat, limit: nat) returns (o: Offer)
    requires IsChain(main) && start <= |main|
    ensures o == OfferFrom(main, start, limit)
  {
    hide Num, IsChain;
    ghost var low := if start == 0 then 0 else start - 1;
    var num := start;
    var result := [];
    while num <= |main| && |result| < limit
      invariant start <= num <= |main| + 1
      invariant result == main[low..if num == 0 then 0 else num - 1]
      invariant |result| <= limit
      decreases |main| + 1 - num
    {
      if num > 0 {
        result := result + [main[num - 1]];
      }
      num := num + 1;
    }
    var remaining := 0;
    if result != [] {
      ChainPrefix(main, low + |result| - 1);
      if Num(result[|result| - 1]) < |main| {
        remaining := |main| - Num(result[|result| - 1]);
      }
    }
    o := Offer(result, remaining);
  }

  // get_block_ids.
  method GetBlockIds(db: ChainState, synopsis: seq<BlockId>, limit: nat) returns (r: Result<Offer, ServeError>)
    requires db.Valid()
    ensures r == AnswerTo(db, synopsis, limit)
  {
    if db.HeadNum() == 0 {
      return Success(Offer([], 0));
    }
    var lastKnown := Zero;
    if !MeansNoBlocks(synopsis) {
      var found := FindLastRecognised(db, synopsis);
      if found.None? {
        return Failure(PeerOnUnreachableFork);
      }
      lastKnown := found.value;
    }
    var offer := CollectIds(db.main, Num(lastKnown), limit);
    r := Success(offer);
  }

  // The reply on the wire: a peer on an unreachable fork gets an empty list.
  function ReplyTo(db: ChainState, synopsis: seq<BlockId>, limit: nat): Offer {
    match AnswerTo(db, synopsis, limit)
    case Failure(_) => Offer([], 0)
    case Success(o) => o
  }

  // on_fetch_blockchain_item_ids_message: the reply, whether the peer still needs blocks from
  // us, whether synchronisation with it is restarted, and whether it is disconnected after the
  // reply because we had stopped fetching from it.
  method OnFetchBlockchainItemIds(db: ChainState, synopsis: seq<BlockId>, limit: nat, weNeedItems: bool, inhibited: bool)
    returns (reply: Offer, peerNeedsSyncItemsFromUs: bool, restart: bool, disconnect: bool)
    requires db.Valid()
    ensures reply == ReplyTo(db, synopsis, limit)
    ensures peerNeedsSyncItemsFromUs == StillNeedsItems(synopsis, reply.ids)
    ensures restart <==> !weNeedItems && synopsis != [] && synopsis[|synopsis| - 1] !in db.known
    ensures disconnect <==> inhibited && reply.ids != [] && !peerNeedsSyncItemsFromUs
  {
    reply := Offer([], 0);
    var answer := GetBlockIds(db, synopsis, limit);
    if answer.Success? {
      reply := answer.value;
    }
    disconnect := false;
    if reply.ids == [] {
      peerNeedsSyncItemsFromUs := false;
    } else if synopsis != [] && |reply.ids| == 1 && reply.ids[|reply.ids| - 1] in synopsis {
      peerNeedsSyncItemsFromUs := false;
      disconnect := inhibited;
    } else {
      peerNeedsSyncItemsFromUs := true;
    }
    restart := !weNeedItems && synopsis != [] && synopsis[|synopsis| - 1] !in db.known;
  }

  predicate StillNeedsItems(synopsis: seq<BlockId>, ids: seq<BlockId>) {
    ids != [] && !(|ids| == 1 && ids[0] in synopsis)
  }
}
