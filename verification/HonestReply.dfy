/** What an honest responder's reply is, whatever it is asked, and what the requester makes of it. */
module HonestReply {
  import opened Wrappers
  import opened Chain
  import opened Synopsis
  import opened SyncPeer
  import opened PeerSync
  import opened BlockIdServer

  function Reach(chain: seq<BlockId>, j: nat, limit: nat): nat {
    if j + limit <= |chain| then j + limit else |chain|
  }

  // A reply is empty or a stretch of the chain, with the exact number of blocks after it.
  lemma ReplyIsStretch(server: ChainState, synopsis: seq<BlockId>, limit: nat) returns (start: nat)
    requires server.Valid()
    ensures var o := ReplyTo(server, synopsis, limit);
            if o.ids == [] then o.remaining == 0
            else start + |o.ids| + o.remaining == |server.main| && o.ids == server.main[start..start + |o.ids|]
  {
    hide LastRecognised, Num;
    match AnswerTo(server, synopsis, limit)
    case Failure(_) =>
      start := 0;
    case Success(o) =>
      if server.main == [] {
        start := 0;
      } else if MeansNoBlocks(synopsis) {
        start := 0;
      } else {
        var e := LastRecognised(server, synopsis).value;
        start := if e == Zero then 0 else Num(e) - 1;
        RecognisedIsOnChain(server, e);
      }
  }

  lemma RecognisedIsOnChain(server: ChainState, e: BlockId)
    requires Recognised(server, e)
    ensures if e == Zero then Num(e) == 0 else 1 <= Num(e) <= |server.main| && server.main[Num(e) - 1] == e
  {
  }

  lemma StretchNumbers(chain: seq<BlockId>, j: nat, m: nat)
    requires IsChain(chain) && j <= m <= |chain|
    ensures Sequential(chain[j..m])
    ensures j < m ==> Num(chain[j..m][0]) == j + 1
  {
    forall i | j <= i < m ensures Num(chain[i]) == i + 1 {
      ChainPrefix(chain, i);
    }
  }

  // Any stretch of the responder's chain that starts at an entry of the request fits it.
  lemma StretchFits(chain: seq<BlockId>, j: nat, m: nat, synopsis: seq<BlockId>)
    requires IsChain(chain) && j < m <= |chain|
    requires if synopsis == [] then j == 0 else chain[j] in synopsis
    ensures FitsRequest(synopsis, chain[j..m])
  {
    StretchNumbers(chain, j, m);
  }

  // Every reply of every honest responder passes the checks, whatever either node's blocks are.
  lemma EveryReplyFits(server: ChainState, synopsis: seq<BlockId>, limit: nat)
    requires server.Valid() && Zero !in synopsis
    ensures FitsRequest(synopsis, ReplyTo(server, synopsis, limit).ids)
  {
    hide LastRecognised, Num, FitsRequest;
    var o := ReplyTo(server, synopsis, limit);
    if o.ids == [] {
      EmptyFits(synopsis);
    } else if synopsis == [] {
      StretchFits(server.main, 0, |o.ids|, synopsis);
    } else {
      var e := LastRecognised(server, synopsis).value;
      RecognisedIsOnChain(server, e);
      assert e in synopsis;
      StretchFits(server.main, Num(e) - 1, Num(e) - 1 + |o.ids|, synopsis);
    }
  }

  lemma EmptyFits(synopsis: seq<BlockId>)
    ensures FitsRequest(synopsis, [])
  {
  }

  // A second request may go out before the first is answered, and the first answer is then
  // checked against the second. It passes exactly when it starts at a block named there.
  lemma LateReplyFitsIff(server: ChainState, first: seq<BlockId>, second: seq<BlockId>, limit: nat)
    requires server.Valid()
    ensures var ids := ReplyTo(server, first, limit).ids;
            FitsRequest(second, ids) <==>
            ids == [] || (if second == [] then ids[0] == server.main[0] else ids[0] in second)
  {
    hide ReplyTo, Num;
    var ids := ReplyTo(server, first, limit).ids;
    var start := ReplyIsStretch(server, first, limit);
    if ids != [] {
      StretchNumbers(server.main, start, start + |ids|);
      StretchNumbers(server.main, 0, |server.main|);
      assert server.main[0..|server.main|][0] == server.main[0];
      assert ids[0] == server.main[start];
      if ids[0] == server.main[0] {
        ChainIsDistinct(server.main, start, 0);
      }
    }
  }

  // A request that ends with one of the responder's blocks is answered from that block on.
  lemma AnswerAfter(server: ChainState, synopsis: seq<BlockId>, limit: nat, j: nat)
    requires server.Valid() && j < |server.main| && limit >= 1
    requires synopsis != [] && synopsis[|synopsis| - 1] == server.main[j]
    ensures var m := Reach(server.main, j, limit);
            && j < m
            && ReplyTo(server, synopsis, limit) == Offer(server.main[j..m], |server.main| - m)
  {
    ChainPrefix(server.main, j);
    assert Recognised(server, server.main[j]);
    assert LastRecognised(server, synopsis) == Some(server.main[j]);
  }

  // The responder stops counting the requester among those that need blocks exactly when it has
  // none, the request names some but none of its own, or the last of its own named is its head;
  // a limit of one id says so always.
  lemma StillNeedsIff(server: ChainState, synopsis: seq<BlockId>, limit: nat)
    requires server.Valid() && limit >= 1 && Zero !in synopsis
    ensures !StillNeedsItems(synopsis, ReplyTo(server, synopsis, limit).ids) <==>
            server.main == [] ||
            (synopsis != [] &&
              (limit == 1 || LastRecognised(server, synopsis) in {None, Some(server.main[|server.main| - 1])}))
  {
    hide LastRecognised, Num, ChainState.Valid;
    if server.main != [] && synopsis != [] && LastRecognised(server, synopsis).Some? {
      var e := LastRecognised(server, synopsis).value;
      RecognisedPlace(server, synopsis);
      var chain := server.main;
      var ids := ReplyTo(server, synopsis, limit).ids;
      var high := Reach(chain, Num(e) - 1, limit);
      assert ids == chain[Num(e) - 1..high] && ids[0] == e;
      if e == chain[|chain| - 1] {
        HeadNumber(server);
      }
    }
  }

  lemma RecognisedPlace(server: ChainState, synopsis: seq<BlockId>)
    requires Zero !in synopsis && LastRecognised(server, synopsis).Some?
    ensures var e := LastRecognised(server, synopsis).value;
            e in synopsis && 1 <= Num(e) <= |server.main| && server.main[Num(e) - 1] == e
  {
    hide LastRecognised;
    var e := LastRecognised(server, synopsis).value;
    assert e in synopsis;
    RecognisedIsOnChain(server, e);
  }

  lemma HeadNumber(server: ChainState)
    requires server.Valid() && server.main != []
    ensures Num(server.main[|server.main| - 1]) == |server.main|
  {
    ChainPrefix(server.main, |server.main| - 1);
  }

  // The state after a reply that leaves this list and this many blocks unnamed.
  function Renewed(v: PeerView, list: seq<BlockId>, unfetched: nat): PeerView {
    v.(requested := None, idsToGet := list, unfetched := unfetched)
  }

  // A reply that starts at the last listed block extends the list, wherever the delegate is.
  lemma TakeExtension(v: PeerView, known: set<BlockId>, otherFronts: set<BlockId>, chain: seq<BlockId>, j: nat, m: nat, m': nat)
    requires j < m <= m' <= |chain| && v.idsToGet == chain[j..m]
    requires v.requested.Some? && FitsRequest(v.requested.value, chain[m - 1..m'])
    ensures TakeReply(v, known, otherFronts, chain[m - 1..m'], |chain| - m') ==
            (Renewed(v, chain[j..m'], |chain| - m'), NextAction(chain[j..m'], |chain| - m'))
  {
    hide FitsRequest;
    var ids := chain[m - 1..m'];
    assert CutAt(chain[j..m], ids[0]) == chain[j..m];
    assert chain[j..m][..m - j - 1] + ids == chain[j..m'];
    assert Merge(v, known, otherFronts, ids) == Merged(chain[j..m'], v.lastSeen);
  }

  lemma ChainIsDistinct(chain: seq<BlockId>, i: nat, j: nat)
    requires IsChain(chain) && i < |chain| && j < |chain| && chain[i] == chain[j]
    ensures i == j
  {
    ChainPrefix(chain, i);
    ChainPrefix(chain, j);
  }
}
