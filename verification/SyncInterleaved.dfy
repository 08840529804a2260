/** Runs with an honest responder in which anything may happen between a request and its reply:
    blocks are taken off the list, worked on and accepted, and the node's own chain changes. */
module SyncInterleaved {
  import opened Wrappers
  import opened Chain
  import opened Synopsis
  import opened SyncPeer
  import opened PeerSync
  import opened BlockIdServer
  import opened HonestReply
  import opened PeerListSafety

  // The peer answers the request that is outstanding, and there is one at a time.
  ghost predicate Honest(server: ChainState, limit: nat, w: World, e: Event) {
    match e
    case Requested => w.v.requested == None
    case Replied(_, ids, remaining) =>
      w.v.requested.Some? && Offer(ids, remaining) == ReplyTo(server, w.v.requested.value, limit)
    case StartedOver => w.v.requested == None
    case _ => true
  }

  ghost predicate IsHonestRun(server: ChainState, limit: nat, ws: seq<World>, es: seq<Event>) {
    && server.Valid() && limit >= 1
    && IsRun(ws, es)
    && forall k :: 0 <= k < |es| ==> Honest(server, limit, ws[k], es[k])
  }

  // ---------- The invariant ----------

  // How far the responder has named its blocks.
  function Named(v: PeerView, chain: seq<BlockId>): int {
    |chain| - v.unfetched
  }

  // The list is the stretch of the responder's chain that ends where its naming ends.
  ghost predicate ListsStretch(v: PeerView, chain: seq<BlockId>) {
    && |v.idsToGet| <= Named(v, chain) <= |chain|
    && v.idsToGet == chain[Named(v, chain) - |v.idsToGet|..Named(v, chain)]
  }

  // An outstanding request ends with the last listed block.
  ghost predicate AsksAfterList(v: PeerView) {
    v.requested.Some? ==>
      && Zero !in v.requested.value
      && (v.idsToGet != [] ==>
            v.requested.value != [] && v.requested.value[|v.requested.value| - 1] == v.idsToGet[|v.idsToGet| - 1])
  }

  ghost predicate Inv(w: World, chain: seq<BlockId>) {
    && w.db.Valid()
    && ListsStretch(w.v, chain)
    && AsksAfterList(w.v)
    && forall id :: id in w.processing ==> id in chain
  }

  // ---------- One event ----------

  lemma RequestAsksAfterList(w: World, chain: seq<BlockId>)
    requires Inv(w, chain) && IsChain(chain) && SendRequest(w.v, w.db).Some?
    ensures AsksAfterList(SendRequest(w.v, w.db).value)
  {
    hide JoinedSynopsis, LowHeight, SummarisedChain, ChainState.Valid;
    var v, db := w.v, w.db;
    RequestNeedsKnown(v, db);
    StretchIsRun(v, chain);
    RequestHasNoZero(v, db);
    if v.idsToGet != [] {
      RequestInRangeIff(db, v.lastSeen, v.idsToGet);
      SummaryIsSummarisable(db, v.lastSeen);
      JoinedSynopsisShape(SummarisedChain(db, v.lastSeen), LowHeight(db, v.lastSeen), v.idsToGet);
    }
  }

  lemma StretchIsRun(v: PeerView, chain: seq<BlockId>)
    requires IsChain(chain) && ListsStretch(v, chain) && (v.requested.Some? ==> Zero !in v.requested.value)
    ensures PeerInv(v)
  {
    var m := Named(v, chain);
    StretchNumbers(chain, m - |v.idsToGet|, m);
  }

  // With ids listed, a reply extends the list by the next blocks of the responder's chain and
  // does nothing else, whatever was taken off the list or accepted since the request.
  lemma ReplyExtendsList(w: World, server: ChainState, limit: nat, otherFronts: set<BlockId>)
    requires server.Valid() && limit >= 1 && Inv(w, server.main)
    requires w.v.idsToGet != [] && w.v.requested.Some?
    ensures var chain, o := server.main, ReplyTo(server, w.v.requested.value, limit);
            var m := Named(w.v, server.main);
            var m' := Reach(chain, m - 1, limit);
            && o == Offer(chain[m - 1..m'], |chain| - m')
            && TakeReply(w.v, w.db.known, otherFronts, o.ids, o.remaining) ==
               (Renewed(w.v, chain[m - |w.v.idsToGet|..m'], |chain| - m'),
                NextAction(chain[m - |w.v.idsToGet|..m'], |chain| - m'))
  {
    hide ReplyTo, TakeReply, FitsRequest, Inv, IsChain, Renewed, NextAction, ChainState.Valid;
    var chain, s := server.main, w.v.requested.value;
    var m := Named(w.v, chain);
    AskedLast(w, chain);
    AnswerAfter(server, s, limit, m - 1);
    ServerChain(server);
    ExtensionIsTaken(w.v, w.db.known, otherFronts, chain, m, Reach(chain, m - 1, limit));
  }

  // What the invariant says with ids listed and a request outstanding.
  lemma AskedLast(w: World, chain: seq<BlockId>)
    requires Inv(w, chain) && w.v.idsToGet != [] && w.v.requested.Some?
    ensures var m, s := Named(w.v, chain), w.v.requested.value;
            && |w.v.idsToGet| <= m <= |chain| && w.v.idsToGet == chain[m - |w.v.idsToGet|..m]
            && s != [] && s[|s| - 1] == chain[m - 1]
  {
    hide ChainState.Valid;
  }

  lemma ExtensionIsTaken(v: PeerView, known: set<BlockId>, otherFronts: set<BlockId>, chain: seq<BlockId>, m: nat, m': nat)
    requires IsChain(chain) && 0 < |v.idsToGet| <= m <= m' <= |chain|
    requires v.idsToGet == chain[m - |v.idsToGet|..m]
    requires v.requested.Some? && chain[m - 1] in v.requested.value
    ensures TakeReply(v, known, otherFronts, chain[m - 1..m'], |chain| - m') ==
            (Renewed(v, chain[m - |v.idsToGet|..m'], |chain| - m'), NextAction(chain[m - |v.idsToGet|..m'], |chain| - m'))
  {
    hide TakeReply, FitsRequest, IsChain, Renewed, NextAction;
    StretchFits(chain, m - 1, m', v.requested.value);
    TakeExtension(v, known, otherFronts, chain, m - |v.idsToGet|, m, m');
  }

  lemma ServerChain(server: ChainState)
    requires server.Valid()
    ensures IsChain(server.main)
  {
  }

  // How many ids at the front of a reply are dropped when the list is empty.
  function Dropped(ids: seq<BlockId>, known: set<BlockId>, otherFronts: set<BlockId>): (n: nat)
    ensures n <= |ids|
  {
    if ids == [] || ids[0] in otherFronts then 0 else KnownPrefix(ids, known)
  }

  // With nothing listed, the list becomes the reply without the blocks the delegate has, unless
  // the reply says there is nothing new.
  lemma ReplyFillsList(w: World, otherFronts: set<BlockId>, ids: seq<BlockId>, remaining: nat)
    requires w.v.idsToGet == [] && w.v.requested.Some? && FitsRequest(w.v.requested.value, ids)
    ensures var r := TakeReply(w.v, w.db.known, otherFronts, ids, remaining);
            var n := Dropped(ids, w.db.known, otherFronts);
            if SaysUpToDate(w.v, w.db.known, ids, remaining) then r == (w.v.(requested := None, needSync := false), InSync)
            else r == (Renewed(w.v, ids[n..], remaining).(lastSeen := if n == 0 then w.v.lastSeen else ids[n - 1]),
                       NextAction(ids[n..], remaining))
  {
    hide FitsRequest;
    if ids == [] {
      assert ids[0..] == w.v.idsToGet;
    } else if ids[0] in otherFronts {
      assert ids[0..] == ids;
    }
  }

  lemma ReplyKeepsInv(w: World, server: ChainState, limit: nat, otherFronts: set<BlockId>)
    requires server.Valid() && limit >= 1 && Inv(w, server.main) && w.v.requested.Some?
    ensures var o := ReplyTo(server, w.v.requested.value, limit);
            var r := TakeReply(w.v, w.db.known, otherFronts, o.ids, o.remaining);
            Inv(w.(v := r.0), server.main) && r.1 !in {Ignore, Disconnect}
  {
    hide ReplyTo, TakeReply, FitsRequest, Inv, Dropped, Renewed, SaysUpToDate;
    var chain, o := server.main, ReplyTo(server, w.v.requested.value, limit);
    if w.v.idsToGet != [] {
      ReplyExtendsList(w, server, limit, otherFronts);
      NamedIsInRange(w, chain);
      ExtensionKeepsInv(w, chain, Reach(chain, Named(w.v, chain) - 1, limit));
    } else {
      NoZeroAsked(w, chain);
      EveryReplyFits(server, w.v.requested.value, limit);
      ReplyFillsList(w, otherFronts, o.ids, o.remaining);
      var start := ReplyIsStretch(server, w.v.requested.value, limit);
      FillingKeepsInv(w, chain, otherFronts, o, start);
    }
  }

  lemma NamedIsInRange(w: World, chain: seq<BlockId>)
    requires Inv(w, chain)
    ensures |w.v.idsToGet| <= Named(w.v, chain) <= |chain|
  {
    hide ChainState.Valid;
  }

  lemma NoZeroAsked(w: World, chain: seq<BlockId>)
    requires Inv(w, chain) && w.v.requested.Some?
    ensures Zero !in w.v.requested.value
  {
    hide ChainState.Valid;
  }

  lemma ExtensionKeepsInv(w: World, chain: seq<BlockId>, m: nat)
    requires Inv(w, chain) && w.v.idsToGet != [] && Named(w.v, chain) <= m <= |chain|
    ensures |w.v.idsToGet| <= Named(w.v, chain)
    ensures Inv(w.(v := Renewed(w.v, chain[Named(w.v, chain) - |w.v.idsToGet|..m], |chain| - m)), chain)
  {
    hide ChainState.Valid;
  }

  lemma FillingKeepsInv(w: World, chain: seq<BlockId>, otherFronts: set<BlockId>, o: Offer, start: nat)
    requires Inv(w, chain) && w.v.idsToGet == []
    requires if o.ids == [] then o.remaining == 0
             else start + |o.ids| + o.remaining == |chain| && o.ids == chain[start..start + |o.ids|]
    ensures var n := Dropped(o.ids, w.db.known, otherFronts);
            Inv(w.(v := Renewed(w.v, o.ids[n..], o.remaining).(lastSeen := if n == 0 then w.v.lastSeen else o.ids[n - 1])), chain)
    ensures Inv(w.(v := w.v.(requested := None, needSync := false)), chain)
  {
    hide ChainState.Valid, Dropped;
    FilledIsStretch(w, chain, otherFronts, o, start);
  }

  lemma FilledIsStretch(w: World, chain: seq<BlockId>, otherFronts: set<BlockId>, o: Offer, start: nat)
    requires Inv(w, chain) && w.v.idsToGet == []
    requires if o.ids == [] then o.remaining == 0
             else start + |o.ids| + o.remaining == |chain| && o.ids == chain[start..start + |o.ids|]
    ensures var n := Dropped(o.ids, w.db.known, otherFronts);
            var v := Renewed(w.v, o.ids[n..], o.remaining).(lastSeen := if n == 0 then w.v.lastSeen else o.ids[n - 1]);
            ListsStretch(v, chain)
  {
    hide ChainState.Valid, AsksAfterList, KnownPrefix;
    var n := Dropped(o.ids, w.db.known, otherFronts);
    if o.ids != [] {
      var m := start + |o.ids|;
      assert o.ids[n..] == chain[start + n..m];
    }
  }

  lemma EventKeepsInv(server: ChainState, limit: nat, w: World, e: Event)
    requires server.Valid() && limit >= 1 && Inv(w, server.main)
    requires IsEvent(w, e) && Honest(server, limit, w, e)
    ensures Inv(After(w, e), server.main)
  {
    hide ReplyTo, TakeReply, SendRequest, ChainState.Valid, Inv;
    match e
    case Requested =>
      ServerChain(server);
      RequestKeepsInv(w, server.main);
    case Replied(otherFronts, _, _) =>
      ReplyKeepsInv(w, server, limit, otherFronts);
    case TakenOff =>
      TakingOffKeepsInv(w, server.main);
    case Grown(newDb) =>
      SameListKeepsInv(w, w.(db := newDb), server.main);
    case Accepted(_) =>
      InvHasBlocks(w, server.main);
      SameListKeepsInv(w, After(w, e), server.main);
    case CrossedOff(_) =>
      InvHasBlocks(w, server.main);
      SameListKeepsInv(w, After(w, e), server.main);
    case Seen(_) =>
      InvHasBlocks(w, server.main);
      SameListKeepsInv(w, After(w, e), server.main);
    case StartedOver =>
      StartingOverKeepsInv(w, server.main);
  }

  // Nothing but the database, the last seen block and a finished block differs.
  lemma SameListKeepsInv(w: World, w': World, chain: seq<BlockId>)
    requires Inv(w, chain) && w'.db.Valid() && w'.processing <= w.processing
    requires w'.v == w.v.(lastSeen := w'.v.lastSeen)
    ensures Inv(w', chain)
  {
    hide ChainState.Valid;
  }

  lemma InvHasBlocks(w: World, chain: seq<BlockId>)
    requires Inv(w, chain)
    ensures w.db.Valid()
  {
    hide ChainState.Valid;
  }

  lemma RequestKeepsInv(w: World, chain: seq<BlockId>)
    requires Inv(w, chain) && IsChain(chain) && SendRequest(w.v, w.db).Some?
    ensures Inv(w.(v := SendRequest(w.v, w.db).value), chain)
  {
    hide SendRequest, ChainState.Valid, AsksAfterList;
    RequestAsksAfterList(w, chain);
    OnlyRequests(w.v, w.db);
  }

  lemma StartingOverKeepsInv(w: World, chain: seq<BlockId>)
    requires Inv(w, chain) && w.v.requested == None
    ensures Inv(w.(v := Restarted(w.v)), chain)
  {
    hide ChainState.Valid;
  }

  lemma OnlyRequests(v: PeerView, db: ChainState)
    requires SendRequest(v, db).Some?
    ensures SendRequest(v, db).value == v.(requested := SendRequest(v, db).value.requested)
  {
  }

  lemma TakingOffKeepsInv(w: World, chain: seq<BlockId>)
    requires Inv(w, chain) && w.v.idsToGet != []
    ensures Inv(After(w, TakenOff), chain)
  {
    hide ChainState.Valid;
    var list := w.v.idsToGet;
    var m := Named(w.v, chain);
    assert list[1..] == chain[m - |list| + 1..m];
    assert list[0] == chain[m - |list|];
  }

  // ---------- Over every run ----------

  lemma {:induction false} EveryRunKeepsInv(server: ChainState, limit: nat, ws: seq<World>, es: seq<Event>, i: nat)
    requires IsHonestRun(server, limit, ws, es) && i < |ws|
    ensures Inv(ws[i], server.main)
    decreases i
  {
    hide After, IsEvent, Inv, ChainState.Valid, Honest;
    if i > 0 {
      EveryRunKeepsInv(server, limit, ws, es, i - 1);
      assert IsStep(ws, es, i - 1);
      EventKeepsInv(server, limit, ws[i - 1], es[i - 1]);
    } else {
      FreshInv(ws[0], server.main);
    }
  }

  lemma FreshInv(w: World, chain: seq<BlockId>)
    requires w.db.Valid() && IsFresh(w)
    ensures Inv(w, chain)
  {
    hide ChainState.Valid;
    assert chain[|chain|..] == [];
  }

  // In sync: the delegate has all of the responder's blocks, or none of the blocks named in the
  // request is one of the responder's.
  ghost predicate InSyncIsRight(w: World, server: ChainState) {
    (forall id :: id in server.main ==> id in w.db.known) ||
    (server.main != [] && w.v.requested.Some? && w.v.requested.value != [] && LastRecognised(server, w.v.requested.value) == None)
  }

  lemma InSyncMeans(w: World, server: ChainState, limit: nat, otherFronts: set<BlockId>)
    requires server.Valid() && limit >= 1 && Inv(w, server.main) && w.v.requested.Some?
    requires var o := ReplyTo(server, w.v.requested.value, limit);
             TakeReply(w.v, w.db.known, otherFronts, o.ids, o.remaining).1 == InSync
    ensures InSyncIsRight(w, server)
  {
    hide FitsRequest, Merge, ChainState.Valid, LastRecognised;
    var chain, o := server.main, ReplyTo(server, w.v.requested.value, limit);
    var start := ReplyIsStretch(server, w.v.requested.value, limit);
    ServerChain(server);
    if o.ids == [] {
      EmptyReplyMeans(server, w.v.requested.value, limit);
    } else {
      assert o.ids[0] == chain[|chain| - 1];
      forall id | id in chain ensures id in w.db.known {
        var i :| 0 <= i < |chain| && chain[i] == id;
        AncestorsKnown(w.db, chain, i, |chain| - 1);
      }
    }
  }

  lemma EmptyReplyMeans(server: ChainState, synopsis: seq<BlockId>, limit: nat)
    requires server.Valid() && limit >= 1 && ReplyTo(server, synopsis, limit).ids == [] && Zero !in synopsis
    ensures server.main == [] || (synopsis != [] && LastRecognised(server, synopsis) == None)
  {
    hide LastRecognised, Num;
    if server.main != [] && synopsis != [] && LastRecognised(server, synopsis).Some? {
      RecognisedIsOnChain(server, LastRecognised(server, synopsis).value);
    }
  }

  // Safety: in every state of every run the list is a stretch of the responder's chain, and the
  // reply to an outstanding request passes the checks, however the blocks named in it have
  // fared since; and if it ends synchronisation it does so rightly.
  lemma EveryRunIsSafe(server: ChainState, limit: nat, ws: seq<World>, es: seq<Event>, i: nat, otherFronts: set<BlockId>)
    requires IsHonestRun(server, limit, ws, es) && i < |ws|
    ensures Inv(ws[i], server.main)
    ensures ws[i].v.requested.Some? ==>
              var o := ReplyTo(server, ws[i].v.requested.value, limit);
              var r := TakeReply(ws[i].v, ws[i].db.known, otherFronts, o.ids, o.remaining);
              r.1 !in {Ignore, Disconnect} && (r.1 == InSync ==> InSyncIsRight(ws[i], server))
  {
    hide ReplyTo, TakeReply, Inv, InSyncIsRight;
    EveryRunKeepsInv(server, limit, ws, es, i);
    if ws[i].v.requested.Some? {
      ReplyKeepsInv(ws[i], server, limit, otherFronts);
      var o := ReplyTo(server, ws[i].v.requested.value, limit);
      if TakeReply(ws[i].v, ws[i].db.known, otherFronts, o.ids, o.remaining).1 == InSync {
        InSyncMeans(ws[i], server, limit, otherFronts);
      }
    }
  }

  // ---------- Blocks listed again while they are being worked on ----------

  // A reply that meets an empty list lists exactly the blocks in it that the delegate lacks. So a
  // block being worked on is listed again exactly when the reply has it and it is not accepted yet.
  lemma ListsAgainIff(w: World, server: ChainState, limit: nat, otherFronts: set<BlockId>, id: BlockId)
    requires server.Valid() && limit >= 1 && Inv(w, server.main) && w.v.requested.Some?
    requires w.v.idsToGet == []
    requires var o := ReplyTo(server, w.v.requested.value, limit);
             o.ids == [] || o.ids[0] !in otherFronts
    ensures var o := ReplyTo(server, w.v.requested.value, limit);
            id in TakeReply(w.v, w.db.known, otherFronts, o.ids, o.remaining).0.idsToGet <==> id in o.ids && id !in w.db.known
  {
    hide ReplyTo, TakeReply, FitsRequest, ChainState.Valid, Inv, IsChain;
    var o := ReplyTo(server, w.v.requested.value, limit);
    NoZeroAsked(w, server.main);
    InvHasBlocks(w, server.main);
    EveryReplyFits(server, w.v.requested.value, limit);
    ReplyFillsList(w, otherFronts, o.ids, o.remaining);
    var start := ReplyIsStretch(server, w.v.requested.value, limit);
    ServerChain(server);
    if o.ids != [] {
      KnownComeFirst(w.db, server.main, start, o.ids, id);
    }
  }

  // Of a stretch of a chain, those the delegate has come first.
  lemma KnownComeFirst(db: ChainState, chain: seq<BlockId>, start: nat, ids: seq<BlockId>, id: BlockId)
    requires db.Valid() && IsChain(chain)
    requires start + |ids| <= |chain| && ids == chain[start..start + |ids|]
    ensures id in ids[KnownPrefix(ids, db.known)..] <==> id in ids && id !in db.known
  {
    hide ChainState.Valid, IsChain, KnownPrefix;
    var n := KnownPrefix(ids, db.known);
    forall k | n <= k < |ids| ensures ids[k] !in db.known {
      UnknownFromThere(db, chain, start, ids, k);
    }
    RestWithout(ids, n, db.known, id);
  }

  lemma UnknownFromThere(db: ChainState, chain: seq<BlockId>, start: nat, ids: seq<BlockId>, k: nat)
    requires db.Valid() && IsChain(chain)
    requires start + |ids| <= |chain| && ids == chain[start..start + |ids|]
    requires KnownPrefix(ids, db.known) <= k < |ids|
    ensures ids[k] !in db.known
  {
    hide ChainState.Valid, IsChain, KnownPrefix;
    var n := KnownPrefix(ids, db.known);
    if chain[start + k] in db.known {
      AncestorsKnown(db, chain, start + n, start + k);
    }
  }

  lemma RestWithout(ids: seq<BlockId>, n: nat, known: set<BlockId>, id: BlockId)
    requires n <= |ids| && (forall i :: 0 <= i < n ==> ids[i] in known) && (forall i :: n <= i < |ids| ==> ids[i] !in known)
    ensures id in ids[n..] <==> id in ids && id !in known
  {
  }

  // A reply that starts with the front of another peer's list is listed whole, with the blocks
  // the delegate has, unless it says there is nothing new.
  lemma ListsAgainBehindOthersIff(w: World, server: ChainState, limit: nat, otherFronts: set<BlockId>, id: BlockId)
    requires server.Valid() && limit >= 1 && Inv(w, server.main) && w.v.requested.Some?
    requires w.v.idsToGet == []
    requires var o := ReplyTo(server, w.v.requested.value, limit);
             o.ids != [] && o.ids[0] in otherFronts
    ensures var o := ReplyTo(server, w.v.requested.value, limit);
            id in TakeReply(w.v, w.db.known, otherFronts, o.ids, o.remaining).0.idsToGet <==>
            id in o.ids && !SaysUpToDate(w.v, w.db.known, o.ids, o.remaining)
  {
    hide ReplyTo, TakeReply, FitsRequest, ChainState.Valid, Inv, SaysUpToDate;
    var o := ReplyTo(server, w.v.requested.value, limit);
    NoZeroAsked(w, server.main);
    EveryReplyFits(server, w.v.requested.value, limit);
    ReplyFillsList(w, otherFronts, o.ids, o.remaining);
    assert o.ids[0..] == o.ids;
  }

  // With ids listed, a reply newly lists exactly the responder's blocks numbered above all those
  // it has named and no higher than its limit reaches, whether or not they are being worked on.
  lemma ListsAgainBehindListIff(w: World, server: ChainState, limit: nat, otherFronts: set<BlockId>, id: BlockId)
    requires server.Valid() && limit >= 1 && Inv(w, server.main) && w.v.requested.Some?
    requires w.v.idsToGet != [] && id in server.main
    ensures var o := ReplyTo(server, w.v.requested.value, limit);
            var list := TakeReply(w.v, w.db.known, otherFronts, o.ids, o.remaining).0.idsToGet;
            var m := Named(w.v, server.main);
            id in list && id !in w.v.idsToGet <==> m < Num(id) <= Reach(server.main, m - 1, limit)
  {
    hide ReplyTo, TakeReply, ChainState.Valid, Inv, IsChain;
    var chain, n := server.main, |w.v.idsToGet|;
    var m := Named(w.v, chain);
    ReplyExtendsList(w, server, limit, otherFronts);
    ServerChain(server);
    AskedLast(w, chain);
    InStretchIff(chain, m - n, m, id);
    InStretchIff(chain, m - n, Reach(chain, m - 1, limit), id);
  }

  lemma InStretchIff(chain: seq<BlockId>, j: nat, m: nat, id: BlockId)
    requires IsChain(chain) && j <= m <= |chain| && id in chain
    ensures id in chain[j..m] <==> j < Num(id) <= m
  {
    hide IsChain;
    var k :| 0 <= k < |chain| && chain[k] == id;
    ChainPrefix(chain, k);
    if id in chain[j..m] {
      var i :| 0 <= i < m - j && chain[j..m][i] == id;
      ChainPrefix(chain, j + i);
    }
  }

  // So when every listed block was taken off between request and reply, and the last of them is
  // still being worked on, the reply lists it again at the front.
  lemma LastNamedIsListedAgain(w: World, server: ChainState, limit: nat, otherFronts: set<BlockId>)
    requires server.Valid() && limit >= 1 && Inv(w, server.main) && w.v.requested.Some? && w.v.requested.value != []
    requires var last := w.v.requested.value[|w.v.requested.value| - 1];
             w.v.idsToGet == [] && last in w.processing && last !in w.db.known
    ensures var o := ReplyTo(server, w.v.requested.value, limit);
            var list := TakeReply(w.v, w.db.known, otherFronts, o.ids, o.remaining).0.idsToGet;
            list != [] && list[0] == w.v.requested.value[|w.v.requested.value| - 1]
  {
    hide ReplyTo, TakeReply, FitsRequest, ChainState.Valid;
    var chain, s := server.main, w.v.requested.value;
    var o := ReplyTo(server, s, limit);
    var j :| 0 <= j < |chain| && chain[j] == s[|s| - 1];
    AnswerAfter(server, s, limit, j);
    EveryReplyFits(server, s, limit);
    ReplyFillsList(w, otherFronts, o.ids, o.remaining);
    assert o.ids[0] == chain[j];
  }

  // ---------- Progress ----------

  // With ids listed when it comes in, a reply names something new exactly when something is
  // left to name and the responder's limit is at least 2.
  lemma ReplyNamesMoreIff(w: World, server: ChainState, limit: nat, otherFronts: set<BlockId>)
    requires server.Valid() && limit >= 1 && Inv(w, server.main)
    requires w.v.idsToGet != [] && w.v.requested.Some?
    ensures var o := ReplyTo(server, w.v.requested.value, limit);
            var v := TakeReply(w.v, w.db.known, otherFronts, o.ids, o.remaining).0;
            v.unfetched <= w.v.unfetched && (v.unfetched < w.v.unfetched <==> w.v.unfetched > 0 && limit >= 2)
  {
    hide ReplyTo, TakeReply, ChainState.Valid;
    ReplyExtendsList(w, server, limit, otherFronts);
  }
}
