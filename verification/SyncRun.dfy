/** How synchronisation with an honest responder goes forward: exchanges of a request and its
    reply with nothing in between, and the node following the actions its handler returns until
    it is in sync. */
module SyncRun {
  import opened Wrappers
  import opened Chain
  import opened Synopsis
  import opened SyncPeer
  import opened PeerSync
  import opened BlockIdServer
  import opened HonestReply
  import opened ResyncCost
  import PeerListSafety

  // The last block the requester cannot undo is on the responder's chain.
  ghost predicate Agrees(db: ChainState, chain: seq<BlockId>) {
    db.main == [] ||
    (var low := if db.lastIrreversible == 0 then 1 else db.lastIrreversible;
     low <= |chain| && low <= |db.main| && db.main[low - 1] == chain[low - 1])
  }

  // Nothing asked yet.
  ghost predicate Fresh(v: PeerView) {
    v.idsToGet == [] && v.lastSeen == Zero && v.unfetched == 0 && v.needSync
  }

  // The responder has named its blocks up to m; the first k of them are delivered.
  ghost predicate Tracking(v: PeerView, db: ChainState, chain: seq<BlockId>, k: nat, m: nat) {
    && k <= m <= |chain| && 1 <= m
    && v.idsToGet == chain[k..m]
    && v.lastSeen == TipAt(chain, k)
    && (k > 0 ==> chain[k - 1] in db.known)
    && (k < m ==> chain[k] !in db.known)
    && v.unfetched == |chain| - m
    && v.needSync
  }

  // The requester has all of the responder's blocks and said so.
  ghost predicate Done(v: PeerView, db: ChainState, chain: seq<BlockId>) {
    && !v.needSync && v.idsToGet == []
    && forall i :: 0 <= i < |chain| ==> chain[i] in db.known
  }

  ghost predicate SyncInv(v: PeerView, db: ChainState, chain: seq<BlockId>) {
    && db.Valid() && IsChain(chain) && Agrees(db, chain)
    && (Fresh(v) || Done(v, db, chain) || exists k: nat, m: nat :: Tracking(v, db, chain, k, m))
  }

  // One request and its reply. None: the peer is on a fork we cannot switch to.
  ghost function Exchange(v: PeerView, db: ChainState, server: ChainState, otherFronts: set<BlockId>, limit: nat): Option<(PeerView, Action)> {
    match SendRequest(v, db)
    case None => None
    case Some(asked) =>
      var offer := ReplyTo(server, asked.requested.value, limit);
      Some(TakeReply(asked, db.known, otherFronts, offer.ids, offer.remaining))
  }

  lemma ExchangeIs(v: PeerView, db: ChainState, server: ChainState, otherFronts: set<BlockId>, limit: nat,
                   synopsis: seq<BlockId>, ids: seq<BlockId>, remaining: nat)
    requires SendRequest(v, db) == Some(v.(requested := Some(synopsis)))
    requires ReplyTo(server, synopsis, limit) == Offer(ids, remaining)
    ensures Exchange(v, db, server, otherFronts, limit) ==
            Some(TakeReply(v.(requested := Some(synopsis)), db.known, otherFronts, ids, remaining))
  {
  }

  // ---------- Facts about chains ----------

  lemma AgreementReachesDown(db: ChainState, chain: seq<BlockId>, i: nat)
    requires db.Valid() && IsChain(chain) && Agrees(db, chain) && db.main != []
    requires i < (if db.lastIrreversible == 0 then 1 else db.lastIrreversible)
    ensures i < |chain| && i < |db.main| && chain[i] == db.main[i] && chain[i] in db.known
  {
    var low := if db.lastIrreversible == 0 then 1 else db.lastIrreversible;
    SharedIdSharesHistory(db.main, chain, low - 1, low - 1);
    assert db.main[..low][i] == chain[..low][i];
    assert db.main[i] in db.known;
  }

  // A delivered block of the responder's chain can serve as the reference point.
  lemma DeliveredBlockIsUsable(db: ChainState, chain: seq<BlockId>, k: nat)
    requires db.Valid() && IsChain(chain) && Agrees(db, chain)
    requires 1 <= k <= |chain| && chain[k - 1] in db.known
    ensures SummarisedChain(db, chain[k - 1]) == chain[..k]
    ensures WhyNoSynopsis(db, chain[k - 1]) == None
    ensures Summarisable(chain[..k], LowHeight(db, chain[k - 1]))
  {
    hide CommonFrom, AncestorClosed, LowHeight, Summarisable;
    var reference := chain[k - 1];
    ChainPrefix(chain, k - 1);
    if k <= db.lastIrreversible {
      AgreementReachesDown(db, chain, k - 1);
      assert db.IsIncluded(reference);
    } else if db.lastIrreversible > 0 {
      var n := CommonHeight(chain[..k], db.main);
      if n < db.lastIrreversible {
        AgreementReachesDown(db, chain, n);
      }
    }
    SummaryIsSummarisable(db, reference);
  }

  // ---------- One exchange ----------

  // The list afterwards: the responder's blocks from k to m.
  function Advanced(v: PeerView, chain: seq<BlockId>, k: nat, m: nat): PeerView
    requires k <= m <= |chain|
  {
    v.(requested := None, idsToGet := chain[k..m], lastSeen := TipAt(chain, k), unfetched := |chain| - m)
  }

  // With ids pending, the reply extends the list and nothing else changes.
  lemma ExchangeWithPending(v: PeerView, db: ChainState, server: ChainState, otherFronts: set<BlockId>, limit: nat, k: nat, m: nat)
    requires server.Valid() && db.Valid() && Agrees(db, server.main) && limit >= 1
    requires Tracking(v, db, server.main, k, m) && k < m
    ensures var m' := Reach(server.main, m - 1, limit);
            Exchange(v, db, server, otherFronts, limit) ==
            Some((Advanced(v, server.main, k, m'), NextAction(server.main[k..m'], |server.main| - m')))
  {
    hide AnswerTo, ReplyTo, TakeReply, SendRequest, Exchange;
    var chain := server.main;
    var m' := Reach(chain, m - 1, limit);
    var s := PendingRequest(v, db, server, k, m);
    AnswerAfter(server, s, limit, m - 1);
    StretchFits(chain, m - 1, m', s);
    ExchangeIs(v, db, server, otherFronts, limit, s, chain[m - 1..m'], |chain| - m');
    TakeExtension(v.(requested := Some(s)), db.known, otherFronts, chain, k, m, m');
    assert Renewed(v, chain[k..m'], |chain| - m') == Advanced(v, chain, k, m');
  }

  // With nothing pending, the reply starts at a delivered block j; what the requester has
  // of it is dropped.
  lemma TakeFromScratch(v: PeerView, known: set<BlockId>, otherFronts: set<BlockId>, chain: seq<BlockId>, j: nat, m: nat)
    requires j < m <= |chain| && v.idsToGet == [] && chain[j] !in otherFronts
    requires v.requested.Some? && FitsRequest(v.requested.value, chain[j..m])
    requires j == 0 || chain[j] in known
    requires chain[j] !in known ==> v.lastSeen == Zero
    ensures var k := j + KnownPrefix(chain[j..m], known);
            TakeReply(v, known, otherFronts, chain[j..m], |chain| - m) ==
            if m == |chain| && m - j == 1 && k == m && v.unfetched == 0
            then (v.(requested := None, needSync := false), InSync)
            else (Advanced(v, chain, k, m), NextAction(chain[k..m], |chain| - m))
  {
    hide KnownPrefix, FitsRequest;
    var ids := chain[j..m];
    var n := KnownPrefix(ids, known);
    assert ids[n..] == chain[j + n..m];
    assert n > 0 ==> ids[n - 1] == TipAt(chain, j + n);
    assert Merge(v, known, otherFronts, ids) == Merged(chain[j + n..m], TipAt(chain, j + n));
  }

  lemma PendingRequest(v: PeerView, db: ChainState, server: ChainState, k: nat, m: nat) returns (s: seq<BlockId>)
    requires server.Valid() && db.Valid() && Agrees(db, server.main)
    requires Tracking(v, db, server.main, k, m) && k < m
    ensures SendRequest(v, db) == Some(v.(requested := Some(s)))
    ensures s != [] && s[|s| - 1] == server.main[m - 1]
  {
    hide HeightsUpTo, ChainSynopsis, JoinedSynopsis, PendingSample, IsChain, AncestorClosed, Agrees, SynopsisForPeer;
    var chain := server.main;
    StretchNumbers(chain, k, m);
    if k > 0 {
      DeliveredBlockIsUsable(db, chain, k);
    } else {
      if db.main != [] {
        AgreementReachesDown(db, chain, 0);
        assert false;
      }
      SummaryIsSummarisable(db, Zero);
    }
    var c := SummarisedChain(db, v.lastSeen);
    RequestInRangeIff(db, v.lastSeen, chain[k..m]);
    JoinedSynopsisShape(c, LowHeight(db, v.lastSeen), chain[k..m]);
    s := JoinedSynopsis(c, LowHeight(db, v.lastSeen), chain[k..m]);
  }

  lemma CaughtUpRequest(v: PeerView, db: ChainState, chain: seq<BlockId>, m: nat) returns (s: seq<BlockId>)
    requires IsChain(chain) && db.Valid() && Agrees(db, chain)
    requires Tracking(v, db, chain, m, m)
    ensures SendRequest(v, db) == Some(v.(requested := Some(s)))
    ensures s != [] && s[|s| - 1] == chain[m - 1]
  {
    DeliveredBlockIsUsable(db, chain, m);
    var c, low := chain[..m], LowHeight(db, v.lastSeen);
    ChainSynopsisEntries(c, low, 0);
    s := JoinedSynopsis(c, low, []);
  }

  // With every named block delivered, the reply starts at the last of them.
  lemma ExchangeCaughtUp(v: PeerView, db: ChainState, server: ChainState, otherFronts: set<BlockId>, limit: nat, m: nat)
    requires server.Valid() && db.Valid() && Agrees(db, server.main) && limit >= 1
    requires Tracking(v, db, server.main, m, m) && server.main[m - 1] !in otherFronts
    ensures var m' := Reach(server.main, m - 1, limit);
            var k' := m - 1 + KnownPrefix(server.main[m - 1..m'], db.known);
            Exchange(v, db, server, otherFronts, limit) ==
            if m == |server.main| then Some((v.(requested := None, needSync := false), InSync))
            else Some((Advanced(v, server.main, k', m'), NextAction(server.main[k'..m'], |server.main| - m')))
  {
    hide AnswerTo, ReplyTo, TakeReply, SendRequest, Exchange, KnownPrefix, Agrees, IsChain, AncestorClosed, FitsRequest;
    var chain := server.main;
    var m' := Reach(chain, m - 1, limit);
    var s := CaughtUpRequest(v, db, chain, m);
    AnswerAfter(server, s, limit, m - 1);
    StretchFits(chain, m - 1, m', s);
    ExchangeIs(v, db, server, otherFronts, limit, s, chain[m - 1..m'], |chain| - m');
    TakeFromScratch(v.(requested := Some(s)), db.known, otherFronts, chain, m - 1, m');
    KnownFront(chain[m - 1..m'], db.known);
  }

  lemma KnownFront(ids: seq<BlockId>, known: set<BlockId>)
    requires ids != [] && ids[0] in known
    ensures KnownPrefix(ids, known) >= 1
  {
  }

  // The first exchange of a requester that has no blocks.
  lemma ExchangeFromNothing(v: PeerView, db: ChainState, server: ChainState, otherFronts: set<BlockId>, limit: nat)
    requires server.Valid() && db.Valid() && db.main == [] && limit >= 1
    requires Fresh(v) && (server.main != [] ==> server.main[0] !in otherFronts)
    ensures var m := Reach(server.main, 0, limit);
            Exchange(v, db, server, otherFronts, limit) ==
            if server.main == [] then Some((v.(requested := None, needSync := false), InSync))
            else Some((Advanced(v, server.main, 0, m), NextAction(server.main[0..m], |server.main| - m)))
  {
    var chain := server.main;
    var m := Reach(chain, 0, limit);
    assert SendRequest(v, db) == Some(v.(requested := Some([])));
    if chain == [] {
      ExchangeIs(v, db, server, otherFronts, limit, [], [], 0);
    } else {
      assert ReplyTo(server, [], limit) == Offer(chain[0..m], |chain| - m);
      ExchangeIs(v, db, server, otherFronts, limit, [], chain[0..m], |chain| - m);
      StretchFits(chain, 0, m, []);
      TakeFromScratch(v.(requested := Some([])), db.known, otherFronts, chain, 0, m);
    }
  }

  // The first request of a requester with a chain of its own: it names blocks the
  // responder recognises, so the reply starts at a block j both have.
  lemma FirstRequest(v: PeerView, db: ChainState, server: ChainState, limit: nat) returns (s: seq<BlockId>, j: nat)
    requires server.Valid() && db.Valid() && Agrees(db, server.main) && db.main != [] && limit >= 1
    requires Fresh(v)
    ensures SendRequest(v, db) == Some(v.(requested := Some(s)))
    ensures j < |server.main| && server.main[j] in s && server.main[j] in db.known
    ensures var m := Reach(server.main, j, limit);
            ReplyTo(server, s, limit) == Offer(server.main[j..m], |server.main| - m)
  {
    hide AnswerTo, ReplyTo, Recognised;
    var low := LowHeight(db, Zero);
    s := JoinedSynopsis(db.main, low, []);
    AgreementReachesDown(db, server.main, low - 1);
    FirstEntry(db, low);
    j := RecognisedReply(server, s, limit, low - 1);
    EntriesAreOurs(db, low, server.main[j]);
  }

  lemma FirstEntry(db: ChainState, low: nat)
    requires db.Valid() && 1 <= low <= |db.main|
    ensures var s := JoinedSynopsis(db.main, low, []);
            s != [] && s[0] == db.main[low - 1] && Zero !in s
  {
    hide HeightsUpTo, ChainSynopsis, StrictlyIncreasing, AncestorClosed, Num;
    ChainSynopsisEntries(db.main, low, 0);
    var s := JoinedSynopsis(db.main, low, []);
    forall e | e in s ensures e != Zero {
      EntriesAreOurs(db, low, e);
    }
  }

  // A request that names one of the responder's blocks gets a run from its highest such entry.
  lemma RecognisedReply(server: ChainState, s: seq<BlockId>, limit: nat, i: nat) returns (j: nat)
    requires server.Valid() && limit >= 1 && i < |server.main|
    requires server.main[i] in s && Zero !in s
    ensures j < |server.main| && server.main[j] in s
    ensures var m := Reach(server.main, j, limit);
            ReplyTo(server, s, limit) == Offer(server.main[j..m], |server.main| - m)
  {
    ChainPrefix(server.main, i);
    assert Recognised(server, server.main[i]);
    var e := LastRecognised(server, s).value;
    j := Num(e) - 1;
    assert server.main[j] == e;
  }

  lemma EntriesAreOurs(db: ChainState, low: nat, e: BlockId)
    requires db.Valid() && 1 <= low <= |db.main|
    requires e in JoinedSynopsis(db.main, low, [])
    ensures e in db.known && e != Zero && Num(e) >= 1
  {
    hide HeightsUpTo, ChainSynopsis, IsChain, AncestorClosed, StrictlyIncreasing;
    ChainSynopsisReads(db.main, low, 0);
    var s := ChainSynopsis(db.main, low, 0);
    var i :| 0 <= i < |s| && s[i] == e;
    assert db.main[HeightsUpTo(low, |db.main|, |db.main|)[i] - 1] in db.known;
  }

  lemma ExchangeFirst(v: PeerView, db: ChainState, server: ChainState, otherFronts: set<BlockId>, limit: nat) returns (j: nat)
    requires server.Valid() && db.Valid() && Agrees(db, server.main) && db.main != [] && limit >= 1
    requires Fresh(v) && forall id :: id in server.main ==> id !in otherFronts
    ensures j < |server.main| && server.main[j] in db.known
    ensures var m := Reach(server.main, j, limit);
            var k := j + KnownPrefix(server.main[j..m], db.known);
            Exchange(v, db, server, otherFronts, limit) ==
            if m == |server.main| && m - j == 1 && k == m then Some((v.(requested := None, needSync := false), InSync))
            else Some((Advanced(v, server.main, k, m), NextAction(server.main[k..m], |server.main| - m)))
  {
    hide AnswerTo, ReplyTo, TakeReply, SendRequest, Exchange, KnownPrefix, Agrees, AncestorClosed, FitsRequest, NextAction;
    var chain := server.main;
    var s, j' := FirstRequest(v, db, server, limit);
    j := j';
    var m := Reach(chain, j, limit);
    StretchFits(chain, j, m, s);
    ExchangeIs(v, db, server, otherFronts, limit, s, chain[j..m], |chain| - m);
    TakeFromScratch(v.(requested := Some(s)), db.known, otherFronts, chain, j, m);
  }

  // ---------- Every exchange keeps the invariant and makes progress ----------

  // How many of the responder's blocks it has not named yet, one more before it was asked.
  function Unnamed(v: PeerView, chain: seq<BlockId>): nat {
    if v.idsToGet == [] && v.lastSeen == Zero then |chain| + 1 else v.unfetched
  }

  lemma AdvancedIsTracking(v: PeerView, db: ChainState, chain: seq<BlockId>, j: nat, m: nat)
    requires j < m <= |chain| && v.needSync
    requires j == 0 || chain[j] in db.known
    ensures var k := j + KnownPrefix(chain[j..m], db.known);
            k <= m && Tracking(Advanced(v, chain, k, m), db, chain, k, m)
  {
    var n := KnownPrefix(chain[j..m], db.known);
    var k := j + n;
    if n > 0 {
      assert chain[j..m][n - 1] == chain[k - 1];
    } else {
      assert chain[j..m][0] == chain[j];
    }
    if k < m {
      assert chain[j..m][n] == chain[k];
    }
  }

  lemma AllDelivered(db: ChainState, chain: seq<BlockId>, k: nat)
    requires db.Valid() && IsChain(chain) && k <= |chain| && (k > 0 ==> chain[k - 1] in db.known)
    ensures forall i :: 0 <= i < k ==> chain[i] in db.known
  {
    forall i | 0 <= i < k ensures chain[i] in db.known {
      AncestorsKnown(db, chain, i, k - 1);
    }
  }

  lemma NoneDelivered(db: ChainState, chain: seq<BlockId>, k: nat)
    requires db.Valid() && IsChain(chain) && (k < |chain| ==> chain[k] !in db.known)
    ensures forall i :: k <= i < |chain| ==> chain[i] !in db.known
  {
    forall i | k <= i < |chain| ensures chain[i] !in db.known {
      if chain[i] in db.known {
        AncestorsKnown(db, chain, k, i);
      }
    }
  }

  ghost predicate Setting(db: ChainState, server: ChainState, otherFronts: set<BlockId>, limit: nat) {
    && db.Valid() && server.Valid() && Agrees(db, server.main) && limit >= 2
    && forall id :: id in server.main ==> id !in otherFronts
  }

  // The honest responder's reply is always accepted, and it names something new as long as
  // there is anything left to name.
  ghost predicate GoodExchange(v: PeerView, db: ChainState, chain: seq<BlockId>, r: Option<(PeerView, Action)>) {
    && r.Some? && r.value.1 !in {Ignore, Disconnect}
    && SyncInv(r.value.0, db, chain) && !Fresh(r.value.0)
    && (r.value.1 == InSync <==> Done(r.value.0, db, chain))
    && (r.value.1 != InSync && Unnamed(v, chain) > 0 ==> Unnamed(r.value.0, chain) < Unnamed(v, chain))
    && (r.value.1 != InSync && Unnamed(v, chain) == 0 ==> Unnamed(r.value.0, chain) == 0)
  }

  lemma TrackingIsGood(v: PeerView, v': PeerView, db: ChainState, chain: seq<BlockId>, k: nat, m: nat, action: Action)
    requires db.Valid() && IsChain(chain) && Agrees(db, chain)
    requires Tracking(v', db, chain, k, m) && action in {FetchBlocks, FetchMoreIds}
    requires |chain| - m < Unnamed(v, chain) || Unnamed(v, chain) == |chain| - m == 0
    ensures GoodExchange(v, db, chain, Some((v', action)))
  {
    if k > 0 {
      assert Links(chain, k - 1);
    } else {
      assert v'.idsToGet != [];
    }
  }

  // An exchange names something new exactly when the responder's limit is at least 2: the
  // first id of a reply is one the requester named itself.
  lemma ProgressNeedsTwo(v: PeerView, db: ChainState, server: ChainState, otherFronts: set<BlockId>, limit: nat, k: nat, m: nat)
    requires server.Valid() && db.Valid() && Agrees(db, server.main) && limit >= 1
    requires Tracking(v, db, server.main, k, m) && m < |server.main|
    requires forall id :: id in server.main ==> id !in otherFronts
    ensures Exchange(v, db, server, otherFronts, limit).Some?
    ensures Exchange(v, db, server, otherFronts, limit).value.0.unfetched < v.unfetched <==> limit >= 2
  {
    hide Exchange, AncestorClosed, IsChain, Agrees;
    if k < m {
      ExchangeWithPending(v, db, server, otherFronts, limit, k, m);
    } else {
      ExchangeCaughtUp(v, db, server, otherFronts, limit, m);
    }
  }

  lemma DoneIsGood(v: PeerView, v': PeerView, db: ChainState, chain: seq<BlockId>)
    requires db.Valid() && IsChain(chain) && Agrees(db, chain)
    requires v'.idsToGet == [] && !v'.needSync && (chain != [] ==> chain[|chain| - 1] in db.known)
    ensures GoodExchange(v, db, chain, Some((v', InSync)))
  {
    AllDelivered(db, chain, |chain|);
  }

  lemma ExchangeIsGood(v: PeerView, db: ChainState, server: ChainState, otherFronts: set<BlockId>, limit: nat)
    requires Setting(db, server, otherFronts, limit)
    requires SyncInv(v, db, server.main) && v.needSync
    ensures GoodExchange(v, db, server.main, Exchange(v, db, server, otherFronts, limit))
  {
    hide Exchange, GoodExchange, Fresh, Tracking, Setting, Agrees, IsChain, ChainState.Valid;
    if Fresh(v) {
      if db.main == [] {
        GoodFromNothing(v, db, server, otherFronts, limit);
      } else {
        GoodFirst(v, db, server, otherFronts, limit);
      }
    } else {
      var k: nat, m: nat :| Tracking(v, db, server.main, k, m);
      ExchangeWhileTracking(v, db, server, otherFronts, limit, k, m);
    }
  }

  lemma GoodFromNothing(v: PeerView, db: ChainState, server: ChainState, otherFronts: set<BlockId>, limit: nat)
    requires Setting(db, server, otherFronts, limit) && Fresh(v) && db.main == []
    ensures GoodExchange(v, db, server.main, Exchange(v, db, server, otherFronts, limit))
  {
    hide Exchange, GoodExchange, KnownPrefix, NextAction;
    var chain := server.main;
    ExchangeFromNothing(v, db, server, otherFronts, limit);
    if chain == [] {
      DoneIsGood(v, v.(requested := None, needSync := false), db, chain);
    } else {
      var m := Reach(chain, 0, limit);
      AdvancedIsTracking(v, db, chain, 0, m);
      assert chain[0] !in db.known;
      NextActionMeans(chain[0..m], |chain| - m);
      TrackingIsGood(v, Advanced(v, chain, 0, m), db, chain, 0, m, NextAction(chain[0..m], |chain| - m));
    }
  }

  lemma GoodFirst(v: PeerView, db: ChainState, server: ChainState, otherFronts: set<BlockId>, limit: nat)
    requires Setting(db, server, otherFronts, limit) && Fresh(v) && db.main != []
    ensures GoodExchange(v, db, server.main, Exchange(v, db, server, otherFronts, limit))
  {
    hide Exchange, GoodExchange, KnownPrefix, AncestorClosed, Agrees, NextAction, Advanced, Tracking;
    var chain := server.main;
    var j := ExchangeFirst(v, db, server, otherFronts, limit);
    var m := Reach(chain, j, limit);
    var k := j + KnownPrefix(chain[j..m], db.known);
    if m == |chain| && m - j == 1 && k == m {
      DoneIsGood(v, v.(requested := None, needSync := false), db, chain);
    } else {
      AdvancedIsTracking(v, db, chain, j, m);
      NextActionMeans(chain[k..m], |chain| - m);
      TrackingIsGood(v, Advanced(v, chain, k, m), db, chain, k, m, NextAction(chain[k..m], |chain| - m));
    }
  }

  lemma ExchangeWhileTracking(v: PeerView, db: ChainState, server: ChainState, otherFronts: set<BlockId>, limit: nat, k: nat, m: nat)
    requires Setting(db, server, otherFronts, limit)
    requires Tracking(v, db, server.main, k, m)
    ensures GoodExchange(v, db, server.main, Exchange(v, db, server, otherFronts, limit))
  {
    hide Exchange, GoodExchange;
    if k < m {
      GoodWithPending(v, db, server, otherFronts, limit, k, m);
    } else {
      GoodCaughtUp(v, db, server, otherFronts, limit, m);
    }
  }

  lemma UnnamedWhileTracking(v: PeerView, db: ChainState, chain: seq<BlockId>, k: nat, m: nat)
    requires IsChain(chain) && Tracking(v, db, chain, k, m)
    ensures Unnamed(v, chain) == |chain| - m
  {
    if k > 0 {
      assert Links(chain, k - 1);
    }
  }

  lemma GoodWithPending(v: PeerView, db: ChainState, server: ChainState, otherFronts: set<BlockId>, limit: nat, k: nat, m: nat)
    requires Setting(db, server, otherFronts, limit)
    requires Tracking(v, db, server.main, k, m) && k < m
    ensures GoodExchange(v, db, server.main, Exchange(v, db, server, otherFronts, limit))
  {
    hide Exchange, GoodExchange;
    var chain := server.main;
    var m' := Reach(chain, m - 1, limit);
    UnnamedWhileTracking(v, db, chain, k, m);
    ExchangeWithPending(v, db, server, otherFronts, limit, k, m);
    TrackingIsGood(v, Advanced(v, chain, k, m'), db, chain, k, m', NextAction(chain[k..m'], |chain| - m'));
  }

  lemma GoodCaughtUp(v: PeerView, db: ChainState, server: ChainState, otherFronts: set<BlockId>, limit: nat, m: nat)
    requires Setting(db, server, otherFronts, limit)
    requires Tracking(v, db, server.main, m, m)
    ensures GoodExchange(v, db, server.main, Exchange(v, db, server, otherFronts, limit))
  {
    hide Exchange, GoodExchange, KnownPrefix, Agrees, IsChain, AncestorClosed, NextAction, Advanced;
    var chain := server.main;
    var m' := Reach(chain, m - 1, limit);
    UnnamedWhileTracking(v, db, chain, m, m);
    ExchangeCaughtUp(v, db, server, otherFronts, limit, m);
    if m == |chain| {
      DoneIsGood(v, v.(requested := None, needSync := false), db, chain);
    } else {
      var k' := m - 1 + KnownPrefix(chain[m - 1..m'], db.known);
      AdvancedIsTracking(v, db, chain, m - 1, m');
      NextActionMeans(chain[k'..m'], |chain| - m');
      TrackingIsGood(v, Advanced(v, chain, k', m'), db, chain, k', m', NextAction(chain[k'..m'], |chain| - m'));
    }
  }

  // ---------- Without a common irreversible block ----------

  lemma AgreesIff(db: ChainState, chain: seq<BlockId>)
    requires db.Valid() && IsChain(chain) && db.main != []
    ensures Agrees(db, chain) <==> LowHeight(db, Zero) <= CommonHeight(db.main, chain)
  {
    var low := LowHeight(db, Zero);
    if Agrees(db, chain) {
      SharedIdSharesHistory(db.main, chain, low - 1, low - 1);
      CommonAtLeast(db.main, chain, low);
    }
  }

  lemma CommonAtLeast(a: seq<BlockId>, b: seq<BlockId>, n: nat)
    requires n <= |a| && n <= |b| && a[..n] == b[..n]
    ensures CommonHeight(a, b) >= n
  {
    forall i | 0 <= i < n ensures a[i] == b[i] {
      assert a[..n][i] == b[..n][i];
    }
  }

  // Nothing named in the first request is recognised when even its lowest entry is not shared.
  lemma NothingShared(db: ChainState, server: ChainState, s: seq<BlockId>)
    requires db.Valid() && server.Valid() && db.main != [] && !Agrees(db, server.main)
    requires s == JoinedSynopsis(db.main, LowHeight(db, Zero), [])
    ensures s != [] && Zero !in s && LastRecognised(server, s) == None
  {
    hide LastRecognised, Recognised, CommonFrom, HeightsUpTo, ChainSynopsis, AncestorClosed, StrictlyIncreasing;
    var low := LowHeight(db, Zero);
    AgreesIff(db, server.main);
    FirstEntry(db, low);
    ChainSynopsisReads(db.main, low, 0);
    forall id | id in s ensures !Recognised(server, id) {
      var i :| 0 <= i < |s| && s[i] == id;
      var h := HeightsUpTo(low, |db.main|, |db.main|)[i];
      OnlySharedBlocksRecognised(db.main, server, h);
    }
  }

  ghost predicate Lacks(db: ChainState, chain: seq<BlockId>) {
    exists id :: id in chain && id !in db.known
  }

  lemma LacksIff(db: ChainState, chain: seq<BlockId>)
    requires db.Valid() && IsChain(chain) && chain != []
    ensures Lacks(db, chain) <==> chain[|chain| - 1] !in db.known
  {
    hide AncestorClosed;
    if chain[|chain| - 1] in db.known {
      AllDelivered(db, chain, |chain|);
    } else {
      assert chain[|chain| - 1] in chain;
    }
  }

  // A node with blocks of its own is told it is in sync while it lacks blocks exactly when its
  // last irreversible block is not the responder's and it lacks the responder's last block.
  lemma FalseSyncIff(v: PeerView, db: ChainState, server: ChainState, otherFronts: set<BlockId>, limit: nat)
    requires server.Valid() && db.Valid() && db.main != [] && server.main != [] && limit >= 1
    requires Fresh(v) && forall id :: id in server.main ==> id !in otherFronts
    ensures var r := Exchange(v, db, server, otherFronts, limit);
            && r.Some?
            && (r.value.1 == InSync && Lacks(db, server.main) <==>
                !Agrees(db, server.main) && server.main[|server.main| - 1] !in db.known)
  {
    hide Exchange, AncestorClosed, Agrees, Lacks, CommonFrom;
    var chain := server.main;
    LacksIff(db, chain);
    if Agrees(db, chain) {
      var j := ExchangeFirst(v, db, server, otherFronts, limit);
      var m := Reach(chain, j, limit);
      if j + KnownPrefix(chain[j..m], db.known) == m == |chain| && m - j == 1 {
        assert chain[j..m][0] == chain[|chain| - 1];
      }
    } else {
      ExchangeWithoutAgreement(v, db, server, otherFronts, limit);
    }
  }

  lemma ExchangeWithoutAgreement(v: PeerView, db: ChainState, server: ChainState, otherFronts: set<BlockId>, limit: nat)
    requires server.Valid() && db.Valid() && db.main != [] && server.main != [] && !Agrees(db, server.main) && Fresh(v)
    ensures Exchange(v, db, server, otherFronts, limit) == Some((v.(requested := None, needSync := false), InSync))
  {
    hide LastRecognised, JoinedSynopsis, ChainSynopsis, Agrees, LowHeight;
    var s := JoinedSynopsis(db.main, LowHeight(db, Zero), []);
    NothingShared(db, server, s);
    assert !MeansNoBlocks(s);
    ExchangeIs(v, db, server, otherFronts, limit, s, [], 0);
  }

  // ---------- Following the handler's actions ----------

  datatype Sync = Sync(db: ChainState, v: PeerView, action: Action)

  // One round of asking, or the front block fetched and accepted; the node's own chain may
  // change with either.
  datatype Move = Asked(otherFronts: set<BlockId>, newDb: ChainState) | Delivered(newDb: ChainState)

  ghost predicate Grows(db: ChainState, db': ChainState, chain: seq<BlockId>) {
    db'.Valid() && Agrees(db', chain) && db.known <= db'.known
  }

  ghost predicate FrontUnknown(ids: seq<BlockId>, known: set<BlockId>) {
    ids != [] ==> ids[0] !in known
  }

  // What process_block_message does once a block is in: more ids are asked for when there are
  // some left and the list has become short, or when the list is done.
  function NextAfterBlock(v: PeerView): Action {
    if v.idsToGet == [] || (v.unfetched > 0 && |v.idsToGet| + 1 < MIN_BLOCK_IDS_TO_PREFETCH) then FetchMoreIds
    else FetchBlocks
  }

  ghost predicate Follows(server: ChainState, limit: nat, s: Sync, m: Move, s': Sync) {
    && Grows(s.db, m.newDb, server.main) && FrontUnknown(s'.v.idsToGet, m.newDb.known)
    && s'.db == m.newDb
    && match m
       case Asked(otherFronts, _) =>
         && s.action == FetchMoreIds && (forall id :: id in server.main ==> id !in otherFronts)
         && Exchange(s.v, s.db, server, otherFronts, limit) == Some((s'.v, s'.action))
       case Delivered(newDb) =>
         && s.action == FetchBlocks && s.v.idsToGet != [] && s.v.idsToGet[0] in newDb.known
         && s'.v == s.v.(idsToGet := s.v.idsToGet[1..], lastSeen := s.v.idsToGet[0])
         && s'.action == NextAfterBlock(s'.v)
  }

  ghost predicate DriveInv(s: Sync, chain: seq<BlockId>) {
    && SyncInv(s.v, s.db, chain) && Num(s.v.lastSeen) <= |chain|
    && match s.action
       case InSync => Done(s.v, s.db, chain)
       case FetchBlocks => s.v.needSync && s.v.idsToGet != []
       case FetchMoreIds => s.v.needSync && (s.v.idsToGet == [] || s.v.unfetched > 0)
       case _ => false
  }

  // What is left to name counts most, then what is left to deliver, then the last check.
  function Measure(s: Sync, chain: seq<BlockId>): int {
    Unnamed(s.v, chain) * (|chain| + 1) + (|chain| - Num(s.v.lastSeen)) + (if s.action == InSync then 0 else 1)
  }

  // The action returned goes with the list and the count of unnamed blocks.
  lemma ExchangeAction(v: PeerView, db: ChainState, server: ChainState, otherFronts: set<BlockId>, limit: nat)
    requires Exchange(v, db, server, otherFronts, limit).Some?
    ensures var r := Exchange(v, db, server, otherFronts, limit).value;
            match r.1
            case InSync => r.0 == v.(requested := None, needSync := false)
            case Ignore => true
            case Disconnect => true
            case _ => r.1 == NextAction(r.0.idsToGet, r.0.unfetched) && r.0.needSync == v.needSync
  {
    hide ReplyTo, FitsRequest, Merge, SynopsisForPeer;
  }

  // With everything named and delivered the next answer ends synchronisation.
  lemma LastExchange(v: PeerView, db: ChainState, server: ChainState, otherFronts: set<BlockId>, limit: nat)
    requires Setting(db, server, otherFronts, limit) && SyncInv(v, db, server.main) && v.needSync
    requires v.idsToGet == [] && Unnamed(v, server.main) == 0
    ensures Exchange(v, db, server, otherFronts, limit).Some?
    ensures Exchange(v, db, server, otherFronts, limit).value.1 == InSync
  {
    hide Exchange, AncestorClosed;
    var chain := server.main;
    var k: nat, m: nat :| Tracking(v, db, chain, k, m);
    UnnamedWhileTracking(v, db, chain, k, m);
    assert |chain[k..m]| == m - k;
    assert server.main[m - 1] in server.main;
    ExchangeCaughtUp(v, db, server, otherFronts, limit, m);
  }

  lemma SeenIsInChain(v: PeerView, db: ChainState, chain: seq<BlockId>)
    requires SyncInv(v, db, chain) && v.needSync
    ensures Num(v.lastSeen) <= |chain|
  {
    if !Fresh(v) {
      var k: nat, m: nat :| Tracking(v, db, chain, k, m);
      TipNumber(chain, k);
    }
  }

  lemma GrowingKeepsInv(v: PeerView, db: ChainState, db': ChainState, chain: seq<BlockId>)
    requires SyncInv(v, db, chain) && Grows(db, db', chain) && FrontUnknown(v.idsToGet, db'.known)
    ensures SyncInv(v, db', chain) && (Done(v, db, chain) ==> Done(v, db', chain))
  {
    hide IsChain, ChainState.Valid, Agrees;
    if !Fresh(v) && !Done(v, db, chain) {
      var k: nat, m: nat :| Tracking(v, db, chain, k, m);
      assert k < m ==> chain[k..m][0] == chain[k];
      assert Tracking(v, db', chain, k, m);
    }
  }

  lemma AskingGoesOn(server: ChainState, limit: nat, s: Sync, m: Move, s': Sync)
    requires server.Valid() && limit >= 2 && DriveInv(s, server.main) && Follows(server, limit, s, m, s') && m.Asked?
    ensures DriveInv(s', server.main) && Measure(s', server.main) < Measure(s, server.main)
  {
    hide Exchange, NextAction, ChainState.Valid, IsChain, Agrees, Tracking;
    var chain := server.main;
    ExchangeIsGood(s.v, s.db, server, m.otherFronts, limit);
    ExchangeAction(s.v, s.db, server, m.otherFronts, limit);
    GrowingKeepsInv(s'.v, s.db, s'.db, chain);
    NextActionMeans(s'.v.idsToGet, s'.v.unfetched);
    if s'.action == InSync {
      assert Measure(s', chain) == Measure(s, chain) - 1;
    } else {
      SeenIsInChain(s'.v, s'.db, chain);
      if Unnamed(s.v, chain) == 0 {
        assert s.v.unfetched == 0;
        LastExchange(s.v, s.db, server, m.otherFronts, limit);
        assert false;
      } else {
        MeasureFalls(|chain|, Unnamed(s'.v, chain), Unnamed(s.v, chain));
      }
    }
  }

  lemma NextActionMeans(ids: seq<BlockId>, remaining: nat)
    ensures NextAction(ids, remaining) in {FetchBlocks, FetchMoreIds}
    ensures NextAction(ids, remaining) == FetchBlocks ==> ids != []
    ensures NextAction(ids, remaining) == FetchMoreIds ==> ids == [] || remaining > 0
  {
  }

  lemma MeasureFalls(n: nat, less: nat, more: nat)
    requires less < more
    ensures less * (n + 1) + n < more * (n + 1)
  {
    assert (less + 1) * (n + 1) <= more * (n + 1);
  }

  lemma DeliveringGoesOn(server: ChainState, limit: nat, s: Sync, m: Move, s': Sync)
    requires server.Valid() && DriveInv(s, server.main) && Follows(server, limit, s, m, s') && m.Delivered?
    ensures DriveInv(s', server.main) && Measure(s', server.main) < Measure(s, server.main)
  {
    hide Exchange, ChainState.Valid, Agrees, IsChain, Tracking;
    var chain := server.main;
    var k, n := NowTracking(s, chain);
    DeliveredIsTracking(server, limit, s, m, s', k, n);
    TrackingMeans(s.v, s.db, chain, k, n);
    TrackingMeans(s'.v, s'.db, chain, k + 1, n);
    TipNumber(chain, k);
    TipNumber(chain, k + 1);
    UnnamedWhileTracking(s.v, s.db, chain, k, n);
    UnnamedWhileTracking(s'.v, s'.db, chain, k + 1, n);
  }

  lemma NowTracking(s: Sync, chain: seq<BlockId>) returns (k: nat, n: nat)
    requires DriveInv(s, chain) && s.v.idsToGet != []
    ensures Tracking(s.v, s.db, chain, k, n) && k < n
  {
    hide ChainState.Valid, Agrees, IsChain;
    k, n :| Tracking(s.v, s.db, chain, k, n);
  }

  lemma DeliveredIsTracking(server: ChainState, limit: nat, s: Sync, m: Move, s': Sync, k: nat, n: nat)
    requires Follows(server, limit, s, m, s') && m.Delivered? && Tracking(s.v, s.db, server.main, k, n) && k < n
    ensures Tracking(s'.v, s'.db, server.main, k + 1, n)
  {
    hide Exchange, ChainState.Valid, Agrees, IsChain;
    var chain := server.main;
    assert chain[k..n][1..] == chain[k + 1..n] && chain[k..n][0] == chain[k];
    assert k + 1 < n ==> chain[k + 1..n][0] == chain[k + 1];
  }

  lemma TrackingMeans(v: PeerView, db: ChainState, chain: seq<BlockId>, k: nat, n: nat)
    requires Tracking(v, db, chain, k, n)
    ensures k <= n <= |chain| && v.needSync && |v.idsToGet| == n - k && v.unfetched == |chain| - n && v.lastSeen == TipAt(chain, k)
  {
  }

  ghost predicate IsDriven(server: ChainState, limit: nat, ss: seq<Sync>, ms: seq<Move>) {
    && |ss| == |ms| + 1
    && forall i :: 0 <= i < |ms| ==> Follows(server, limit, ss[i], ms[i], ss[i + 1])
  }

  // The list holds exactly the responder's blocks the requester does not have.
  ghost predicate ListsExactlyTheMissing(v: PeerView, db: ChainState, chain: seq<BlockId>) {
    exists k :: 0 <= k <= |chain| && v.idsToGet == chain[k..]
      && forall i :: 0 <= i < |chain| ==> (chain[i] in db.known <==> i < k)
  }

  // A node that does what its handler says gets done: no run is longer than the measure of its
  // start; once everything is named the list is exactly what is missing; and in sync means that
  // nothing is missing.
  lemma {:induction false} EveryDrivenRunEnds(server: ChainState, limit: nat, ss: seq<Sync>, ms: seq<Move>, i: nat)
    requires server.Valid() && limit >= 2 && IsDriven(server, limit, ss, ms) && i < |ss| && DriveInv(ss[0], server.main)
    ensures DriveInv(ss[i], server.main)
    ensures i + Measure(ss[i], server.main) <= Measure(ss[0], server.main)
    ensures ss[i].action == InSync ==> !Lacks(ss[i].db, server.main)
    ensures Unnamed(ss[i].v, server.main) == 0 ==> ListsExactlyTheMissing(ss[i].v, ss[i].db, server.main)
    decreases i
  {
    hide Measure, Unnamed, Follows, ListsExactlyTheMissing, SyncInv;
    if i > 0 {
      EveryDrivenRunEnds(server, limit, ss, ms, i - 1);
      assert Follows(server, limit, ss[i - 1], ms[i - 1], ss[i]);
      MoveGoesOn(server, limit, ss[i - 1], ms[i - 1], ss[i]);
    }
    var s := ss[i];
    if s.action == InSync {
      DoneListsNothing(s.v, s.db, server.main);
    } else if Unnamed(s.v, server.main) == 0 {
      NothingUnnamed(s.v, s.db, server.main);
    }
  }

  lemma MoveGoesOn(server: ChainState, limit: nat, s: Sync, m: Move, s': Sync)
    requires server.Valid() && limit >= 2 && DriveInv(s, server.main) && Follows(server, limit, s, m, s')
    ensures DriveInv(s', server.main) && Measure(s', server.main) < Measure(s, server.main)
  {
    hide DriveInv, Follows, Measure;
    if m.Asked? {
      AskingGoesOn(server, limit, s, m, s');
    } else {
      DeliveringGoesOn(server, limit, s, m, s');
    }
  }

  // ---------- How long the list gets ----------

  // More ids are asked for only up to ten thousand listed, blocks are fetched with more to be
  // named only from about as many on, and one reply is the most that comes on top.
  ghost predicate ListIsBounded(s: Sync, limit: nat) {
    && |s.v.idsToGet| <= 10000 + limit
    && (s.action == FetchMoreIds ==> |s.v.idsToGet| <= 10000)
    && (s.action == FetchBlocks && s.v.unfetched > 0 ==> |s.v.idsToGet| >= 9999)
  }

  lemma MergeAddsAtMost(v: PeerView, known: set<BlockId>, otherFronts: set<BlockId>, ids: seq<BlockId>)
    ensures |Merge(v, known, otherFronts, ids).idsToGet| <= |v.idsToGet| + |ids|
  {
  }

  lemma ReplyIsWithinLimit(server: ChainState, synopsis: seq<BlockId>, limit: nat)
    ensures |ReplyTo(server, synopsis, limit).ids| <= limit
  {
    hide LastRecognised;
  }

  lemma TakenReplyIsBounded(v: PeerView, known: set<BlockId>, otherFronts: set<BlockId>, ids: seq<BlockId>, remaining: nat, limit: nat)
    requires |v.idsToGet| <= 10000 && |ids| <= limit && v.requested.Some?
    ensures var r := TakeReply(v, known, otherFronts, ids, remaining);
            forall db :: r.1 != Disconnect ==> ListIsBounded(Sync(db, r.0, r.1), limit)
  {
    hide FitsRequest, Merge;
    MergeAddsAtMost(v, known, otherFronts, ids);
  }

  lemma StepKeepsListBounded(server: ChainState, limit: nat, s: Sync, m: Move, s': Sync)
    requires ListIsBounded(s, limit) && Follows(server, limit, s, m, s') && s'.action != Disconnect
    ensures ListIsBounded(s', limit)
  {
    hide ReplyTo, TakeReply, Grows, SynopsisForPeer, ListIsBounded;
    match m
    case Asked(otherFronts, newDb) =>
      var asked := SendRequest(s.v, s.db).value;
      var offer := ReplyTo(server, asked.requested.value, limit);
      ReplyIsWithinLimit(server, asked.requested.value, limit);
      BoundMeans(s, limit);
      TakenReplyIsBounded(asked, s.db.known, otherFronts, offer.ids, offer.remaining, limit);
      assert s' == Sync(s'.db, s'.v, s'.action);
    case Delivered(newDb) =>
      DeliveryKeepsListBounded(s, s', limit);
  }

  lemma BoundMeans(s: Sync, limit: nat)
    requires ListIsBounded(s, limit) && s.action == FetchMoreIds
    ensures |s.v.idsToGet| <= 10000
  {
  }

  lemma DeliveryKeepsListBounded(s: Sync, s': Sync, limit: nat)
    requires ListIsBounded(s, limit) && s.v.idsToGet != []
    requires s'.v == s.v.(idsToGet := s.v.idsToGet[1..], lastSeen := s.v.idsToGet[0]) && s'.action == NextAfterBlock(s'.v)
    ensures ListIsBounded(s', limit)
  {
  }

  // Over every run of a node that does what its handler says the list stays bounded, whatever the
  // length of the responder's chain, and is kept filled while there is more to name.
  lemma {:induction false} EveryDrivenRunIsBounded(server: ChainState, limit: nat, ss: seq<Sync>, ms: seq<Move>, i: nat)
    requires server.Valid() && limit >= 2 && IsDriven(server, limit, ss, ms) && i < |ss|
    requires DriveInv(ss[0], server.main) && ListIsBounded(ss[0], limit)
    ensures ListIsBounded(ss[i], limit)
    decreases i
  {
    hide ListIsBounded, Follows, SyncInv, Measure;
    if i > 0 {
      EveryDrivenRunIsBounded(server, limit, ss, ms, i - 1);
      EveryDrivenRunEnds(server, limit, ss, ms, i);
      assert Follows(server, limit, ss[i - 1], ms[i - 1], ss[i]);
      StepKeepsListBounded(server, limit, ss[i - 1], ms[i - 1], ss[i]);
    }
  }

  // ---------- It never gets stuck ----------

  // The node's blocks once it has accepted the responder's next one.
  function WithBlock(db: ChainState, chain: seq<BlockId>, k: nat): ChainState
    requires k < |chain|
  {
    ChainState(if |db.main| > k then db.main else chain[..k + 1], db.known + {chain[k]}, db.lastIrreversible)
  }

  lemma AcceptingIsPossible(db: ChainState, chain: seq<BlockId>, k: nat)
    requires db.Valid() && IsChain(chain) && Agrees(db, chain) && k < |chain| && (k > 0 ==> chain[k - 1] in db.known)
    ensures Grows(db, WithBlock(db, chain, k), chain) && chain[k] in WithBlock(db, chain, k).known
    ensures forall id :: id in WithBlock(db, chain, k).known ==> id in db.known || id == chain[k]
  {
    var more := WithBlock(db, chain, k);
    ChainPrefix(chain, k);
    assert Links(chain, k);
    AllDelivered(db, chain, k);
    assert AncestorClosed(more.known);
    PrefixIsChain(chain, k + 1);
  }

  lemma PrefixIsChain(chain: seq<BlockId>, n: nat)
    requires IsChain(chain) && n <= |chain|
    ensures IsChain(chain[..n])
  {
    var c := chain[..n];
    forall i | 0 <= i < |c| ensures Links(c, i) {
      assert Links(chain, i);
    }
  }

  lemma CanGoOn(server: ChainState, limit: nat, s: Sync) returns (m: Move, s': Sync)
    requires server.Valid() && limit >= 2 && DriveInv(s, server.main) && s.action != InSync
    ensures Follows(server, limit, s, m, s')
  {
    hide Exchange, AncestorClosed;
    var chain := server.main;
    if s.action == FetchMoreIds {
      ExchangeIsGood(s.v, s.db, server, {}, limit);
      var r := Exchange(s.v, s.db, server, {}, limit).value;
      m, s' := Asked({}, s.db), Sync(s.db, r.0, r.1);
      ListedFrontIsUnknown(r.0, s.db, chain);
    } else {
      var k: nat, n: nat :| Tracking(s.v, s.db, chain, k, n);
      assert chain[k..n][0] == chain[k] && chain[k..n][1..] == chain[k + 1..n];
      AcceptingIsPossible(s.db, chain, k);
      m := Delivered(WithBlock(s.db, chain, k));
      var v := s.v.(idsToGet := s.v.idsToGet[1..], lastSeen := s.v.idsToGet[0]);
      s' := Sync(m.newDb, v, NextAfterBlock(v));
      NextIsUnknown(s.db, chain, k);
    }
  }

  lemma ListedFrontIsUnknown(v: PeerView, db: ChainState, chain: seq<BlockId>)
    requires SyncInv(v, db, chain)
    ensures FrontUnknown(v.idsToGet, db.known)
  {
    hide IsChain, ChainState.Valid, Agrees;
    if v.idsToGet != [] {
      var k: nat, m: nat :| Tracking(v, db, chain, k, m);
      assert chain[k..m][0] == chain[k];
    }
  }

  lemma NextIsUnknown(db: ChainState, chain: seq<BlockId>, k: nat)
    requires db.Valid() && IsChain(chain) && k < |chain| && chain[k] !in db.known
    ensures k + 1 < |chain| ==> chain[k + 1] !in WithBlock(db, chain, k).known
  {
    if k + 1 < |chain| {
      NoneDelivered(db, chain, k);
      ChainPrefix(chain, k);
      ChainPrefix(chain, k + 1);
    }
  }

  // From every such state synchronisation can be completed.
  lemma {:induction false} CanReachSync(server: ChainState, limit: nat, s: Sync) returns (ss: seq<Sync>, ms: seq<Move>)
    requires server.Valid() && limit >= 2 && DriveInv(s, server.main)
    ensures IsDriven(server, limit, ss, ms) && ss[0] == s && ss[|ms|].action == InSync
    decreases Measure(s, server.main)
  {
    hide Follows, Exchange, Measure, SyncInv;
    MeasureIsNatural(s, server.main);
    if s.action == InSync {
      ss, ms := [s], [];
    } else {
      var m, s' := CanGoOn(server, limit, s);
      MoveGoesOn(server, limit, s, m, s');
      MeasureIsNatural(s', server.main);
      var rest, moves := CanReachSync(server, limit, s');
      ss, ms := [s] + rest, [m] + moves;
      forall i | 0 <= i < |ms| ensures Follows(server, limit, ss[i], ms[i], ss[i + 1]) {
        if i > 0 {
          assert Follows(server, limit, rest[i - 1], moves[i - 1], rest[i]);
        }
      }
    }
  }

  lemma MeasureIsNatural(s: Sync, chain: seq<BlockId>)
    requires DriveInv(s, chain)
    ensures Measure(s, chain) >= 0
  {
    assert Unnamed(s.v, chain) * (|chain| + 1) >= 0;
  }

  // A node that begins to synchronise is in such a state.
  lemma BeginningIsDriven(v: PeerView, db: ChainState, chain: seq<BlockId>)
    requires db.Valid() && IsChain(chain) && Agrees(db, chain) && Fresh(v)
    ensures DriveInv(Sync(db, v, FetchMoreIds), chain) && forall limit :: ListIsBounded(Sync(db, v, FetchMoreIds), limit)
  {
  }

  // So is one that starts over, whatever it remembered of the peer.
  lemma StartingOverIsDriven(v: PeerView, db: ChainState, chain: seq<BlockId>)
    requires db.Valid() && IsChain(chain) && Agrees(db, chain)
    ensures DriveInv(Sync(db, Restarted(v), FetchMoreIds), chain)
  {
    BeginningIsDriven(Restarted(v), db, chain);
  }

  lemma DoneListsNothing(v: PeerView, db: ChainState, chain: seq<BlockId>)
    requires Done(v, db, chain)
    ensures ListsExactlyTheMissing(v, db, chain) && !Lacks(db, chain)
  {
    assert v.idsToGet == chain[|chain|..];
  }

  lemma NothingUnnamed(v: PeerView, db: ChainState, chain: seq<BlockId>)
    requires SyncInv(v, db, chain) && v.needSync && Unnamed(v, chain) == 0
    ensures ListsExactlyTheMissing(v, db, chain)
  {
    var k: nat, m: nat :| Tracking(v, db, chain, k, m);
    UnnamedWhileTracking(v, db, chain, k, m);
    AllDelivered(db, chain, k);
    NoneDelivered(db, chain, k);
    assert chain[k..m] == chain[k..];
  }

  // ---------- What the responder concludes ----------

  // Every block of the responder is had or listed.
  ghost predicate HadOrListed(v: PeerView, db: ChainState, chain: seq<BlockId>) {
    forall id :: id in chain ==> id in db.known || id in v.idsToGet
  }

  // What a request names is had or listed.
  lemma NamedIsHadOrListed(v: PeerView, db: ChainState, chain: seq<BlockId>)
    requires SyncInv(v, db, chain) && v.needSync && SendRequest(v, db).Some?
    ensures var s := SendRequest(v, db).value.requested.value;
            Zero !in s && forall id :: id in s ==> id in db.known || id in v.idsToGet
  {
    hide SynopsisForPeer, Agrees, AncestorClosed, CommonFrom;
    var asked := v.(requested := None);
    ListIsRun(v, db, chain);
    assert SendRequest(asked, db).value.requested == SendRequest(v, db).value.requested;
    PeerListSafety.RequestHasNoZero(asked, db);
    PeerListSafety.RequestNeedsKnown(asked, db);
    PeerListSafety.SummarisedIsKnown(db, v.lastSeen);
  }

  lemma ListIsRun(v: PeerView, db: ChainState, chain: seq<BlockId>)
    requires SyncInv(v, db, chain) && v.needSync
    ensures PeerListSafety.IsRunOfBlocks(v.idsToGet)
  {
    hide Agrees, ChainState.Valid;
    if !Fresh(v) {
      var k: nat, m: nat :| Tracking(v, db, chain, k, m);
      StretchNumbers(chain, k, m);
    }
  }

  // With the responder's head had or listed, so is everything below it.
  lemma HeadBringsTheRest(v: PeerView, db: ChainState, chain: seq<BlockId>)
    requires SyncInv(v, db, chain) && v.needSync && chain != []
    requires chain[|chain| - 1] in db.known || chain[|chain| - 1] in v.idsToGet
    ensures HadOrListed(v, db, chain)
  {
    hide Agrees, Fresh;
    var head := |chain| - 1;
    if chain[head] in db.known {
      AllDelivered(db, chain, |chain|);
    } else {
      ListedIsTracking(v, db, chain);
      var k: nat, m: nat :| Tracking(v, db, chain, k, m);
      var j :| 0 <= j < m - k && chain[k..m][j] == chain[head];
      ChainIsDistinct(chain, k + j, head);
      AllDelivered(db, chain, k);
      forall id | id in chain ensures id in db.known || id in v.idsToGet {
        var i :| 0 <= i < |chain| && chain[i] == id;
        assert i >= k ==> chain[k..m][i - k] == id;
      }
    }
  }

  lemma ListedIsTracking(v: PeerView, db: ChainState, chain: seq<BlockId>)
    requires SyncInv(v, db, chain) && v.needSync && v.idsToGet != []
    ensures exists k: nat, m: nat :: Tracking(v, db, chain, k, m)
  {
  }

  // An empty reply leaves the list, and says that nothing was unnamed.
  lemma EmptyReplyNamesAll(v: PeerView, db: ChainState, server: ChainState, otherFronts: set<BlockId>, limit: nat)
    requires SyncInv(v, db, server.main) && v.needSync && SendRequest(v, db).Some?
    requires GoodExchange(v, db, server.main, Exchange(v, db, server, otherFronts, limit))
    requires ReplyTo(server, SendRequest(v, db).value.requested.value, limit) == Offer([], 0)
    ensures HadOrListed(v, db, server.main)
  {
    hide SynopsisForPeer, ReplyTo, SyncInv, Done, Fresh;
    var after := Exchange(v, db, server, otherFronts, limit).value.0;
    if Exchange(v, db, server, otherFronts, limit).value.1 == InSync {
      DoneHasAll(after, db, server.main);
    } else {
      assert after.idsToGet == v.idsToGet && after.unfetched == 0 && after.needSync;
      NothingLeftUnnamed(after, db, server.main);
    }
  }

  lemma DoneHasAll(v: PeerView, db: ChainState, chain: seq<BlockId>)
    requires Done(v, db, chain)
    ensures forall id :: id in chain ==> id in db.known
  {
  }

  lemma NothingLeftUnnamed(v: PeerView, db: ChainState, chain: seq<BlockId>)
    requires SyncInv(v, db, chain) && v.needSync && v.unfetched == 0 && !Fresh(v)
    ensures HadOrListed(v, db, chain)
  {
    hide Agrees;
    var k: nat, m: nat :| Tracking(v, db, chain, k, m);
    AllDelivered(db, chain, k);
    forall id | id in chain ensures id in db.known || id in v.idsToGet {
      var i :| 0 <= i < |chain| && chain[i] == id;
      assert i >= k ==> chain[k..m][i - k] == id;
    }
  }

  // When the responder stops counting the requester among those that need its blocks, the
  // requester has or lists all of them.
  lemma NotInNeedMeans(v: PeerView, db: ChainState, server: ChainState, otherFronts: set<BlockId>, limit: nat)
    requires Setting(db, server, otherFronts, limit) && SyncInv(v, db, server.main) && v.needSync
    requires SendRequest(v, db).Some?
    requires var s := SendRequest(v, db).value.requested.value;
             !StillNeedsItems(s, ReplyTo(server, s, limit).ids)
    ensures HadOrListed(v, db, server.main)
  {
    hide SynopsisForPeer, ReplyTo, SyncInv, GoodExchange, LastRecognised, TakeReply, HadOrListed, ChainState.Valid, Agrees, StillNeedsItems;
    var s := SendRequest(v, db).value.requested.value;
    ServerIsValid(db, server, otherFronts, limit);
    NamedIsHadOrListed(v, db, server.main);
    StillNeedsIff(server, s, limit);
    if server.main == [] || LastRecognised(server, s).None? {
      ExchangeIsGood(v, db, server, otherFronts, limit);
      NothingToOffer(server, s, limit);
      EmptyReplyNamesAll(v, db, server, otherFronts, limit);
    } else {
      RecognisedPlace(server, s);
      HeadBringsTheRest(v, db, server.main);
    }
  }

  lemma ServerIsValid(db: ChainState, server: ChainState, otherFronts: set<BlockId>, limit: nat)
    requires Setting(db, server, otherFronts, limit)
    ensures server.Valid() && limit >= 2
  {
  }

  lemma NothingToOffer(server: ChainState, synopsis: seq<BlockId>, limit: nat)
    requires server.main == [] || (!MeansNoBlocks(synopsis) && LastRecognised(server, synopsis).None?)
    ensures ReplyTo(server, synopsis, limit) == Offer([], 0)
  {
  }

  // The two nodes' own code, end to end: request, answer, handling of the reply.
  method NegotiateOnce(peer: PeerConnection, db: ChainState, server: ChainState, otherFronts: set<BlockId>, limit: nat)
    returns (action: Action, stillNeeds: bool)
    requires Setting(db, server, otherFronts, limit)
    requires SyncInv(peer.View(), db, server.main) && peer.View().needSync
    modifies peer
    ensures GoodExchange(old(peer.View()), db, server.main, Some((peer.View(), action)))
    ensures !stillNeeds ==> HadOrListed(old(peer.View()), db, server.main)
  {
    hide SynopsisForPeer, ReplyTo, TakeReply, GoodExchange, SyncInv, HadOrListed, StillNeedsItems;
    ghost var v := peer.View();
    ExchangeIsGood(v, db, server, otherFronts, limit);
    ExchangeHappens(v, db, server, otherFronts, limit);
    var sent := peer.FetchNextBatchOfItemIds(db);
    var reply, restart, disconnect;
    reply, stillNeeds, restart, disconnect :=
      OnFetchBlockchainItemIds(server, peer.itemIdsRequestedFromPeer.value, limit, false, false);
    if !stillNeeds {
      NotInNeedMeans(v, db, server, otherFronts, limit);
    }
    action := peer.OnBlockchainItemIdsInventory(db.known, otherFronts, reply.ids, reply.remaining);
  }

  lemma ExchangeHappens(v: PeerView, db: ChainState, server: ChainState, otherFronts: set<BlockId>, limit: nat)
    requires GoodExchange(v, db, server.main, Exchange(v, db, server, otherFronts, limit))
    ensures SynopsisForPeer(db, v.lastSeen, v.idsToGet).Success?
  {
    hide SynopsisForPeer, ReplyTo, TakeReply, SyncInv;
  }
}
