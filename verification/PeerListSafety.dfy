/** What holds of a peer's list of pending ids whatever the peer sends. */
module PeerListSafety {
  import opened Wrappers
  import opened Chain
  import opened Synopsis
  import opened SyncPeer
  import opened PeerSync

  // A run of real blocks with consecutive numbers.
  ghost predicate IsRunOfBlocks(ids: seq<BlockId>) {
    Consecutive(ids) && (ids != [] ==> ids[0] != Zero)
  }

  lemma RunHasNoDuplicates(ids: seq<BlockId>)
    requires IsRunOfBlocks(ids)
    ensures forall i, j :: 0 <= i < j < |ids| ==> ids[i] != ids[j]
    ensures Zero !in ids
  {
    forall i, j | 0 <= i < j < |ids| ensures ids[i] != ids[j] {
      assert Num(ids[i]) == Num(ids[0]) + i && Num(ids[j]) == Num(ids[0]) + j;
    }
    forall i | 0 <= i < |ids| ensures ids[i] != Zero {
      assert Num(ids[i]) == Num(ids[0]) + i;
    }
  }

  ghost predicate PeerInv(v: PeerView) {
    && IsRunOfBlocks(v.idsToGet)
    && (v.requested.Some? ==> Zero !in v.requested.value)
  }

  // The node's blocks, what it keeps of the peer, and the ids taken off the peer's list whose
  // blocks the delegate is working on.
  datatype World = World(db: ChainState, v: PeerView, processing: set<BlockId>)

  // What can happen, in any order: a request goes out; a reply of any content comes in; the
  // backlog takes the front of the list; the delegate's blocks change; a block in processing is
  // reported accepted, or found accepted before; outside synchronisation the peer is sent a
  // block, or has advertised one that is accepted; synchronisation starts over.
  datatype Event =
    | Requested
    | Replied(otherFronts: set<BlockId>, ids: seq<BlockId>, remaining: nat)
    | TakenOff
    | Grown(newDb: ChainState)
    | Accepted(id: BlockId)
    | CrossedOff(id: BlockId)
    | Seen(id: BlockId)
    | StartedOver

  ghost predicate IsEvent(w: World, e: Event) {
    match e
    case Requested => SendRequest(w.v, w.db).Some?
    case TakenOff => w.v.idsToGet != []
    case Grown(newDb) => newDb.Valid() && w.db.known <= newDb.known
    case Accepted(id) => id in w.processing && id in w.db.known
    case CrossedOff(id) => id in w.processing && id in w.db.known
    case Seen(id) => id in w.db.known
    case _ => true
  }

  ghost function After(w: World, e: Event): World
    requires IsEvent(w, e)
  {
    match e
    case Requested => w.(v := SendRequest(w.v, w.db).value)
    case Replied(otherFronts, ids, remaining) => w.(v := TakeReply(w.v, w.db.known, otherFronts, ids, remaining).0)
    case TakenOff =>
      World(w.db, w.v.(idsToGet := w.v.idsToGet[1..]), w.processing + {w.v.idsToGet[0]})
    case Grown(newDb) => w.(db := newDb)
    case Accepted(id) => World(w.db, w.v.(lastSeen := id), w.processing - {id})
    case CrossedOff(id) => w.(processing := w.processing - {id})
    case Seen(id) => w.(v := w.v.(lastSeen := id))
    case StartedOver => w.(v := Restarted(w.v))
  }

  ghost predicate IsStep(ws: seq<World>, es: seq<Event>, k: nat)
    requires k < |es| && |ws| == |es| + 1
  {
    IsEvent(ws[k], es[k]) && ws[k + 1] == After(ws[k], es[k])
  }

  // Nothing asked, named or taken yet.
  ghost predicate IsFresh(w: World) {
    w.v.idsToGet == [] && w.v.requested == None && w.v.lastSeen == Zero && w.v.unfetched == 0 && w.processing == {}
  }

  // A run from a fresh connection.
  ghost predicate IsRun(ws: seq<World>, es: seq<Event>) {
    && |ws| == |es| + 1
    && ws[0].db.Valid() && IsFresh(ws[0])
    && forall k :: 0 <= k < |es| ==> IsStep(ws, es, k)
  }

  lemma TailIsRun(ids: seq<BlockId>, n: nat)
    requires IsRunOfBlocks(ids) && n <= |ids|
    ensures IsRunOfBlocks(ids[n..])
  {
    if n < |ids| {
      assert Num(ids[n]) == Num(ids[0]) + n;
      assert Num(ids[0]) >= 1;
      forall i | 0 <= i < |ids[n..]| ensures Num(ids[n..][i]) == Num(ids[n..][0]) + i {
        assert Num(ids[n + i]) == Num(ids[0]) + (n + i);
      }
    }
  }

  lemma SpliceIsRun(kept: seq<BlockId>, ids: seq<BlockId>)
    requires IsRunOfBlocks(kept) && IsRunOfBlocks(ids)
    requires kept != [] && ids != [] && kept[|kept| - 1] == ids[0]
    ensures IsRunOfBlocks(kept[..|kept| - 1] + ids)
  {
    var n := |kept| - 1;
    var all := kept[..n] + ids;
    assert Num(kept[n]) == Num(kept[0]) + n;
    assert all[0] == kept[0];
    forall i | 0 <= i < |all| ensures Num(all[i]) == Num(all[0]) + i {
      if i < n {
        assert Num(kept[i]) == Num(kept[0]) + i;
      } else {
        assert Num(ids[i - n]) == Num(ids[0]) + (i - n);
      }
    }
  }

  lemma MergeKeepsRun(v: PeerView, known: set<BlockId>, otherFronts: set<BlockId>, ids: seq<BlockId>)
    requires IsRunOfBlocks(v.idsToGet) && IsRunOfBlocks(ids)
    ensures IsRunOfBlocks(Merge(v, known, otherFronts, ids).idsToGet)
  {
    if ids == [] {
    } else if v.idsToGet == [] {
      TailIsRun(ids, KnownPrefix(ids, known));
    } else {
      var kept := CutAt(v.idsToGet, ids[0]);
      if kept == [] {
        TailIsRun(ids, 1);
      } else {
        assert kept == v.idsToGet[..|kept|];
        SpliceIsRun(kept, ids);
      }
    }
  }

  lemma FittingReplyIsRun(synopsis: seq<BlockId>, ids: seq<BlockId>)
    requires Zero !in synopsis && FitsRequest(synopsis, ids)
    ensures IsRunOfBlocks(ids)
  {
  }

  lemma RequestHasNoZero(v: PeerView, db: ChainState)
    requires PeerInv(v) && db.Valid() && SendRequest(v, db).Some?
    ensures var s := SendRequest(v, db).value.requested.value;
            && Zero !in s && (v.idsToGet != [] ==> s != [])
            && forall id :: id in s ==> id in SummarisedChain(db, v.lastSeen) || id in v.idsToGet
  {
    hide HeightsUpTo, ChainSynopsis, JoinedSynopsis, PendingSample, StrictlyIncreasing, AncestorClosed, Consecutive;
    var c := SummarisedChain(db, v.lastSeen);
    var low := LowHeight(db, v.lastSeen);
    SummaryIsSummarisable(db, v.lastSeen);
    ChainHasNoZero(c);
    RunHasNoDuplicates(v.idsToGet);
    if v.idsToGet == [] {
      RequestWithoutPending(c, low);
    } else {
      RequestInRangeIff(db, v.lastSeen, v.idsToGet);
      JoinedSynopsisShape(c, low, v.idsToGet);
    }
  }

  lemma ChainHasNoZero(c: seq<BlockId>)
    requires IsChain(c)
    ensures Zero !in c
  {
    forall i | 0 <= i < |c| ensures c[i] != Zero {
      assert Links(c, i);
    }
  }

  lemma RequestWithoutPending(c: seq<BlockId>, low: nat)
    requires Summarisable(c, low)
    ensures forall id :: id in JoinedSynopsis(c, low, []) ==> id in c
  {
    hide ChainSynopsis, HeightsUpTo;
    ChainSynopsisReads(c, low, 0);
  }

  // What the node summarises for a peer it has.
  lemma SummarisedIsKnown(db: ChainState, lastSeen: BlockId)
    requires db.Valid() && WhyNoSynopsis(db, lastSeen) == None
    ensures forall id :: id in SummarisedChain(db, lastSeen) ==> id in db.known
  {
    hide TooOldToSwitch, AncestorClosed;
    if lastSeen != Zero {
      var c := ChainOf(lastSeen);
      ChainOfIsChain(lastSeen);
      forall i | 0 <= i < |c| ensures c[i] in db.known {
        AncestorsKnown(db, c, i, |c| - 1);
      }
    }
  }

  // ---------- The list over arbitrary runs ----------

  lemma StepKeepsRun(w: World, e: Event)
    requires PeerInv(w.v) && w.db.Valid() && IsEvent(w, e)
    ensures PeerInv(After(w, e).v) && After(w, e).db.Valid()
  {
    hide IsRunOfBlocks, SynopsisForPeer, ChainState.Valid, FitsRequest;
    match e
    case Requested =>
      RequestHasNoZero(w.v, w.db);
    case Replied(otherFronts, ids, remaining) =>
      if w.v.requested.Some? && FitsRequest(w.v.requested.value, ids) {
        FittingReplyIsRun(w.v.requested.value, ids);
        MergeKeepsRun(w.v, w.db.known, otherFronts, ids);
      }
    case TakenOff =>
      TailIsRun(w.v.idsToGet, 1);
    case Grown(_) =>
    case Accepted(_) =>
    case CrossedOff(_) =>
    case Seen(_) =>
    case StartedOver =>
      EmptyIsRun();
  }

  lemma EmptyIsRun()
    ensures IsRunOfBlocks([])
  {
  }

  // Whatever the peer sends, in every state its list is a run of consecutive block numbers
  // with no id twice.
  lemma {:induction false} EveryRunKeepsOneRun(ws: seq<World>, es: seq<Event>, i: nat)
    requires IsRun(ws, es) && i < |ws|
    ensures PeerInv(ws[i].v) && ws[i].db.Valid()
    ensures forall a, b :: 0 <= a < b < |ws[i].v.idsToGet| ==> ws[i].v.idsToGet[a] != ws[i].v.idsToGet[b]
    decreases i
  {
    hide After, IsEvent, ChainState.Valid;
    if i > 0 {
      EveryRunKeepsOneRun(ws, es, i - 1);
      assert IsStep(ws, es, i - 1);
      StepKeepsRun(ws[i - 1], es[i - 1]);
    }
    RunHasNoDuplicates(ws[i].v.idsToGet);
  }

  // ---------- The handler's assertion when a reply empties the list ----------

  // What was named in the outstanding request is had, listed, or being worked on.
  ghost predicate NamedIsAccountedFor(w: World) {
    w.v.requested.Some? && w.v.idsToGet != [] ==>
      w.v.requested.value != [] &&
      forall id :: id in w.v.requested.value ==> id in w.db.known || id in w.v.idsToGet || id in w.processing
  }

  lemma StepAccountsForNamed(w: World, e: Event)
    requires PeerInv(w.v) && w.db.Valid() && IsEvent(w, e) && NamedIsAccountedFor(w)
    ensures NamedIsAccountedFor(After(w, e))
  {
    hide SynopsisForPeer, ChainState.Valid, PeerInv, Merge, FitsRequest;
    match e
    case Requested =>
      RequestHasNoZero(w.v, w.db);
      RequestNeedsKnown(w.v, w.db);
      SummarisedIsKnown(w.db, w.v.lastSeen);
    case Replied(_, _, _) =>
    case TakenOff =>
      assert w.v.idsToGet == [w.v.idsToGet[0]] + w.v.idsToGet[1..];
    case Grown(_) =>
    case Accepted(_) =>
    case CrossedOff(_) =>
    case Seen(_) =>
    case StartedOver =>
  }

  lemma RequestNeedsKnown(v: PeerView, db: ChainState)
    requires SendRequest(v, db).Some?
    ensures WhyNoSynopsis(db, v.lastSeen) == None
  {
  }

  lemma {:induction false} NamedStaysAccountedFor(ws: seq<World>, es: seq<Event>, i: nat)
    requires IsRun(ws, es) && i < |ws|
    ensures NamedIsAccountedFor(ws[i])
    decreases i
  {
    hide After, IsEvent, ChainState.Valid, PeerInv;
    if i > 0 {
      NamedStaysAccountedFor(ws, es, i - 1);
      EveryRunKeepsOneRun(ws, es, i - 1);
      assert IsStep(ws, es, i - 1);
      StepAccountsForNamed(ws[i - 1], es[i - 1]);
    } else {
      assert NamedIsAccountedFor(ws[0]);
    }
  }

  // With neither list nor blocks changed since the request, the assertion holds.
  lemma EmptiedListStartsKnown(v: PeerView, db: ChainState, ids: seq<BlockId>)
    requires PeerInv(v) && v.idsToGet != [] && db.Valid() && SendRequest(v, db).Some?
    requires ids != [] && FitsRequest(SendRequest(v, db).value.requested.value, ids)
    requires CutAt(v.idsToGet, ids[0]) == []
    ensures ids[0] in db.known
  {
    hide SynopsisForPeer, ChainState.Valid, PeerInv, Sequential;
    RequestHasNoZero(v, db);
    RequestNeedsKnown(v, db);
    SummarisedIsKnown(db, v.lastSeen);
  }

  // A reply that passes the checks meets a list it cuts down to nothing.
  ghost predicate EmptiesList(w: World, ids: seq<BlockId>) {
    && w.v.requested.Some? && FitsRequest(w.v.requested.value, ids)
    && ids != [] && w.v.idsToGet != [] && CutAt(w.v.idsToGet, ids[0]) == []
  }

  // Over every run, whatever the reply: the delegate has its first block or is working on it.
  lemma EmptiedListStartsAccountedFor(ws: seq<World>, es: seq<Event>, i: nat, ids: seq<BlockId>)
    requires IsRun(ws, es) && i < |ws| && EmptiesList(ws[i], ids)
    ensures ids[0] in ws[i].db.known || ids[0] in ws[i].processing
  {
    hide IsRun, ChainState.Valid, EmptiesList;
    NamedStaysAccountedFor(ws, es, i);
    FirstWasNamed(ws[i], ids);
  }

  // A block of the outstanding request was taken off the list and is not accepted yet, while
  // others are still listed.
  ghost predicate NamedBlockInProgress(w: World) {
    && w.v.requested.Some? && w.v.idsToGet != []
    && exists id :: id in w.v.requested.value && id in w.processing && id !in w.v.idsToGet && id !in w.db.known
  }

  // Its first block then counts as the last one the delegate has seen, and the rest is the list.
  lemma EmptiedListBecomesReply(w: World, otherFronts: set<BlockId>, ids: seq<BlockId>, remaining: nat)
    requires EmptiesList(w, ids)
    ensures var v := TakeReply(w.v, w.db.known, otherFronts, ids, remaining).0;
            [v.lastSeen] + v.idsToGet == ids && v.unfetched == remaining
  {
    hide FitsRequest;
  }

  // The state before the reply decides whether some reply can make the assertion fail.
  lemma EmptiedListStartsKnownIff(ws: seq<World>, es: seq<Event>, i: nat)
    requires IsRun(ws, es) && i < |ws|
    ensures (forall ids :: EmptiesList(ws[i], ids) ==> ids[0] in ws[i].db.known) <==> !NamedBlockInProgress(ws[i])
  {
    hide IsStep, ChainState.Valid, IsRun, FitsRequest;
    var w := ws[i];
    if NamedBlockInProgress(w) {
      var id :| id in w.v.requested.value && id in w.processing && id !in w.v.idsToGet && id !in w.db.known;
      OneBlockEmptiesList(w, id);
    } else {
      forall ids | EmptiesList(w, ids) ensures ids[0] in w.db.known {
        EmptiedListStartsAccountedFor(ws, es, i, ids);
        NamedStaysAccountedFor(ws, es, i);
        FirstWasNamed(w, ids);
      }
    }
  }

  lemma OneBlockEmptiesList(w: World, id: BlockId)
    requires w.v.requested.Some? && w.v.idsToGet != [] && id in w.v.requested.value && id !in w.v.idsToGet
    ensures EmptiesList(w, [id])
  {
    CutWithout(w.v.idsToGet, id);
  }

  lemma {:induction false} CutWithout(list: seq<BlockId>, id: BlockId)
    requires id !in list
    ensures CutAt(list, id) == []
  {
    if list != [] {
      CutWithout(list[..|list| - 1], id);
    }
  }

  lemma FirstWasNamed(w: World, ids: seq<BlockId>)
    requires EmptiesList(w, ids) && NamedIsAccountedFor(w)
    ensures ids[0] in w.v.requested.value && ids[0] !in w.v.idsToGet
    ensures ids[0] in w.db.known || ids[0] in w.processing
  {
    hide Sequential;
  }

  // ---------- Two runs that go wrong ----------

  function NoBlocks(): ChainState {
    ChainState([], {}, 0)
  }

  function Start(): World {
    World(NoBlocks(), PeerView([], 0, Zero, true, None), {})
  }

  // A node without blocks asks for everything and is offered ids.
  lemma FirstOffer(ids: seq<BlockId>) returns (ws: seq<World>, es: seq<Event>)
    requires ids != [] && Sequential(ids) && Num(ids[0]) == 1
    ensures IsRun(ws, es) && |ws| == 3
    ensures ws[2] == World(NoBlocks(), PeerView(ids, 0, Zero, true, None), {})
  {
    es := [Requested, Replied({}, ids, 0)];
    var asked := World(NoBlocks(), PeerView([], 0, Zero, true, Some([])), {});
    EmptyRequest();
    assert After(Start(), es[0]) == asked;
    assert KnownPrefix(ids, {}) == 0 && ids[0..] == ids;
    ws := [Start(), asked, After(asked, es[1])];
    assert IsStep(ws, es, 0) && IsStep(ws, es, 1);
  }

  lemma EmptyRequest()
    ensures SynopsisForPeer(NoBlocks(), Zero, []) == Success([])
  {
    assert HeightsUpTo(1, 0, 0) == [];
  }

  lemma TwoPendingRequest(ids: seq<BlockId>)
    requires |ids| == 2 && Num(ids[0]) == 1
    ensures SynopsisForPeer(NoBlocks(), Zero, ids) == Success(ids)
  {
    assert HeightsUpTo(1, 0, 2) == [];
    assert NextHeight(1, 2) == 2 && NextHeight(2, 2) == 3;
    assert PendingSample(ids, 1, 3) == [];
    assert PendingSample(ids, 1, 2) == [ids[1]] + PendingSample(ids, 1, 3) == [ids[1]];
    assert PendingSample(ids, 1, 1) == [ids[0]] + PendingSample(ids, 1, 2);
    assert ids == [ids[0]] + [ids[1]];
    var d := ChainSynopsis([], 1, 2);
    assert d == [] && JoinedSynopsis([], 1, ids) == d + PendingSample(ids, 1, 1) == ids;
  }

  lemma Extended(ws: seq<World>, es: seq<Event>, e: Event) returns (more: seq<World>)
    requires IsRun(ws, es) && IsEvent(ws[|es|], e)
    ensures more == ws + [After(ws[|es|], e)] && IsRun(more, es + [e])
  {
    hide After, IsEvent;
    more := ws + [After(ws[|es|], e)];
    forall k | 0 <= k < |es| + 1 ensures IsStep(more, es + [e], k) {
      if k < |es| {
        assert IsStep(ws, es, k);
      }
    }
  }

  // A peer that switches forks between a request and its reply, after the first block named
  // was taken off the list: the assertion fails.
  lemma EmptiedListCanStartUnknown() returns (ws: seq<World>, es: seq<Event>, ids: seq<BlockId>)
    ensures IsRun(ws, es) && |ws| > 0 && EmptiesList(ws[|ws| - 1], ids)
    ensures ids[0] !in ws[|ws| - 1].db.known && ids[0] in ws[|ws| - 1].processing
  {
    var a := BlockId(Zero, 0);
    var b, x := BlockId(a, 0), BlockId(a, 1);
    ids := [a, x];
    assert Num(a) == 1 && Num(b) == 2 && Num(x) == 2;
    ws, es := FirstOffer([a, b]);
    TwoPendingRequest([a, b]);
    ws := Extended(ws, es, Requested);
    es := es + [Requested];
    ws := Extended(ws, es, TakenOff);
    es := es + [TakenOff];
    assert [a, b][1..] == [b];
    assert ws[|ws| - 1] == World(NoBlocks(), PeerView([b], 0, Zero, true, Some([a, b])), {a});
    assert CutAt([b], a) == [] by {
      assert [b][..0] == [];
    }
  }

  // The node gets past a pending id without it, as by a block that arrives in normal operation:
  // the next request would read past the end of the pending ids.
  lemma RequestCanRunOut() returns (ws: seq<World>, es: seq<Event>)
    ensures IsRun(ws, es) && |ws| > 0
    ensures var w := ws[|ws| - 1];
            SynopsisForPeer(w.db, w.v.lastSeen, w.v.idsToGet) == Failure(PendingIndexOutOfRange)
  {
    var a := BlockId(Zero, 0);
    var b := BlockId(a, 0);
    var main := [a, b];
    var db := ChainState(main, {a, b}, 2);
    assert Num(a) == 1 && Num(b) == 2;
    assert Links(main, 0) && Links(main, 1);
    ws, es := FirstOffer([a]);
    ws := Extended(ws, es, Grown(db));
    es := es + [Grown(db)];
    assert LowHeight(db, Zero) == 2;
    RequestInRangeIff(db, Zero, [a]);
  }
}
