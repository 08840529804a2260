/** Requesting sync blocks from peers: which peer is asked for which block, and the set of
    requests on the way, over any sequence of passes, arrivals, refusals and disconnections. */
module SyncScheduler {
  import opened Chain
  import opened Sequences

  type PeerId = nat

  // What matters of a connection. active: still among the active connections; closing ones
  // stay open until their closing is complete.
  datatype Peer = Peer(
    active: bool,
    idsToGet: seq<BlockId>,
    syncRequested: set<BlockId>,
    otherRequests: bool,
    needSync: bool,
    inhibited: bool,
    needsItemsFromUs: bool)
  {
    predicate Idle() {
      !otherRequests && syncRequested == {}
    }

    predicate Schedulable() {
      active && needSync && Idle() && !inhibited
    }
  }

  datatype State = State(peers: map<PeerId, Peer>, activeRequests: set<BlockId>, received: set<BlockId>)

  // ---------- One peer's batch ----------

  // The first ids of the list that are not blocked, each once, until the batch is full.
  function Pick(ids: seq<BlockId>, blocked: set<BlockId>, room: nat): (batch: seq<BlockId>) {
    if ids == [] then []
    else if ids[0] in blocked then Pick(ids[1..], blocked, room)
    else if room <= 1 then [ids[0]]
    else [ids[0]] + Pick(ids[1..], blocked + {ids[0]}, room - 1)
  }

  function ToSet(ids: seq<BlockId>): set<BlockId> {
    set id | id in ids
  }

  // A batch holds ids of the list that were free, none twice, and either fills up or leaves
  // nothing free behind.
  lemma {:induction false} PickIsComplete(ids: seq<BlockId>, blocked: set<BlockId>, room: nat)
    requires room >= 1
    ensures var batch := Pick(ids, blocked, room);
            && (forall id :: id in batch ==> id in ids && id !in blocked)
            && (forall i, j :: 0 <= i < j < |batch| ==> batch[i] != batch[j])
            && |batch| <= room
            && (|batch| < room ==> forall id :: id in ids ==> id in blocked || id in batch)
    decreases |ids|
  {
    if ids != [] {
      if ids[0] in blocked {
        PickIsComplete(ids[1..], blocked, room);
      } else if room > 1 {
        PickIsComplete(ids[1..], blocked + {ids[0]}, room - 1);
      }
      assert ids == [ids[0]] + ids[1..];
    }
  }

  // batch is what stands at these places of ids, rising, with nothing free left out before them.
  ghost predicate Earliest(ids: seq<BlockId>, blocked: set<BlockId>, batch: seq<BlockId>, places: seq<nat>) {
    && |places| == |batch|
    && (forall k :: 0 <= k < |places| ==> places[k] < |ids| && batch[k] == ids[places[k]])
    && (forall j, k :: 0 <= j < k < |places| ==> places[j] < places[k])
    && (forall i, k :: 0 <= k < |places| && 0 <= i < places[k] ==> ids[i] in blocked || ids[i] in batch)
  }

  // It holds the earliest free ids, in the order of the list.
  lemma {:induction false} PickIsEarliest(ids: seq<BlockId>, blocked: set<BlockId>, room: nat) returns (places: seq<nat>)
    requires room >= 1
    ensures Earliest(ids, blocked, Pick(ids, blocked, room), places)
    decreases |ids|
  {
    hide Earliest, Shifted;
    if ids == [] {
      places := [];
      EarliestOfNone(blocked);
    } else if ids[0] in blocked {
      var rest := PickIsEarliest(ids[1..], blocked, room);
      places := Shifted(rest);
      EarliestSkips(ids, blocked, Pick(ids[1..], blocked, room), rest);
    } else if room == 1 {
      places := [0];
      EarliestIsFirst(ids, blocked);
    } else {
      var rest := PickIsEarliest(ids[1..], blocked + {ids[0]}, room - 1);
      places := [0] + Shifted(rest);
      EarliestTakes(ids, blocked, Pick(ids[1..], blocked + {ids[0]}, room - 1), rest);
    }
  }

  function Shifted(places: seq<nat>): (r: seq<nat>)
    ensures |r| == |places| && forall k :: 0 <= k < |places| ==> r[k] == places[k] + 1
  {
    seq(|places|, k requires 0 <= k < |places| => places[k] + 1)
  }

  lemma EarliestOfNone(blocked: set<BlockId>)
    ensures Earliest([], blocked, [], [])
  {
  }

  lemma EarliestIsFirst(ids: seq<BlockId>, blocked: set<BlockId>)
    requires ids != []
    ensures Earliest(ids, blocked, [ids[0]], [0])
  {
  }

  lemma EarliestSkips(ids: seq<BlockId>, blocked: set<BlockId>, batch: seq<BlockId>, rest: seq<nat>)
    requires ids != [] && ids[0] in blocked && Earliest(ids[1..], blocked, batch, rest)
    ensures Earliest(ids, blocked, batch, Shifted(rest))
  {
    forall i, k | 0 <= k < |rest| && 0 <= i < Shifted(rest)[k] ensures ids[i] in blocked || ids[i] in batch {
      assert i > 0 ==> ids[1..][i - 1] == ids[i];
    }
  }

  lemma EarliestTakes(ids: seq<BlockId>, blocked: set<BlockId>, batch: seq<BlockId>, rest: seq<nat>)
    requires ids != [] && Earliest(ids[1..], blocked + {ids[0]}, batch, rest)
    ensures Earliest(ids, blocked, [ids[0]] + batch, [0] + Shifted(rest))
  {
    var places, all := [0] + Shifted(rest), [ids[0]] + batch;
    forall k | 0 <= k < |places| ensures places[k] < |ids| && all[k] == ids[places[k]] {
      assert k > 0 ==> all[k] == batch[k - 1] && places[k] == rest[k - 1] + 1;
    }
    forall i, k | 0 <= k < |places| && 0 <= i < places[k] ensures ids[i] in blocked || ids[i] in all {
      NothingFreeBefore(ids, blocked, batch, rest, i, k);
    }
  }

  lemma NothingFreeBefore(ids: seq<BlockId>, blocked: set<BlockId>, batch: seq<BlockId>, rest: seq<nat>, i: nat, k: nat)
    requires ids != [] && Earliest(ids[1..], blocked + {ids[0]}, batch, rest)
    requires k <= |rest| && i < ([0] + Shifted(rest))[k] && i < |ids|
    ensures ids[i] in blocked || ids[i] in [ids[0]] + batch
  {
    hide Earliest;
    InFrontOf(ids[0], batch, ids[i]);
    if i > 0 {
      assert ([0] + Shifted(rest))[k] == rest[k - 1] + 1;
      EarliestMeans(ids[1..], blocked + {ids[0]}, batch, rest, i - 1, k - 1);
    }
  }

  lemma EarliestMeans(ids: seq<BlockId>, blocked: set<BlockId>, batch: seq<BlockId>, places: seq<nat>, i: nat, k: nat)
    requires Earliest(ids, blocked, batch, places) && k < |places| && i < places[k]
    ensures i < |ids| && (ids[i] in blocked || ids[i] in batch)
  {
  }

  lemma InFrontOf(first: BlockId, batch: seq<BlockId>, id: BlockId)
    ensures id in [first] + batch <==> id == first || id in batch
  {
  }

  // ---------- A pass over all peers ----------

  // What a pass has scheduled: a batch for each peer it came to.
  datatype Plan = Plan(batches: map<PeerId, seq<BlockId>>, chosen: set<BlockId>)

  function Blocked(s: State, chosen: set<BlockId>): set<BlockId> {
    s.received + s.activeRequests + chosen
  }

  function PlanAfter(s: State, order: seq<PeerId>, room: nat): Plan
    requires forall p :: p in order ==> p in s.peers
  {
    if order == [] then Plan(map[], {})
    else
      var before := PlanAfter(s, order[..|order| - 1], room);
      var p := order[|order| - 1];
      if !s.peers[p].Schedulable() then before
      else
        var batch := Pick(s.peers[p].idsToGet, Blocked(s, before.chosen), room);
        WithBatch(before, p, batch)
  }

  // The requests of a plan, sent.
  function Sent(s: State, plan: Plan): State {
    State(map p | p in s.peers :: if p in plan.batches then WithRequests(s.peers[p], plan.batches[p]) else s.peers[p],
          s.activeRequests + plan.chosen,
          s.received)
  }

  ghost predicate Enumerates(order: seq<PeerId>, s: State) {
    && (forall i, j :: 0 <= i < j < |order| ==> order[i] != order[j])
    && (forall p :: p in order <==> p in s.peers)
  }

  ghost predicate GoodPlan(s: State, done: seq<PeerId>, plan: Plan, room: nat) {
    && BatchesCover(s, done, plan)
    && BatchesFit(s, plan, room)
    && BatchesAreApart(plan)
    && BatchesAreComplete(s, plan, room)
  }

  // One batch for every schedulable peer the pass came to.
  ghost predicate BatchesCover(s: State, done: seq<PeerId>, plan: Plan) {
    forall p :: p in plan.batches <==> p in done && p in s.peers && s.peers[p].Schedulable()
  }

  // Of bounded size, made of ids the peer listed, that were neither received nor on the way.
  ghost predicate BatchesFit(s: State, plan: Plan, room: nat) {
    && (forall p :: p in plan.batches ==> p in s.peers && |plan.batches[p]| <= room)
    && (forall p, id :: p in plan.batches && id in plan.batches[p] ==>
          id in plan.chosen && id in s.peers[p].idsToGet && id !in s.received)
    && (forall id :: id in plan.chosen ==> id !in s.activeRequests)
  }

  ghost predicate BatchesAreApart(plan: Plan) {
    forall p, q, id :: p in plan.batches && q in plan.batches && p != q && id in plan.batches[p] ==> id !in plan.batches[q]
  }

  // A batch that is not full leaves nothing its peer lists unaccounted for.
  ghost predicate BatchesAreComplete(s: State, plan: Plan, room: nat) {
    forall p, id :: p in plan.batches && p in s.peers && |plan.batches[p]| < room && id in s.peers[p].idsToGet ==>
      id in Blocked(s, plan.chosen)
  }

  // What PickIsComplete says of a batch for p.
  ghost predicate GoodBatch(s: State, chosen: set<BlockId>, p: PeerId, batch: seq<BlockId>, room: nat)
    requires p in s.peers
  {
    && (forall id :: id in batch ==> id in s.peers[p].idsToGet && id !in Blocked(s, chosen))
    && |batch| <= room
    && (|batch| < room ==> forall id :: id in s.peers[p].idsToGet ==> id in Blocked(s, chosen) || id in batch)
  }

  function WithBatch(plan: Plan, p: PeerId, batch: seq<BlockId>): Plan {
    Plan(plan.batches[p := batch], plan.chosen + ToSet(batch))
  }

  lemma FitsWithOneMore(s: State, plan: Plan, p: PeerId, batch: seq<BlockId>, room: nat)
    requires p in s.peers && BatchesFit(s, plan, room) && GoodBatch(s, plan.chosen, p, batch, room)
    ensures BatchesFit(s, WithBatch(plan, p, batch), room)
  {
    var next := WithBatch(plan, p, batch);
    forall q, id | q in next.batches && id in next.batches[q]
      ensures id in next.chosen && id in s.peers[q].idsToGet && id !in s.received
    {
      if q == p {
        assert id in batch;
      } else {
        assert id in plan.batches[q] && id in plan.chosen;
      }
    }
    forall id | id in next.chosen ensures id !in s.activeRequests {
      assert id in plan.chosen || id in batch;
    }
  }

  lemma ApartWithOneMore(s: State, plan: Plan, p: PeerId, batch: seq<BlockId>, room: nat)
    requires p in s.peers && BatchesFit(s, plan, room) && BatchesAreApart(plan)
    requires GoodBatch(s, plan.chosen, p, batch, room)
    ensures BatchesAreApart(WithBatch(plan, p, batch))
  {
    var next := WithBatch(plan, p, batch);
    forall q, r, id | q in next.batches && r in next.batches && q != r && id in next.batches[q]
      ensures id !in next.batches[r]
    {
      if q == p {
        assert id in batch && id !in plan.chosen;
      } else {
        assert id in plan.chosen;
      }
    }
  }

  lemma CompleteWithOneMore(s: State, plan: Plan, p: PeerId, batch: seq<BlockId>, room: nat)
    requires p in s.peers && BatchesAreComplete(s, plan, room) && GoodBatch(s, plan.chosen, p, batch, room)
    ensures BatchesAreComplete(s, WithBatch(plan, p, batch), room)
  {
    var next := WithBatch(plan, p, batch);
    forall q, id | q in next.batches && q in s.peers && |next.batches[q]| < room && id in s.peers[q].idsToGet
      ensures id in Blocked(s, next.chosen)
    {
      if q != p {
        assert id in Blocked(s, plan.chosen);
      }
    }
  }

  lemma OnePeerMore(s: State, done: seq<PeerId>, plan: Plan, p: PeerId, room: nat)
    requires room >= 1 && GoodPlan(s, done, plan, room) && p !in done && p in s.peers && s.peers[p].Schedulable()
    ensures GoodPlan(s, done + [p], WithBatch(plan, p, Pick(s.peers[p].idsToGet, Blocked(s, plan.chosen), room)), room)
  {
    hide Pick, Blocked, BatchesFit, BatchesAreApart, BatchesAreComplete, ToSet;
    var batch := Pick(s.peers[p].idsToGet, Blocked(s, plan.chosen), room);
    PickIsComplete(s.peers[p].idsToGet, Blocked(s, plan.chosen), room);
    FitsWithOneMore(s, plan, p, batch, room);
    ApartWithOneMore(s, plan, p, batch, room);
    CompleteWithOneMore(s, plan, p, batch, room);
  }

  lemma {:induction false} PlanIsGood(s: State, order: seq<PeerId>, room: nat)
    requires room >= 1 && (forall i, j :: 0 <= i < j < |order| ==> order[i] != order[j])
    requires forall p :: p in order ==> p in s.peers
    ensures GoodPlan(s, order, PlanAfter(s, order, room), room)
  {
    if order != [] {
      var n := |order| - 1;
      PlanIsGood(s, order[..n], room);
      assert order == order[..n] + [order[n]];
      if s.peers[order[n]].Schedulable() {
        OnePeerMore(s, order[..n], PlanAfter(s, order[..n], room), order[n], room);
      }
    }
  }

  ghost predicate NoRepeats(ids: seq<BlockId>) {
    forall i, j :: 0 <= i < j < |ids| ==> ids[i] != ids[j]
  }

  lemma {:induction false} BatchesHaveNoRepeats(s: State, order: seq<PeerId>, room: nat)
    requires room >= 1 && forall p :: p in order ==> p in s.peers
    ensures forall p :: p in PlanAfter(s, order, room).batches ==> NoRepeats(PlanAfter(s, order, room).batches[p])
  {
    hide Pick, Blocked, Peer.Schedulable, ToSet;
    if order != [] {
      var n := |order| - 1;
      BatchesHaveNoRepeats(s, order[..n], room);
      var blocked := Blocked(s, PlanAfter(s, order[..n], room).chosen);
      PickIsComplete(s.peers[order[n]].idsToGet, blocked, room);
      assert NoRepeats(Pick(s.peers[order[n]].idsToGet, blocked, room));
    }
  }

  // A pass asks exactly the active peers that are needed for blocks, idle and not inhibited, for
  // up to room blocks they list, neither received nor on the way; one that is asked for fewer
  // lists nothing more that is free. No other peer is touched.
  lemma PassServes(s: State, order: seq<PeerId>, room: nat, p: PeerId)
    requires room >= 1 && Enumerates(order, s) && p in s.peers
    ensures var t := Sent(s, PlanAfter(s, order, room));
            && p in t.peers
            && (if s.peers[p].active && s.peers[p].needSync && !s.peers[p].inhibited && !s.peers[p].otherRequests && s.peers[p].syncRequested == {} then
                  && t.peers[p] == s.peers[p].(syncRequested := t.peers[p].syncRequested)
                  && |t.peers[p].syncRequested| <= room
                  && (forall id :: id in t.peers[p].syncRequested ==>
                        id in s.peers[p].idsToGet && id !in s.received && id !in s.activeRequests && id in t.activeRequests)
                  && (|t.peers[p].syncRequested| < room ==>
                        forall id :: id in s.peers[p].idsToGet ==> id in s.received || id in t.activeRequests)
                else t.peers[p] == s.peers[p])
  {
    hide PlanAfter, BatchesAreApart, Pick, NoRepeats;
    var plan := PlanAfter(s, order, room);
    PlanIsGood(s, order, room);
    BatchesHaveNoRepeats(s, order, room);
    if p in plan.batches {
      BatchServes(s, plan, p, room);
    }
  }

  lemma BatchServes(s: State, plan: Plan, p: PeerId, room: nat)
    requires p in s.peers && p in plan.batches && s.peers[p].syncRequested == {}
    requires NoRepeats(plan.batches[p]) && BatchesFit(s, plan, room) && BatchesAreComplete(s, plan, room)
    ensures var t := Sent(s, plan);
            && t.peers[p] == s.peers[p].(syncRequested := t.peers[p].syncRequested)
            && |t.peers[p].syncRequested| <= room
            && (forall id :: id in t.peers[p].syncRequested ==>
                  id in s.peers[p].idsToGet && id !in s.received && id !in s.activeRequests && id in t.activeRequests)
            && (|t.peers[p].syncRequested| < room ==>
                  forall id :: id in s.peers[p].idsToGet ==> id in s.received || id in t.activeRequests)
  {
    hide NoRepeats;
    var batch := plan.batches[p];
    SizeOfDistinct(batch);
    assert Sent(s, plan).peers[p].syncRequested == ToSet(batch);
    forall id | id in ToSet(batch)
      ensures id in s.peers[p].idsToGet && id !in s.received && id in plan.chosen
    {
      BatchIdFits(s, plan, p, id, room);
    }
    if |batch| < room {
      forall id | id in s.peers[p].idsToGet ensures id in s.received || id in s.activeRequests + plan.chosen {
        assert id in Blocked(s, plan.chosen);
      }
    }
  }

  lemma BatchIdFits(s: State, plan: Plan, p: PeerId, id: BlockId, room: nat)
    requires BatchesFit(s, plan, room) && p in plan.batches && p in s.peers && id in ToSet(plan.batches[p])
    ensures id in s.peers[p].idsToGet && id !in s.received && id in plan.chosen
  {
  }

  lemma {:induction false} SizeOfDistinct(ids: seq<BlockId>)
    requires NoRepeats(ids)
    ensures |ToSet(ids)| == |ids|
  {
    if ids != [] {
      var n := |ids| - 1;
      SizeOfDistinct(ids[..n]);
      assert ids == ids[..n] + [ids[n]];
      assert ToSet(ids) == ToSet(ids[..n]) + {ids[n]};
      assert ids[n] !in ToSet(ids[..n]);
    }
  }

  // ---------- The invariant ----------

  // Different open peers are never asked for the same block, and every block asked for is
  // recorded as on its way.
  ghost predicate RequestsAreDisjoint(s: State) {
    && (forall p, q, id :: p in s.peers && q in s.peers && p != q && id in s.peers[p].syncRequested ==> id !in s.peers[q].syncRequested)
    && (forall p, id :: p in s.peers && id in s.peers[p].syncRequested ==> id in s.activeRequests)
  }

  datatype Event =
    | Pass(order: seq<PeerId>)
    | BlockArrived(from: PeerId, id: BlockId)
    | NotAvailable(from: PeerId, id: BlockId)
    | Closed(peer: PeerId)
    | Opened(peer: PeerId, peerState: Peer)
    | OtherChange(peer: PeerId, peerState: Peer, received: set<BlockId>)

  // One event on the node's state.
  function After(s: State, e: Event, room: nat): State {
    match e
    case Pass(order) =>
      if forall p :: p in order ==> p in s.peers then Sent(s, PlanAfter(s, order, room)) else s
    case BlockArrived(p, id) =>
      if p !in s.peers then s
      else if id in s.peers[p].syncRequested then
        State(s.peers[p := s.peers[p].(syncRequested := s.peers[p].syncRequested - {id})], s.activeRequests - {id}, s.received + {id})
      else s.(peers := s.peers[p := s.peers[p].(active := false)])
    case NotAvailable(p, id) =>
      if p !in s.peers || id !in s.peers[p].syncRequested then s
      else
        var peer := s.peers[p].(syncRequested := s.peers[p].syncRequested - {id});
        s.(peers := s.peers[p := if peer.needsItemsFromUs then peer.(inhibited := true) else peer.(active := false)])
    case Closed(p) =>
      if p !in s.peers then s
      else State(s.peers - {p}, s.activeRequests - s.peers[p].syncRequested, s.received)
    case Opened(p, peer) =>
      if p in s.peers then s else s.(peers := s.peers[p := peer.(syncRequested := {})])
    case OtherChange(p, peer, received) =>
      if p !in s.peers then s.(received := received)
      else s.(peers := s.peers[p := peer.(syncRequested := s.peers[p].syncRequested)], received := received)
  }

  ghost predicate IsEvent(s: State, e: Event) {
    e.Pass? ==> Enumerates(e.order, s)
  }

  lemma EventKeepsDisjoint(s: State, e: Event, room: nat)
    requires room >= 1 && RequestsAreDisjoint(s) && IsEvent(s, e)
    ensures RequestsAreDisjoint(After(s, e, room))
  {
    hide PlanAfter, Sent, RequestsAreDisjoint, IsEvent, After;
    match e
    case Pass(order) =>
      PassKeepsDisjoint(s, order, room);
    case BlockArrived(p, id) =>
      ArrivalKeepsDisjoint(s, p, id, room);
    case NotAvailable(p, id) =>
      RefusalKeepsDisjoint(s, p, id, room);
    case Closed(p) =>
      ClosingKeepsDisjoint(s, p, room);
    case Opened(p, peer) =>
      SameRequestsKeepDisjoint(s, e, room);
    case OtherChange(p, peer, received) =>
      SameRequestsKeepDisjoint(s, e, room);
  }

  lemma PassKeepsDisjoint(s: State, order: seq<PeerId>, room: nat)
    requires room >= 1 && RequestsAreDisjoint(s) && IsEvent(s, Pass(order))
    ensures RequestsAreDisjoint(After(s, Pass(order), room))
  {
    hide PlanAfter, Sent, RequestsAreDisjoint;
    PlanIsGood(s, order, room);
    SendingKeepsDisjoint(s, order, PlanAfter(s, order, room), room);
  }

  lemma ArrivalKeepsDisjoint(s: State, p: PeerId, id: BlockId, room: nat)
    requires RequestsAreDisjoint(s)
    ensures RequestsAreDisjoint(After(s, BlockArrived(p, id), room))
  {
    hide PlanAfter, Sent;
  }

  lemma RefusalKeepsDisjoint(s: State, p: PeerId, id: BlockId, room: nat)
    requires RequestsAreDisjoint(s)
    ensures RequestsAreDisjoint(After(s, NotAvailable(p, id), room))
  {
    hide PlanAfter, Sent;
  }

  lemma ClosingKeepsDisjoint(s: State, p: PeerId, room: nat)
    requires RequestsAreDisjoint(s)
    ensures RequestsAreDisjoint(After(s, Closed(p), room))
  {
    hide PlanAfter, Sent;
  }

  lemma SameRequestsKeepDisjoint(s: State, e: Event, room: nat)
    requires RequestsAreDisjoint(s) && (e.Opened? || e.OtherChange?)
    ensures RequestsAreDisjoint(After(s, e, room))
  {
    hide PlanAfter, Sent;
  }

  lemma SendingKeepsDisjoint(s: State, order: seq<PeerId>, plan: Plan, room: nat)
    requires RequestsAreDisjoint(s) && GoodPlan(s, order, plan, room)
    ensures RequestsAreDisjoint(Sent(s, plan))
  {
    hide Sent, Peer.Schedulable, BatchesAreComplete, GoodPlan, RequestsAreDisjoint;
    SentRequests(s, plan);
    forall p, q, id | p in s.peers && q in s.peers && p != q && id in Sent(s, plan).peers[p].syncRequested
      ensures id !in Sent(s, plan).peers[q].syncRequested
    {
      SentToOne(s, order, plan, room, p, q, id);
    }
    forall p, id | p in s.peers && id in Sent(s, plan).peers[p].syncRequested ensures id in Sent(s, plan).activeRequests {
      SentIsRecorded(s, order, plan, room, p, id);
    }
    assert RequestsAreDisjoint(Sent(s, plan)) by {
      DisjointMeans(Sent(s, plan));
    }
  }

  lemma DisjointMeans(s: State)
    requires forall p, q, id :: p in s.peers && q in s.peers && p != q && id in s.peers[p].syncRequested ==> id !in s.peers[q].syncRequested
    requires forall p, id :: p in s.peers && id in s.peers[p].syncRequested ==> id in s.activeRequests
    ensures RequestsAreDisjoint(s)
  {
  }

  lemma SentToOne(s: State, order: seq<PeerId>, plan: Plan, room: nat, p: PeerId, q: PeerId, id: BlockId)
    requires RequestsAreDisjoint(s) && GoodPlan(s, order, plan, room)
    requires p in s.peers && q in s.peers && p != q
    ensures Sent(s, plan).peers.Keys == s.peers.Keys
    ensures id in Sent(s, plan).peers[p].syncRequested ==> id !in Sent(s, plan).peers[q].syncRequested
  {
    hide Sent, Peer.Schedulable, BatchesAreComplete;
    SentRequests(s, plan);
    assert id in s.activeRequests ==> id !in plan.chosen;
    assert id in s.peers[p].syncRequested || id in s.peers[q].syncRequested ==> id in s.activeRequests;
  }

  lemma SentIsRecorded(s: State, order: seq<PeerId>, plan: Plan, room: nat, p: PeerId, id: BlockId)
    requires RequestsAreDisjoint(s) && GoodPlan(s, order, plan, room) && p in s.peers
    ensures Sent(s, plan).peers.Keys == s.peers.Keys
    ensures id in Sent(s, plan).peers[p].syncRequested ==> id in Sent(s, plan).activeRequests
  {
    hide Sent, Peer.Schedulable, BatchesAreComplete;
    SentRequests(s, plan);
  }

  lemma SentRequests(s: State, plan: Plan)
    ensures var t := Sent(s, plan);
            && t.peers.Keys == s.peers.Keys
            && t.activeRequests == s.activeRequests + plan.chosen
            && forall p, id :: p in s.peers ==>
                 (id in t.peers[p].syncRequested <==>
                  id in s.peers[p].syncRequested || (p in plan.batches && id in plan.batches[p]))
  {
  }

  lemma DisjointnessStays(s: State, e: Event)
    requires IsEvent(s, e)
    ensures RequestsAreDisjoint(s) ==> RequestsAreDisjoint(After(s, e, 1))
  {
    hide After, RequestsAreDisjoint, IsEvent;
    if RequestsAreDisjoint(s) {
      EventKeepsDisjoint(s, e, 1);
    }
  }

  // Over every run from an empty node.
  lemma {:induction false} EveryRunKeepsDisjoint(ss: seq<State>, es: seq<Event>, room: nat, i: nat)
    requires room >= 1 && |ss| == |es| + 1 && i < |ss| && RequestsAreDisjoint(ss[0])
    requires forall k :: 0 <= k < |es| ==> IsEvent(ss[k], es[k]) && ss[k + 1] == After(ss[k], es[k], room)
    ensures RequestsAreDisjoint(ss[i])
    decreases i
  {
    if i > 0 {
      EveryRunKeepsDisjoint(ss, es, room, i - 1);
      EventKeepsDisjoint(ss[i - 1], es[i - 1], room);
    }
  }

  // ---------- A block that arrived is not asked for again ----------

  // The block waits among those received and nobody is asked for it.
  ghost predicate HeldBack(s: State, id: BlockId) {
    id in s.received && forall p :: p in s.peers ==> id !in s.peers[p].syncRequested
  }

  lemma ArrivedIsHeld(s: State, p: PeerId, id: BlockId, room: nat)
    requires RequestsAreDisjoint(s) && p in s.peers && id in s.peers[p].syncRequested
    ensures HeldBack(After(s, BlockArrived(p, id), room), id)
  {
    hide PlanAfter, Sent;
  }

  lemma PassHoldsBack(s: State, order: seq<PeerId>, room: nat, id: BlockId)
    requires room >= 1 && HeldBack(s, id) && IsEvent(s, Pass(order))
    ensures HeldBack(After(s, Pass(order), room), id)
  {
    hide PlanAfter, Sent, BatchesAreApart, BatchesAreComplete, BatchesCover;
    PlanIsGood(s, order, room);
    SentRequests(s, PlanAfter(s, order, room));
    SentKeepsReceived(s, PlanAfter(s, order, room));
  }

  lemma SentKeepsReceived(s: State, plan: Plan)
    ensures Sent(s, plan).received == s.received
  {
  }

  // The one event that takes a block out of those received.
  ghost predicate Releases(e: Event, id: BlockId) {
    e.OtherChange? && id !in e.received
  }

  lemma EventHoldsBack(s: State, e: Event, room: nat, id: BlockId)
    requires room >= 1 && HeldBack(s, id) && IsEvent(s, e) && !Releases(e, id)
    ensures HeldBack(After(s, e, room), id)
  {
    hide PlanAfter, Sent;
    if e.Pass? {
      PassHoldsBack(s, e.order, room, id);
    }
  }

  // Over every run, from the arrival of a block that was asked for until the delegate has taken
  // it out of the received ones, no peer is asked for it, whatever else happens.
  lemma {:induction false} ArrivedIsNotAskedAgain(ss: seq<State>, es: seq<Event>, room: nat, i: nat, j: nat, p: PeerId, id: BlockId)
    requires room >= 1 && |ss| == |es| + 1 && i < j < |ss| && RequestsAreDisjoint(ss[0])
    requires forall k :: 0 <= k < |es| ==> IsEvent(ss[k], es[k]) && ss[k + 1] == After(ss[k], es[k], room)
    requires es[i] == BlockArrived(p, id) && p in ss[i].peers && id in ss[i].peers[p].syncRequested
    requires forall k :: i < k < j ==> !Releases(es[k], id)
    ensures HeldBack(ss[j], id)
    decreases j
  {
    hide After, HeldBack, RequestsAreDisjoint, IsEvent, Releases;
    if j == i + 1 {
      EveryRunKeepsDisjoint(ss, es, room, i);
      ArrivedIsHeld(ss[i], p, id, room);
    } else {
      ArrivedIsNotAskedAgain(ss, es, room, i, j - 1, p, id);
      EventHoldsBack(ss[j - 1], es[j - 1], room, id);
    }
  }

  // ---------- A peer that refused, or sent what nobody asked for ----------

  // Out of the active connections or inhibited, if still connected.
  ghost predicate Silenced(s: State, p: PeerId) {
    p in s.peers ==> !s.peers[p].active || s.peers[p].inhibited
  }

  // The peer refuses a block it was asked for, or sends one it was not.
  ghost predicate Misbehaves(s: State, e: Event, p: PeerId) {
    && p in s.peers
    && match e
       case NotAvailable(q, id) => q == p && id in s.peers[p].syncRequested
       case BlockArrived(q, id) => q == p && id !in s.peers[p].syncRequested
       case _ => false
  }

  lemma MisbehaviourSilences(s: State, e: Event, room: nat, p: PeerId)
    requires Misbehaves(s, e, p)
    ensures Silenced(After(s, e, room), p)
  {
    hide PlanAfter, Sent;
  }

  // Every event but one that changes the peer itself leaves it silenced and asked for no more.
  lemma EventKeepsSilenced(s: State, e: Event, room: nat, p: PeerId)
    requires room >= 1 && Silenced(s, p) && IsEvent(s, e) && !((e.Opened? || e.OtherChange?) && e.peer == p)
    ensures var t := After(s, e, room);
            Silenced(t, p) && (p in t.peers ==> p in s.peers && t.peers[p].syncRequested <= s.peers[p].syncRequested)
  {
    hide PlanAfter, Sent;
    if e.Pass? {
      PassKeepsSilenced(s, e.order, room, p);
    }
  }

  lemma PassKeepsSilenced(s: State, order: seq<PeerId>, room: nat, p: PeerId)
    requires room >= 1 && Silenced(s, p) && IsEvent(s, Pass(order))
    ensures var t := After(s, Pass(order), room);
            t.peers.Keys == s.peers.Keys && (p in s.peers ==> t.peers[p] == s.peers[p])
  {
    hide PlanAfter, BatchesAreApart, BatchesAreComplete, BatchesFit;
    PlanIsGood(s, order, room);
  }

  // Over every run such a peer is asked for no further block until something else changes it.
  lemma {:induction false} MisbehavingPeerIsNotAsked(ss: seq<State>, es: seq<Event>, room: nat, i: nat, j: nat, p: PeerId)
    requires room >= 1 && |ss| == |es| + 1 && i < j < |ss|
    requires forall k :: 0 <= k < |es| ==> IsEvent(ss[k], es[k]) && ss[k + 1] == After(ss[k], es[k], room)
    requires Misbehaves(ss[i], es[i], p)
    requires forall k :: i < k < j ==> !((es[k].Opened? || es[k].OtherChange?) && es[k].peer == p)
    ensures Silenced(ss[j], p)
    ensures p in ss[j].peers ==> p in ss[i + 1].peers && ss[j].peers[p].syncRequested <= ss[i + 1].peers[p].syncRequested
    decreases j
  {
    hide After, Silenced, IsEvent, Misbehaves;
    if j == i + 1 {
      MisbehaviourSilences(ss[i], es[i], room, p);
    } else {
      MisbehavingPeerIsNotAsked(ss, es, room, i, j - 1, p);
      EventKeepsSilenced(ss[j - 1], es[j - 1], room, p);
    }
  }

  // ---------- A block a peer turned out not to have ----------

  // Recorded as on its way, but asked of nobody.
  ghost predicate Stranded(s: State, id: BlockId) {
    id in s.activeRequests && forall p :: p in s.peers ==> id !in s.peers[p].syncRequested
  }

  // A refusal strands the block: it leaves the peer's set but not the record.
  lemma RefusalStrands(s: State, p: PeerId, id: BlockId, room: nat)
    requires RequestsAreDisjoint(s) && p in s.peers && id in s.peers[p].syncRequested
    ensures Stranded(After(s, NotAvailable(p, id), room), id)
  {
  }

  lemma PassAvoidsActive(s: State, order: seq<PeerId>, room: nat, id: BlockId)
    requires room >= 1 && Enumerates(order, s) && Stranded(s, id)
    ensures Stranded(Sent(s, PlanAfter(s, order, room)), id)
  {
    hide PlanAfter;
    PlanIsGood(s, order, room);
  }

  // It stays stranded whatever happens: no peer is ever asked for it again.
  lemma {:induction false} StrandedForGood(ss: seq<State>, es: seq<Event>, room: nat, i: nat, j: nat, id: BlockId)
    requires room >= 1 && |ss| == |es| + 1 && i <= j < |ss| && Stranded(ss[i], id)
    requires forall k :: 0 <= k < |es| ==> IsEvent(ss[k], es[k]) && ss[k + 1] == After(ss[k], es[k], room)
    ensures Stranded(ss[j], id)
    decreases j - i
  {
    hide After, Stranded;
    if i < j {
      StrandedForGood(ss, es, room, i, j - 1, id);
      EventKeepsStranded(ss[j - 1], es[j - 1], room, id);
    }
  }

  lemma EventKeepsStranded(s: State, e: Event, room: nat, id: BlockId)
    requires room >= 1 && IsEvent(s, e) && Stranded(s, id)
    ensures Stranded(After(s, e, room), id)
  {
    hide PlanAfter, Sent;
    if e.Pass? {
      PassAvoidsActive(s, e.order, room, id);
    }
  }

  // The peer was asked for the block and says it does not have it.
  ghost predicate IsRefusal(s: State, e: Event, id: BlockId) {
    e.NotAvailable? && e.id == id && e.from in s.peers && id in s.peers[e.from].syncRequested
  }

  // Every id a plan has chosen is in somebody's batch.
  ghost predicate ChosenAreInBatches(plan: Plan) {
    forall id :: id in plan.chosen ==> exists p :: p in plan.batches && id in plan.batches[p]
  }

  lemma {:induction false} PlanChoosesForSomebody(s: State, order: seq<PeerId>, room: nat)
    requires forall p :: p in order ==> p in s.peers
    requires forall i, j :: 0 <= i < j < |order| ==> order[i] != order[j]
    requires room >= 1
    ensures ChosenAreInBatches(PlanAfter(s, order, room))
  {
    hide Pick, Blocked, GoodPlan;
    if order != [] {
      var n := |order| - 1;
      PlanChoosesForSomebody(s, order[..n], room);
      if s.peers[order[n]].Schedulable() {
        var before := PlanAfter(s, order[..n], room);
        var batch := Pick(s.peers[order[n]].idsToGet, Blocked(s, before.chosen), room);
        PlanComesInOrder(s, order[..n], room);
        assert order[n] !in order[..n];
        OneBatchMore(before, order[n], batch);
      }
    }
  }

  lemma {:induction false} PlanComesInOrder(s: State, order: seq<PeerId>, room: nat)
    requires forall p :: p in order ==> p in s.peers
    ensures forall p :: p in PlanAfter(s, order, room).batches ==> p in order
  {
    hide Pick, Blocked;
    if order != [] {
      PlanComesInOrder(s, order[..|order| - 1], room);
    }
  }

  lemma OneBatchMore(plan: Plan, p: PeerId, batch: seq<BlockId>)
    requires ChosenAreInBatches(plan) && p !in plan.batches
    ensures ChosenAreInBatches(WithBatch(plan, p, batch))
  {
    var more := WithBatch(plan, p, batch);
    forall id | id in more.chosen ensures exists q :: q in more.batches && id in more.batches[q] {
      if id in batch {
        assert p in more.batches && id in more.batches[p];
      } else {
        var q :| q in plan.batches && id in plan.batches[q];
        assert q in more.batches && id in more.batches[q];
      }
    }
  }

  // A pass asks some peer for every block it newly records.
  lemma PassStrandsNothing(s: State, order: seq<PeerId>, room: nat, id: BlockId)
    requires room >= 1 && Enumerates(order, s) && !Stranded(s, id)
    ensures !Stranded(Sent(s, PlanAfter(s, order, room)), id)
  {
    hide PlanAfter, Sent;
    PlanChoosesForSomebody(s, order, room);
    PlanIsGood(s, order, room);
    var plan := PlanAfter(s, order, room);
    SentRequests(s, plan);
    var t := Sent(s, plan);
    if id in plan.chosen {
      var p :| p in plan.batches && id in plan.batches[p];
      assert p in s.peers && id in t.peers[p].syncRequested;
    } else if id in s.activeRequests {
      var p :| p in s.peers && id in s.peers[p].syncRequested;
      assert id in t.peers[p].syncRequested;
    }
  }

  // A block becomes stranded exactly when its peer refuses it: no pass, arrival, disconnection
  // or other change strands one, and none is ever freed again.
  lemma StrandsIff(s: State, e: Event, room: nat, id: BlockId)
    requires room >= 1 && RequestsAreDisjoint(s) && IsEvent(s, e)
    ensures Stranded(After(s, e, room), id) <==> Stranded(s, id) || IsRefusal(s, e, id)
  {
    hide PlanAfter, Sent;
    if Stranded(s, id) {
      EventKeepsStranded(s, e, room, id);
    } else if IsRefusal(s, e, id) {
      RefusalStrands(s, e.from, id, room);
    } else {
      OthersStrandNothing(s, e, room, id);
    }
  }

  lemma OthersStrandNothing(s: State, e: Event, room: nat, id: BlockId)
    requires room >= 1 && RequestsAreDisjoint(s) && IsEvent(s, e)
    requires !Stranded(s, id) && !IsRefusal(s, e, id)
    ensures !Stranded(After(s, e, room), id)
  {
    hide PlanAfter, Sent, RequestsAreDisjoint;
    var t := After(s, e, room);
    if e.Pass? {
      PassStrandsNothing(s, e.order, room, id);
    } else if id in s.activeRequests && id in t.activeRequests {
      var p :| p in s.peers && id in s.peers[p].syncRequested;
      assert p in t.peers && id in t.peers[p].syncRequested;
    } else {
      assert id !in t.activeRequests;
    }
  }

  // Over every run a block is stranded exactly when one of its peers has refused it.
  lemma {:induction false} StrandedExactlyByRefusals(ss: seq<State>, es: seq<Event>, room: nat, i: nat, id: BlockId)
    requires room >= 1 && |ss| == |es| + 1 && i < |ss| && RequestsAreDisjoint(ss[0]) && !Stranded(ss[0], id)
    requires forall k :: 0 <= k < |es| ==> IsEvent(ss[k], es[k]) && ss[k + 1] == After(ss[k], es[k], room)
    ensures Stranded(ss[i], id) <==> exists k :: 0 <= k < i && IsRefusal(ss[k], es[k], id)
    decreases i
  {
    hide After, Stranded, IsRefusal, IsEvent, RequestsAreDisjoint;
    if i > 0 {
      StrandedExactlyByRefusals(ss, es, room, i - 1, id);
      EveryRunKeepsDisjoint(ss, es, room, i - 1);
      StrandsIff(ss[i - 1], es[i - 1], room, id);
    }
  }

  // ---------- The node ----------

  class SyncNode {
    var peers: map<PeerId, Peer>
    var activeSyncRequests: set<BlockId>
    var receivedSyncItems: set<BlockId>

    ghost function View(): State
      reads this
    {
      State(peers, activeSyncRequests, receivedSyncItems)
    }

    constructor ()
      ensures View() == State(map[], {}, {})
    {
      peers, activeSyncRequests, receivedSyncItems := map[], {}, {};
    }

    // One round of fetch_sync_items_loop. The order is that of the set of connections.
    method FetchSyncItems(order: seq<PeerId>, maxPerPeer: nat)
      requires maxPerPeer >= 1 && Enumerates(order, View())
      modifies this`peers, this`activeSyncRequests
      ensures View() == After(old(View()), Pass(order), maxPerPeer)
    {
      ghost var s := View();
      var toSend: map<PeerId, seq<BlockId>> := map[];
      var chosen: set<BlockId> := {};
      var k := 0;
      while k < |order|
        invariant k <= |order| && View() == s
        invariant Plan(toSend, chosen) == PlanAfter(s, order[..k], maxPerPeer)
        invariant forall p :: p in toSend ==> p in order[..k]
      {
        var p := order[k];
        assert order[..k + 1][..k] == order[..k];
        assert p in order;
        NotYetSeen(order, k);
        if peers[p].active && peers[p].needSync && p !in toSend && peers[p].Idle() {
          if !peers[p].inhibited {
            var batch := ScanList(peers[p].idsToGet, chosen, maxPerPeer);
            toSend := toSend[p := batch];
            chosen := chosen + ToSet(batch);
          }
        }
        k := k + 1;
      }
      assert order[..k] == order;
      RequestAll(order, toSend, chosen);
    }

    // The loop over one peer's list.
    method ScanList(ids: seq<BlockId>, chosen: set<BlockId>, maxPerPeer: nat) returns (batch: seq<BlockId>)
      requires maxPerPeer >= 1
      ensures batch == Pick(ids, Blocked(View(), chosen), maxPerPeer)
    {
      hide Pick, Blocked, Remaining;
      batch := [];
      var taken := chosen;
      var i := 0;
      var full := false;
      ghost var start := Blocked(View(), chosen);
      ghost var blocked := start;
      ghost var rest := Remaining(ids, 0, start, maxPerPeer);
      BlockedMeans(View(), chosen);
      RemainingAtStart(ids, start, maxPerPeer);
      while i < |ids| && !full
        invariant i <= |ids| && |batch| <= maxPerPeer && (full <==> |batch| == maxPerPeer)
        invariant forall id :: id in blocked <==> id in receivedSyncItems || id in activeSyncRequests || id in taken
        invariant Pick(ids, start, maxPerPeer) == batch + rest
        invariant rest == Remaining(ids, i, blocked, maxPerPeer - |batch|)
        decreases |ids| - i, !full
      {
        var id := ids[i];
        RemainingNext(ids, i, blocked, maxPerPeer - |batch|);
        if id !in receivedSyncItems && id !in taken && id !in activeSyncRequests {
          rest := Remaining(ids, i + 1, blocked + {id}, maxPerPeer - |batch| - 1);
          Associate(batch, [id], rest);
          batch := batch + [id];
          taken := taken + {id};
          blocked := blocked + {id};
          if |batch| >= maxPerPeer {
            full := true;
          }
        }
        i := i + 1;
      }
      NothingRemains(ids, i, blocked, maxPerPeer - |batch|);
      assert batch + [] == batch;
    }

    // request_sync_items_from_peer for every peer with a batch.
    method RequestAll(order: seq<PeerId>, toSend: map<PeerId, seq<BlockId>>, chosen: set<BlockId>)
      requires Enumerates(order, View()) && forall p :: p in toSend ==> p in peers
      modifies this`peers, this`activeSyncRequests
      ensures View() == Sent(old(View()), Plan(toSend, chosen))
    {
      hide Marked, Sent, Enumerates, ToSet;
      ghost var s := View();
      ghost var start := peers;
      var k := 0;
      MarkNone(start, toSend);
      assert order[..0] == [];
      while k < |order|
        invariant k <= |order| && peers == Marked(start, toSend, order[..k])
        invariant activeSyncRequests == old(activeSyncRequests)
      {
        var p := order[k];
        MarkOneMore(s, toSend, order, k);
        if p in toSend {
          peers := peers[p := peers[p].(syncRequested := peers[p].syncRequested + ToSet(toSend[p]))];
        }
        k := k + 1;
      }
      assert order[..k] == order;
      MarkAll(s, toSend, chosen, order);
      activeSyncRequests := activeSyncRequests + chosen;
    }

    // process_block_message, the sync part: a block that was asked for is taken in; one that
    // was not costs the peer its connection.
    method ProcessBlock(from: PeerId, id: BlockId)
      requires from in peers
      modifies this
      ensures View() == After(old(View()), BlockArrived(from, id), 1)
      ensures RequestsAreDisjoint(old(View())) ==>
                RequestsAreDisjoint(View()) && (id in old(peers)[from].syncRequested ==> HeldBack(View(), id))
    {
      hide RequestsAreDisjoint, HeldBack;
      DisjointnessStays(View(), BlockArrived(from, id));
      if id in peers[from].syncRequested && RequestsAreDisjoint(View()) {
        ArrivedIsHeld(View(), from, id, 1);
      }
      if id in peers[from].syncRequested {
        peers := peers[from := peers[from].(syncRequested := peers[from].syncRequested - {id})];
        activeSyncRequests := activeSyncRequests - {id};
        receivedSyncItems := receivedSyncItems + {id};
      } else {
        peers := peers[from := peers[from].(active := false)];
      }
    }

    // on_item_not_available_message, the sync part.
    method OnItemNotAvailable(from: PeerId, id: BlockId)
      requires from in peers
      modifies this`peers
      ensures View() == After(old(View()), NotAvailable(from, id), 1)
      ensures RequestsAreDisjoint(old(View())) ==> RequestsAreDisjoint(View())
    {
      hide RequestsAreDisjoint;
      DisjointnessStays(View(), NotAvailable(from, id));
      if id in peers[from].syncRequested {
        peers := peers[from := peers[from].(syncRequested := peers[from].syncRequested - {id})];
        if peers[from].needsItemsFromUs {
          peers := peers[from := peers[from].(inhibited := true)];
        } else {
          peers := peers[from := peers[from].(active := false)];
        }
      }
    }

    // on_connection_closed.
    method OnConnectionClosed(peer: PeerId)
      requires peer in peers
      modifies this`peers, this`activeSyncRequests
      ensures View() == After(old(View()), Closed(peer), 1)
      ensures RequestsAreDisjoint(old(View())) ==> RequestsAreDisjoint(View())
    {
      hide RequestsAreDisjoint;
      DisjointnessStays(View(), Closed(peer));
      if peers[peer].syncRequested != {} {
        activeSyncRequests := activeSyncRequests - peers[peer].syncRequested;
      }
      peers := peers - {peer};
    }
  }

  // What the loop over a list has still to pick.
  function Remaining(ids: seq<BlockId>, i: nat, blocked: set<BlockId>, room: nat): seq<BlockId>
    requires i <= |ids|
  {
    if room == 0 then [] else Pick(ids[i..], blocked, room)
  }

  lemma RemainingAtStart(ids: seq<BlockId>, blocked: set<BlockId>, room: nat)
    requires room >= 1
    ensures Pick(ids, blocked, room) == [] + Remaining(ids, 0, blocked, room)
  {
    assert ids[0..] == ids;
  }

  lemma RemainingNext(ids: seq<BlockId>, i: nat, blocked: set<BlockId>, room: nat)
    requires i < |ids| && room >= 1
    ensures Remaining(ids, i, blocked, room) ==
            if ids[i] in blocked then Remaining(ids, i + 1, blocked, room)
            else [ids[i]] + Remaining(ids, i + 1, blocked + {ids[i]}, room - 1)
  {
    assert ids[i..][0] == ids[i] && ids[i..][1..] == ids[i + 1..];
  }

  lemma NothingRemains(ids: seq<BlockId>, i: nat, blocked: set<BlockId>, room: nat)
    requires i <= |ids| && (i == |ids| || room == 0)
    ensures Remaining(ids, i, blocked, room) == []
  {
  }

  lemma BlockedMeans(s: State, chosen: set<BlockId>)
    ensures forall id :: id in Blocked(s, chosen) <==> id in s.received || id in s.activeRequests || id in chosen
  {
  }

  // The peers once the requests to some of them are recorded.
  function Marked(peers: map<PeerId, Peer>, toSend: map<PeerId, seq<BlockId>>, done: seq<PeerId>): map<PeerId, Peer> {
    map p | p in peers :: if p in toSend && p in done then WithRequests(peers[p], toSend[p]) else peers[p]
  }

  function WithRequests(peer: Peer, ids: seq<BlockId>): Peer {
    peer.(syncRequested := peer.syncRequested + ToSet(ids))
  }

  lemma MarkNone(peers: map<PeerId, Peer>, toSend: map<PeerId, seq<BlockId>>)
    ensures Marked(peers, toSend, []) == peers
  {
  }

  lemma MarkOneMore(s: State, toSend: map<PeerId, seq<BlockId>>, order: seq<PeerId>, k: nat)
    requires k < |order| && Enumerates(order, s)
    requires forall p :: p in toSend ==> p in s.peers
    ensures var before := Marked(s.peers, toSend, order[..k]);
            && (order[k] in toSend ==> order[k] in before)
            && Marked(s.peers, toSend, order[..k + 1]) ==
               if order[k] in toSend then before[order[k] := WithRequests(before[order[k]], toSend[order[k]])] else before
  {
    hide WithRequests;
    NotYetSeen(order, k);
  }

  lemma MarkAll(s: State, toSend: map<PeerId, seq<BlockId>>, chosen: set<BlockId>, order: seq<PeerId>)
    requires Enumerates(order, s)
    ensures Sent(s, Plan(toSend, chosen)) == State(Marked(s.peers, toSend, order), s.activeRequests + chosen, s.received)
  {
    hide WithRequests;
    assert Sent(s, Plan(toSend, chosen)).peers == Marked(s.peers, toSend, order);
  }
}
