/** Handing received sync blocks to the delegate: process_backlog_of_sync_blocks and what
    happens to the lists and the received blocks between two of its passes. */
module Backlog {
  import opened Chain
  import opened Sequences

  type PeerId = nat

  // One copy of a block as it came in; a block may come in several times.
  datatype Copy = Copy(id: BlockId, serial: nat)

  // The ids a peer has for us in its order, those of them now being processed, and how many
  // more it said it has.
  datatype Peer = Peer(toGet: seq<BlockId>, processing: set<BlockId>, unfetched: nat) {
    // Something is listed, being worked on, or still to be named.
    predicate HasWork() {
      toGet != [] || processing != {} || unfetched > 0
    }

    predicate StartsWith(id: BlockId) {
      toGet != [] && toGet[0] == id
    }

    // The block arrived: off the front of the list and into processing.
    function Popped(id: BlockId): Peer {
      if StartsWith(id) then Peer(toGet[1..], processing + {id}, unfetched) else this
    }

    function Finished(id: BlockId): Peer {
      Peer(toGet, processing - {id}, unfetched)
    }

    // Nothing left to do for this peer once the block is finished: time to ask it for more.
    predicate RunsOutWith(id: BlockId) {
      id in processing && toGet == [] && unfetched == 0 && processing - {id} == {}
    }
  }

  // handled and handed are history: the ids taken off the lists and the copies given to the
  // delegate, in order.
  datatype State = State(
    peers: map<PeerId, Peer>,
    received: seq<Copy>,
    newReceived: seq<Copy>,
    inProgress: nat,
    suspended: bool,
    accepted: set<BlockId>,
    asked: set<PeerId>,
    handled: seq<BlockId>,
    handed: seq<Copy>)

  // _maximum_number_of_blocks_to_handle_at_one_time, _maximum_number_of_sync_blocks_to_prefetch
  datatype Limits = Limits(atOnce: nat, prefetch: nat)

  ghost predicate IsFront(peers: map<PeerId, Peer>, id: BlockId) {
    exists p :: p in peers && peers[p].StartsWith(id)
  }

  ghost function FirstReady(copies: seq<Copy>, peers: map<PeerId, Peer>): (i: nat)
    ensures i <= |copies|
    ensures i < |copies| ==> IsFront(peers, copies[i].id)
    ensures forall k :: 0 <= k < i ==> !IsFront(peers, copies[k].id)
  {
    if copies == [] || IsFront(peers, copies[0].id) then 0
    else 1 + FirstReady(copies[1..], peers)
  }

  function PopAll(peers: map<PeerId, Peer>, id: BlockId): map<PeerId, Peer> {
    map p | p in peers :: peers[p].Popped(id)
  }

  function FinishAll(peers: map<PeerId, Peer>, id: BlockId): map<PeerId, Peer> {
    map p | p in peers :: peers[p].Finished(id)
  }

  function RunningOut(peers: map<PeerId, Peer>, id: BlockId): set<PeerId> {
    set p | p in peers && peers[p].RunsOutWith(id)
  }

  function Waiting(s: State): (r: seq<Copy>)
    ensures |r| == |s.newReceived| + |s.received|
  {
    Reversed(s.newReceived) + s.received
  }

  // The copy at index i of those waiting is taken: given to the delegate, or, when its block was
  // accepted meanwhile, only crossed off.
  function Take(s: State, i: nat): State
    requires i < |Waiting(s)|
  {
    var waiting := Waiting(s);
    var c := waiting[i];
    var popped := PopAll(s.peers, c.id);
    if c.id in s.accepted then
      State(FinishAll(popped, c.id), waiting, [], s.inProgress, s.suspended, s.accepted,
            s.asked + RunningOut(popped, c.id), s.handled + [c.id], s.handed)
    else
      State(popped, waiting[..i] + waiting[i + 1..], [], s.inProgress + 1, s.suspended, s.accepted,
            s.asked, s.handled + [c.id], s.handed + [c])
  }

  // One turn of the do-loop.
  ghost function Round(s: State): State {
    var i := FirstReady(Waiting(s), s.peers);
    if i == |Waiting(s)| then s.(received := Waiting(s), newReceived := []) else Take(s, i)
  }

  // Another turn follows exactly when this one gave a block to the delegate.
  ghost predicate Progresses(s: State) {
    var i := FirstReady(Waiting(s), s.peers);
    i < |Waiting(s)| && Waiting(s)[i].id !in s.accepted
  }

  ghost function Drain(s: State, limits: Limits): State
    decreases |Waiting(s)|
  {
    var t := Round(s);
    if t.inProgress >= limits.atOnce then
      if |t.received| >= limits.prefetch then t.(suspended := true) else t
    else if Progresses(s) then Drain(t, limits)
    else t
  }

  // A whole pass; finished is the number of calls to the delegate found to have ended.
  ghost function Pass(s: State, finished: nat, limits: Limits): State
    requires finished <= s.inProgress
  {
    var u := s.(inProgress := s.inProgress - finished, asked := {});
    if u.inProgress >= limits.atOnce then u else Drain(u.(suspended := false), limits)
  }

  // ---------- Nothing is lost and nothing is handed over twice ----------

  function Held(s: State): multiset<Copy> {
    multiset(s.received) + multiset(s.newReceived) + multiset(s.handed)
  }

  lemma {:induction false} ReversedHolds(copies: seq<Copy>)
    ensures multiset(Reversed(copies)) == multiset(copies)
  {
    if copies != [] {
      ReversedHolds(copies[1..]);
      assert copies == [copies[0]] + copies[1..];
    }
  }

  lemma WaitingHolds(s: State)
    ensures multiset(Waiting(s)) == multiset(s.newReceived) + multiset(s.received)
  {
    hide Reversed;
    ReversedHolds(s.newReceived);
  }

  lemma MovedHolds(from: seq<Copy>, to: seq<Copy>, i: nat)
    requires i < |from|
    ensures multiset(from[..i] + from[i + 1..]) + multiset(to + [from[i]]) == multiset(from) + multiset(to)
  {
    assert from == from[..i] + [from[i]] + from[i + 1..];
  }

  lemma HeldWithoutNew(s: State)
    requires s.newReceived == []
    ensures Held(s) == multiset(s.received) + multiset(s.handed)
  {
  }

  lemma TakeConserves(s: State, i: nat)
    requires i < |Waiting(s)|
    ensures var t := Take(s, i);
            t.newReceived == [] && multiset(t.received) + multiset(t.handed) == multiset(Waiting(s)) + multiset(s.handed)
  {
    hide Waiting, PopAll, FinishAll, RunningOut;
    if Waiting(s)[i].id !in s.accepted {
      MovedHolds(Waiting(s), s.handed, i);
    }
  }

  lemma RoundConserves(s: State)
    ensures Held(Round(s)) == Held(s)
  {
    hide FirstReady, Waiting, Take, Held;
    WaitingHolds(s);
    HeldWithNew(s);
    HeldWithoutNew(Round(s)) by {
      RoundLeavesNoNew(s);
    }
    var i := FirstReady(Waiting(s), s.peers);
    if i < |Waiting(s)| {
      TakeConserves(s, i);
    }
  }

  lemma RoundLeavesNoNew(s: State)
    ensures Round(s).newReceived == []
  {
    hide FirstReady, Waiting;
  }

  lemma HeldWithNew(s: State)
    ensures Held(s) == multiset(s.newReceived) + multiset(s.received) + multiset(s.handed)
  {
  }

  lemma {:induction false} DrainConserves(s: State, limits: Limits)
    ensures Held(Drain(s, limits)) == Held(s)
    decreases |Waiting(s)|
  {
    hide Held, FirstReady, Reversed;
    RoundConserves(s);
    var t := Round(s);
    if t.inProgress >= limits.atOnce {
      HeldIgnoresSuspension(t);
    } else if Progresses(s) {
      DrainConserves(t, limits);
    }
  }

  lemma HeldIgnoresSuspension(s: State)
    ensures Held(s.(suspended := true)) == Held(s)
  {
  }

  // ---------- How a pass ends ----------

  ghost predicate NothingReady(s: State) {
    forall c :: c in s.received ==> !IsFront(s.peers, c.id)
  }

  ghost predicate StoppedAtAccepted(s: State) {
    s.handled != [] && s.handled[|s.handled| - 1] in s.accepted
  }

  // The delegate is never given more blocks than it may work on at once. A pass that stays
  // below that leaves no received block next in line, unless the last block it crossed off
  // had already been accepted. It stops fetching exactly when both limits are reached.
  lemma {:induction false} DrainEnds(s: State, limits: Limits)
    requires s.inProgress < limits.atOnce && !s.suspended
    ensures var t := Drain(s, limits);
            && t.newReceived == [] && t.accepted == s.accepted
            && s.inProgress <= t.inProgress <= limits.atOnce
            && |t.handed| - |s.handed| == t.inProgress - s.inProgress == |Waiting(s)| - |t.received|
            && (t.suspended <==> t.inProgress == limits.atOnce && |t.received| >= limits.prefetch)
            && (t.inProgress < limits.atOnce ==> NothingReady(t) || StoppedAtAccepted(t))
    decreases |Waiting(s)|
  {
    hide FirstReady, Reversed;
    var t := Round(s);
    if t.inProgress < limits.atOnce {
      if Progresses(s) {
        DrainEnds(t, limits);
      } else if FirstReady(Waiting(s), s.peers) == |Waiting(s)| {
        assert t.received == Waiting(s) && t.peers == s.peers;
      }
    }
  }

  // The same of a whole pass, however fetching stood before it: it goes on again unless both
  // limits are reached. With no call free nothing happens.
  lemma PassEnds(s: State, finished: nat, limits: Limits)
    requires finished <= s.inProgress
    ensures var t, busy := Pass(s, finished, limits), s.inProgress - finished;
            if busy >= limits.atOnce then t == s.(inProgress := busy, asked := {})
            else
              && t.newReceived == [] && t.accepted == s.accepted
              && busy <= t.inProgress <= limits.atOnce
              && |t.handed| - |s.handed| == t.inProgress - busy == |Waiting(s)| - |t.received|
              && (t.suspended <==> t.inProgress == limits.atOnce && |t.received| >= limits.prefetch)
              && (t.inProgress < limits.atOnce ==> NothingReady(t) || StoppedAtAccepted(t))
  {
    hide Drain, NothingReady, StoppedAtAccepted, Waiting;
    var u := s.(inProgress := s.inProgress - finished, asked := {}, suspended := false);
    SameCopiesWait(s, u);
    if u.inProgress < limits.atOnce {
      DrainEnds(u, limits);
    }
  }

  // No waiting copy of a block accepted before is on any peer's list.
  ghost predicate AcceptedAreUnlisted(s: State) {
    forall c, p :: c in Waiting(s) && c.id in s.accepted && p in s.peers ==> c.id !in s.peers[p].toGet
  }

  lemma PopOnlyShortens(peers: map<PeerId, Peer>, id: BlockId)
    ensures PopAll(peers, id).Keys == peers.Keys
    ensures forall p, b :: p in peers && b in PopAll(peers, id)[p].toGet ==> b in peers[p].toGet
  {
    forall p, b | p in peers && b in PopAll(peers, id)[p].toGet ensures b in peers[p].toGet {
      assert PopAll(peers, id)[p] == peers[p].Popped(id);
    }
  }

  lemma WaitingAfterProgress(s: State)
    requires Progresses(s)
    ensures forall c :: c in Waiting(Round(s)) ==> c in Waiting(s)
    ensures Round(s).accepted == s.accepted
    ensures Round(s).peers == PopAll(s.peers, Waiting(s)[FirstReady(Waiting(s), s.peers)].id)
  {
    hide FirstReady, PopAll;
    assert Reversed<Copy>([]) == [];
  }

  lemma ProgressKeepsUnlisted(s: State)
    requires Progresses(s) && AcceptedAreUnlisted(s)
    ensures AcceptedAreUnlisted(Round(s))
  {
    hide FirstReady, PopAll, Waiting, Round;
    WaitingAfterProgress(s);
    PopOnlyShortens(s.peers, Waiting(s)[FirstReady(Waiting(s), s.peers)].id);
  }

  lemma ReadyBlockProgresses(s: State)
    requires AcceptedAreUnlisted(s) && FirstReady(Waiting(s), s.peers) < |Waiting(s)|
    ensures Progresses(s)
  {
    hide FirstReady, Waiting;
    var c := Waiting(s)[FirstReady(Waiting(s), s.peers)];
    var p :| p in s.peers && s.peers[p].StartsWith(c.id);
    assert c.id in s.peers[p].toGet;
  }

  lemma NoProgressNothingReady(s: State)
    requires !Progresses(s) && AcceptedAreUnlisted(s)
    ensures NothingReady(Round(s))
  {
    hide FirstReady, Waiting, AcceptedAreUnlisted, Progresses, Take;
    if FirstReady(Waiting(s), s.peers) < |Waiting(s)| {
      ReadyBlockProgresses(s);
    } else {
      NothingFound(Waiting(s), s.peers);
    }
  }

  lemma NothingFound(copies: seq<Copy>, peers: map<PeerId, Peer>)
    requires FirstReady(copies, peers) == |copies|
    ensures forall c :: c in copies ==> !IsFront(peers, c.id)
  {
    hide IsFront;
  }

  lemma {:induction false} DrainIsExhaustive(s: State, limits: Limits)
    requires AcceptedAreUnlisted(s)
    ensures var t := Drain(s, limits);
            t.inProgress < limits.atOnce ==> NothingReady(t)
    decreases |Waiting(s)|
  {
    hide Round, Progresses, AcceptedAreUnlisted, NothingReady, Waiting;
    if Round(s).inProgress < limits.atOnce {
      if Progresses(s) {
        ProgressShrinks(s);
        ProgressKeepsUnlisted(s);
        DrainIsExhaustive(Round(s), limits);
      } else {
        NoProgressNothingReady(s);
      }
    }
  }

  // A pass that stays below the limit leaves no received block next in line, provided no
  // waiting block that was accepted before is on a list.
  lemma PassIsExhaustive(s: State, finished: nat, limits: Limits)
    requires finished <= s.inProgress && AcceptedAreUnlisted(s)
    ensures var t := Pass(s, finished, limits);
            t.inProgress < limits.atOnce ==> NothingReady(t)
  {
    hide Drain, NothingReady, Waiting;
    var u := s.(inProgress := s.inProgress - finished, asked := {}, suspended := false);
    SameCopiesWait(s, u);
    DrainIsExhaustive(u, limits);
  }

  lemma SameCopiesWait(s: State, t: State)
    requires s.received == t.received && s.newReceived == t.newReceived
    ensures Waiting(s) == Waiting(t)
  {
  }

  // ---------- Exactly which passes leave a block behind ----------

  // The state after n turns.
  ghost function Turns(s: State, n: nat): State
    decreases n
  {
    if n == 0 then s else Turns(Round(s), n - 1)
  }

  // The first n turns each give a block to the delegate.
  ghost predicate AllProgress(s: State, n: nat) {
    forall i :: 0 <= i < n ==> Progresses(Turns(s, i))
  }

  // The first block in line had been accepted before, and once it is crossed off another
  // received block is next in line.
  ghost predicate StopsShort(s: State) {
    var waiting := Waiting(s);
    var i := FirstReady(waiting, s.peers);
    && i < |waiting| && waiting[i].id in s.accepted
    && exists c :: c in waiting && IsFront(PopAll(s.peers, waiting[i].id), c.id)
  }

  // Some number of turns into the pass an accepted block comes up with another ready behind it.
  ghost predicate ComesToAccepted(s: State) {
    exists n: nat :: AllProgress(s, n) && StopsShort(Turns(s, n))
  }

  lemma FinishedKeepsFronts(peers: map<PeerId, Peer>, id: BlockId, front: BlockId)
    ensures IsFront(FinishAll(peers, id), front) <==> IsFront(peers, front)
  {
    if IsFront(peers, front) {
      var p :| p in peers && peers[p].StartsWith(front);
      assert FinishAll(peers, id)[p].StartsWith(front);
    }
    if IsFront(FinishAll(peers, id), front) {
      var p :| p in peers && FinishAll(peers, id)[p].StartsWith(front);
      assert peers[p].StartsWith(front);
    }
  }

  // A turn that gives nothing to the delegate leaves a ready block exactly when it stops short.
  lemma LastTurnIff(s: State)
    requires !Progresses(s)
    ensures !NothingReady(Round(s)) <==> StopsShort(s)
  {
    hide FirstReady, Reversed, IsFront, PopAll, FinishAll, RunningOut;
    var waiting := Waiting(s);
    var i := FirstReady(waiting, s.peers);
    if i < |waiting| {
      var id := waiting[i].id;
      forall c | c in waiting ensures IsFront(FinishAll(PopAll(s.peers, id), id), c.id) <==> IsFront(PopAll(s.peers, id), c.id) {
        FinishedKeepsFronts(PopAll(s.peers, id), id, c.id);
      }
    } else {
      forall c | c in waiting ensures !IsFront(s.peers, c.id) {
        var k :| 0 <= k < |waiting| && waiting[k] == c;
      }
    }
  }

  lemma StopsShortEndsPass(s: State)
    requires StopsShort(s)
    ensures !Progresses(s)
  {
  }

  lemma ComesLater(s: State)
    requires Progresses(s)
    ensures ComesToAccepted(s) <==> ComesToAccepted(Round(s))
  {
    hide Round, Progresses, StopsShort, AllProgress;
    if ComesToAccepted(Round(s)) {
      var n: nat :| AllProgress(Round(s), n) && StopsShort(Turns(Round(s), n));
      MoreProgress(s, n);
      assert Turns(s, n + 1) == Turns(Round(s), n);
      assert AllProgress(s, n + 1) && StopsShort(Turns(s, n + 1));
    }
    if ComesToAccepted(s) {
      var n: nat :| AllProgress(s, n) && StopsShort(Turns(s, n));
      if n == 0 {
        StopsShortEndsPass(s);
        assert false;
      } else {
        MoreProgress(s, n - 1);
        assert Turns(s, n) == Turns(Round(s), n - 1);
        assert AllProgress(Round(s), n - 1) && StopsShort(Turns(Round(s), n - 1));
      }
    }
  }

  lemma MoreProgress(s: State, n: nat)
    requires Progresses(s)
    ensures AllProgress(s, n + 1) <==> AllProgress(Round(s), n)
  {
    hide Round, Progresses;
    forall i | 0 <= i < n ensures Turns(Round(s), i) == Turns(s, i + 1) {
    }
    if AllProgress(Round(s), n) {
      forall i | 0 <= i < n + 1 ensures Progresses(Turns(s, i)) {
        assert i > 0 ==> Turns(s, i) == Turns(Round(s), i - 1);
      }
    }
  }

  // A pass that stays below the limit leaves a received block next in line exactly when, on
  // its way from this state, it comes to an accepted block with another one ready behind it.
  lemma {:induction false} LeavesReadyIff(s: State, limits: Limits)
    ensures var t := Drain(s, limits);
            t.inProgress < limits.atOnce ==> (!NothingReady(t) <==> ComesToAccepted(s))
    decreases |Waiting(s)|
  {
    hide Round, Progresses, StopsShort, ComesToAccepted, NothingReady, Waiting;
    if Round(s).inProgress < limits.atOnce {
      if Progresses(s) {
        ProgressShrinks(s);
        LeavesReadyIff(Round(s), limits);
        ComesLater(s);
      } else {
        LastTurnIff(s);
        ComesAtOnce(s);
      }
    }
  }

  lemma ComesAtOnce(s: State)
    requires !Progresses(s)
    ensures ComesToAccepted(s) <==> StopsShort(s)
  {
    hide Round, Progresses, StopsShort;
    if StopsShort(s) {
      assert AllProgress(s, 0) && StopsShort(Turns(s, 0));
    }
    if ComesToAccepted(s) {
      var n: nat :| AllProgress(s, n) && StopsShort(Turns(s, n));
      assert n > 0 ==> Progresses(Turns(s, 0));
    }
  }

  // The same lists, waiting copies and accepted blocks.
  ghost predicate SameLine(s: State, t: State) {
    s.peers == t.peers && s.received == t.received && s.newReceived == t.newReceived && s.accepted == t.accepted
  }

  lemma {:induction false} SameLineStays(s: State, t: State, n: nat)
    requires SameLine(s, t)
    ensures SameLine(Turns(s, n), Turns(t, n))
    decreases n
  {
    hide FirstReady, Reversed, PopAll, FinishAll, RunningOut;
    if n > 0 {
      SameLineStays(Round(s), Round(t), n - 1);
    }
  }

  lemma SameLineComesTo(s: State, t: State)
    requires SameLine(s, t)
    ensures ComesToAccepted(s) ==> ComesToAccepted(t)
  {
    hide Round, Turns, FirstReady, Reversed;
    if ComesToAccepted(s) {
      var n: nat :| AllProgress(s, n) && StopsShort(Turns(s, n));
      forall i | 0 <= i < n ensures Progresses(Turns(t, i)) {
        assert Progresses(Turns(s, i));
        SameLineStays(s, t, i);
      }
      SameLineStays(s, t, n);
      assert AllProgress(t, n) && StopsShort(Turns(t, n));
    }
  }

  // The same of a whole pass, read off the state before it.
  lemma PassLeavesReadyIff(s: State, finished: nat, limits: Limits)
    requires finished <= s.inProgress
    ensures var t := Pass(s, finished, limits);
            t.inProgress < limits.atOnce ==> (!NothingReady(t) <==> ComesToAccepted(s))
  {
    hide Drain, NothingReady, ComesToAccepted;
    var u := s.(inProgress := s.inProgress - finished, asked := {}, suspended := false);
    LeavesReadyIff(u, limits);
    SameLineComesTo(s, u);
    SameLineComesTo(u, s);
  }

  // It does stop early otherwise: the second block stays although it is next in line, nothing
  // is in progress, and no limit is reached.
  lemma AcceptedBlockStopsPass(p: PeerId, limits: Limits)
    requires limits.atOnce >= 1
    ensures var a := BlockId(Zero, 0);
            var b := BlockId(a, 0);
            var s := State(map[p := Peer([a, b], {}, 0)], [Copy(a, 0), Copy(b, 1)], [], 0, false, {a}, {}, [], []);
            var t := Pass(s, 0, limits);
            && t.inProgress == 0 && t.handed == []
            && Copy(b, 1) in t.received && t.peers[p].StartsWith(b)
  {
    var a := BlockId(Zero, 0);
    var b := BlockId(a, 0);
    var peer := Peer([a, b], {}, 0);
    var s := State(map[p := peer], [Copy(a, 0), Copy(b, 1)], [], 0, false, {a}, {}, [], []);
    assert s.peers[p].StartsWith(a);
    assert Reversed<Copy>([]) == [] && Waiting(s) == s.received;
    assert FirstReady(s.received, s.peers) == 0;
    var t := Round(s);
    assert t.received == s.received && t.inProgress == 0;
    assert Copy(b, 1) == t.received[1];
    assert PopAll(s.peers, a)[p] == Peer([b], {a}, 0) by {
      assert peer.toGet[1..] == [b];
    }
    assert t.peers[p] == Peer([b], {a}, 0).Finished(a);
    assert Drain(s, limits) == t;
  }

  // ---------- Lists are consumed front first ----------

  // A list after the blocks of h, in turn, were taken off it wherever they came first.
  function Consume(list: seq<BlockId>, h: seq<BlockId>): seq<BlockId> {
    if h == [] then list
    else if list != [] && list[0] == h[0] then Consume(list[1..], h[1..])
    else Consume(list, h[1..])
  }

  ghost predicate Subsequence(a: seq<BlockId>, b: seq<BlockId>)
  {
    if a == [] then true
    else if b == [] then false
    else (a[0] == b[0] && Subsequence(a[1..], b[1..])) || Subsequence(a, b[1..])
  }

  lemma {:induction false} ConsumeConcat(list: seq<BlockId>, g: seq<BlockId>, h: seq<BlockId>)
    ensures Consume(list, g + h) == Consume(Consume(list, g), h)
    decreases |g|
  {
    if g == [] {
      assert g + h == h;
    } else {
      assert (g + h)[1..] == g[1..] + h;
      ConsumeConcat(if list != [] && list[0] == g[0] then list[1..] else list, g[1..], h);
    }
  }

  // What is taken off a list is its beginning, in the order in which the blocks were handled.
  lemma {:induction false} ConsumeTakesPrefix(list: seq<BlockId>, h: seq<BlockId>) returns (taken: seq<BlockId>)
    ensures list == taken + Consume(list, h)
    ensures Subsequence(taken, h)
    decreases |h|
  {
    if h == [] {
      taken := [];
    } else if list != [] && list[0] == h[0] {
      var rest := ConsumeTakesPrefix(list[1..], h[1..]);
      taken := [list[0]] + rest;
      assert taken[1..] == rest;
      assert list == [list[0]] + list[1..];
    } else {
      taken := ConsumeTakesPrefix(list, h[1..]);
    }
  }

  lemma {:induction false} SubsequenceConcat(a: seq<BlockId>, b: seq<BlockId>, c: seq<BlockId>, d: seq<BlockId>)
    requires Subsequence(a, b) && Subsequence(c, d)
    ensures Subsequence(a + c, b + d)
    decreases |b|
  {
    if b == [] {
      assert a + c == c && b + d == d;
    } else {
      assert (b + d)[1..] == b[1..] + d && (b + d)[0] == b[0];
      if a == [] {
        SubsequenceConcat(a, b[1..], c, d);
        assert a + c == c;
        if c != [] {
          assert Subsequence(c, (b + d)[1..]);
        }
      } else if a[0] == b[0] && Subsequence(a[1..], b[1..]) {
        SubsequenceConcat(a[1..], b[1..], c, d);
        assert (a + c)[1..] == a[1..] + c;
      } else {
        SubsequenceConcat(a, b[1..], c, d);
        assert (a + c) != [];
      }
    }
  }

  // The blocks a pass handles, and every list as those blocks leave it.
  lemma {:induction false} DrainConsumes(s: State, limits: Limits) returns (h: seq<BlockId>)
    ensures var t := Drain(s, limits);
            && t.handled == s.handled + h
            && t.peers.Keys == s.peers.Keys
            && forall p :: p in s.peers ==> t.peers[p].toGet == Consume(s.peers[p].toGet, h)
    decreases |Waiting(s)|
  {
    hide FirstReady, Reversed, Consume, Waiting, Take;
    var t := Round(s);
    h := RoundConsumes(s);
    if t.inProgress < limits.atOnce && Progresses(s) {
      ProgressShrinks(s);
      var rest := DrainConsumes(t, limits);
      forall p | p in s.peers ensures Drain(s, limits).peers[p].toGet == Consume(s.peers[p].toGet, h + rest) {
        ConsumeConcat(s.peers[p].toGet, h, rest);
      }
      assert s.handled + (h + rest) == (s.handled + h) + rest;
      h := h + rest;
    }
  }

  lemma ProgressShrinks(s: State)
    requires Progresses(s)
    ensures |Waiting(Round(s))| < |Waiting(s)|
  {
    hide FirstReady, Reversed;
  }

  lemma RoundConsumes(s: State) returns (h: seq<BlockId>)
    ensures var t := Round(s);
            && t.handled == s.handled + h
            && t.peers.Keys == s.peers.Keys
            && forall p :: p in s.peers ==> t.peers[p].toGet == Consume(s.peers[p].toGet, h)
  {
    hide FirstReady, Reversed, Waiting;
    var i := FirstReady(Waiting(s), s.peers);
    if i == |Waiting(s)| {
      h := [];
      assert s.handled + h == s.handled;
    } else {
      h := [Waiting(s)[i].id];
      assert h[1..] == [];
    }
  }

  // ---------- What the delegate is given ----------

  function Ids(copies: seq<Copy>): (ids: seq<BlockId>)
    ensures |ids| == |copies|
  {
    seq(|copies|, i requires 0 <= i < |copies| => copies[i].id)
  }

  lemma IdsConcat(a: seq<Copy>, b: seq<Copy>)
    ensures Ids(a + b) == Ids(a) + Ids(b)
  {
  }

  lemma OneId()
    ensures Ids([]) == [] && forall c :: Ids([c]) == [c.id]
  {
  }

  // A pass gives the delegate every block it handles, in that order, and leaves out only a last
  // one that was accepted before.
  lemma {:induction false} DrainHands(s: State, limits: Limits) returns (g: seq<Copy>, e: seq<BlockId>)
    ensures var t := Drain(s, limits);
            && t.handed == s.handed + g
            && t.handled == s.handled + Ids(g) + e
            && (forall c :: c in g ==> c.id !in s.accepted)
            && |e| <= 1 && (forall id :: id in e ==> id in s.accepted)
    decreases |Waiting(s)|
  {
    hide FirstReady, Reversed, Waiting, PopAll, FinishAll, RunningOut, Ids;
    var t := Round(s);
    OneId();
    if Progresses(s) {
      var c := Waiting(s)[FirstReady(Waiting(s), s.peers)];
      if t.inProgress >= limits.atOnce {
        g, e := [c], [];
      } else {
        ProgressShrinks(s);
        var rest, last := DrainHands(t, limits);
        g, e := [c] + rest, last;
        IdsConcat([c], rest);
        Associate(s.handed, [c], rest);
        Associate(s.handled, [c.id], Ids(rest));
      }
    } else {
      g := [];
      e := if t.handled == s.handled then [] else [t.handled[|s.handled|]];
    }
  }

  // ---------- Whole runs ----------

  datatype Event =
    | Arrived(copy: Copy)
    | PassRun(finished: nat)
    | Verdict(id: BlockId, ok: bool)
    | Forgotten(id: BlockId)
    | Listed(peer: PeerId, ids: seq<BlockId>, remaining: nat)
    | Trimmed(peer: PeerId, keep: nat)
    | Restarted(peer: PeerId)
    | Opened(peer: PeerId)
    | Closed(peer: PeerId)

  ghost predicate IsEvent(s: State, e: Event) {
    match e
    case PassRun(finished) => finished <= s.inProgress
    case Listed(p, _, _) => p in s.peers
    case Trimmed(p, keep) => p in s.peers && keep <= |s.peers[p].toGet|
    case Restarted(p) => p in s.peers
    case Opened(p) => p !in s.peers
    case _ => true
  }

  function WithList(s: State, p: PeerId, list: seq<BlockId>, unfetched: nat): State
    requires p in s.peers
  {
    s.(peers := s.peers[p := s.peers[p].(toGet := list, unfetched := unfetched)])
  }

  ghost function After(s: State, e: Event, limits: Limits): State
    requires IsEvent(s, e)
  {
    match e
    case Arrived(c) => s.(newReceived := [c] + s.newReceived)
    case PassRun(finished) => Pass(s, finished, limits)
    case Verdict(id, ok) =>
      if ok then s.(accepted := s.accepted + {id}, peers := FinishAll(s.peers, id), asked := s.asked + RunningOut(s.peers, id)) else s
    case Forgotten(id) => s.(accepted := s.accepted - {id})
    case Listed(p, ids, remaining) => WithList(s, p, s.peers[p].toGet + ids, remaining)
    case Trimmed(p, keep) => WithList(s, p, s.peers[p].toGet[..keep], s.peers[p].unfetched)
    case Restarted(p) => WithList(s, p, [], 0)
    case Opened(p) => s.(peers := s.peers[p := Peer([], {}, 0)])
    case Closed(p) => s.(peers := s.peers - {p})
  }

  ghost predicate IsRun(ss: seq<State>, es: seq<Event>, limits: Limits) {
    && |ss| == |es| + 1
    && forall k :: 0 <= k < |es| ==> IsStep(ss, es, limits, k)
  }

  ghost predicate IsStep(ss: seq<State>, es: seq<Event>, limits: Limits, k: nat)
    requires k < |es| && |ss| == |es| + 1
  {
    IsEvent(ss[k], es[k]) && ss[k + 1] == After(ss[k], es[k], limits)
  }

  function Arrivals(es: seq<Event>): multiset<Copy> {
    if es == [] then multiset{}
    else Arrivals(es[..|es| - 1]) + (if es[|es| - 1].Arrived? then multiset{es[|es| - 1].copy} else multiset{})
  }

  lemma EventConserves(s: State, e: Event, limits: Limits)
    requires IsEvent(s, e)
    ensures Held(After(s, e, limits)) == Held(s) + (if e.Arrived? then multiset{e.copy} else multiset{})
  {
    hide Drain;
    if e.PassRun? {
      PassConserves(s, e.finished, limits);
    }
  }

  lemma PassConserves(s: State, finished: nat, limits: Limits)
    requires finished <= s.inProgress
    ensures Held(Pass(s, finished, limits)) == Held(s)
  {
    hide Drain;
    var u := s.(inProgress := s.inProgress - finished, asked := {});
    assert Held(u) == Held(s) && Held(u.(suspended := false)) == Held(s);
    DrainConserves(u.(suspended := false), limits);
  }

  // ---------- Which peers are asked for more ----------

  // Once the block is finished, a peer that had something to do has nothing left.
  lemma RunsOutIff(peer: Peer, id: BlockId)
    ensures peer.RunsOutWith(id) <==> peer.HasWork() && !peer.Finished(id).HasWork()
  {
  }

  lemma PoppedHasWork(peer: Peer, id: BlockId)
    ensures peer.Popped(id).HasWork() <==> peer.HasWork()
  {
    if peer.StartsWith(id) {
      assert id in peer.processing + {id};
    }
  }

  lemma ProgressKeepsWork(s: State)
    requires Progresses(s)
    ensures Round(s).asked == s.asked && Round(s).peers.Keys == s.peers.Keys
    ensures forall p :: p in s.peers ==> (Round(s).peers[p].HasWork() <==> s.peers[p].HasWork())
  {
    hide FirstReady, Waiting, Peer.HasWork, Peer.Popped;
    var id := Waiting(s)[FirstReady(Waiting(s), s.peers)].id;
    forall p | p in s.peers ensures Round(s).peers[p].HasWork() <==> s.peers[p].HasWork() {
      PoppedHasWork(s.peers[p], id);
    }
  }

  // The peer is asked, or was before.
  ghost predicate AskedIff(s: State, t: State, p: PeerId) {
    p in t.asked <==> p in s.asked || (p in s.peers && p in t.peers && s.peers[p].HasWork() && !t.peers[p].HasWork())
  }

  lemma LastTurnAsks(s: State, p: PeerId)
    requires !Progresses(s)
    ensures AskedIff(s, Round(s), p)
  {
    hide FirstReady, Waiting, Peer.HasWork, Peer.Popped, Peer.RunsOutWith, Peer.Finished;
    var i := FirstReady(Waiting(s), s.peers);
    if i < |Waiting(s)| && p in s.peers {
      PoppedHasWork(s.peers[p], Waiting(s)[i].id);
      RunsOutIff(s.peers[p].Popped(Waiting(s)[i].id), Waiting(s)[i].id);
    }
  }

  lemma {:induction false} DrainAsks(s: State, limits: Limits, p: PeerId)
    ensures AskedIff(s, Drain(s, limits), p)
    ensures Drain(s, limits).peers.Keys == s.peers.Keys
    decreases |Waiting(s)|
  {
    hide FirstReady, Waiting, Peer.HasWork, Round, Progresses;
    RoundKeepsPeers(s);
    if Progresses(s) {
      ProgressKeepsWork(s);
      ProgressShrinks(s);
      if Round(s).inProgress < limits.atOnce {
        DrainAsks(Round(s), limits, p);
      }
    } else {
      LastTurnAsks(s, p);
    }
  }

  lemma RoundKeepsPeers(s: State)
    ensures Round(s).peers.Keys == s.peers.Keys
  {
    hide FirstReady, Waiting;
  }

  // A pass, or the acceptance of a block, asks a peer for more ids exactly when it leaves that
  // peer with nothing to do although it had something before.
  lemma EventAsksIff(s: State, e: Event, limits: Limits, p: PeerId)
    requires IsEvent(s, e) && (e.PassRun? || e.Verdict?)
    ensures var t := After(s, e, limits);
            && t.peers.Keys == s.peers.Keys
            && (p in t.asked <==>
                  (e.Verdict? && p in s.asked) || (p in s.peers && s.peers[p].HasWork() && !t.peers[p].HasWork()))
  {
    hide Drain, Peer.HasWork, Peer.RunsOutWith, Peer.Finished;
    match e
    case PassRun(finished) =>
      var u := s.(inProgress := s.inProgress - finished, asked := {}, suspended := false);
      if u.inProgress < limits.atOnce {
        DrainAsks(u, limits, p);
      }
    case Verdict(id, ok) =>
      if p in s.peers {
        RunsOutIff(s.peers[p], id);
      }
  }

  // Every copy that came in is waiting or was handed over, and none is handed over twice.
  lemma {:induction false} EveryCopyIsAccounted(ss: seq<State>, es: seq<Event>, limits: Limits, i: nat)
    requires IsRun(ss, es, limits) && i < |ss|
    ensures Held(ss[i]) == Held(ss[0]) + Arrivals(es[..i])
  {
    hide Held, After;
    if i == 0 {
      assert Arrivals(es[..0]) == multiset{};
    } else {
      EveryCopyIsAccounted(ss, es, limits, i - 1);
      assert IsStep(ss, es, limits, i - 1);
      EventConserves(ss[i - 1], es[i - 1], limits);
      assert es[..i][..i - 1] == es[..i - 1];
    }
  }

  // Copies that come in between two passes wait in the order they came, in front of the older ones.
  lemma {:induction false} ArrivalsWaitInOrder(ss: seq<State>, es: seq<Event>, limits: Limits, i: nat, j: nat) returns (copies: seq<Copy>)
    requires IsRun(ss, es, limits) && i <= j < |ss| && ss[i].newReceived == []
    requires forall k :: i <= k < j ==> es[k].Arrived?
    ensures |copies| == j - i && forall k :: 0 <= k < j - i ==> copies[k] == es[i + k].copy
    ensures Waiting(ss[j]) == copies + ss[i].received && ss[j].received == ss[i].received
    decreases j
  {
    hide Pass;
    if i == j {
      copies := [];
      assert Reversed<Copy>([]) == [];
    } else {
      var before := ArrivalsWaitInOrder(ss, es, limits, i, j - 1);
      assert IsStep(ss, es, limits, j - 1);
      var s, c := ss[j - 1], es[j - 1].copy;
      copies := before + [c];
      OneMoreWaits(s, c);
      WaitsBeforeReceived(s, before);
      Associate(before, [c], s.received);
    }
  }

  lemma OneMoreWaits(s: State, c: Copy)
    ensures Waiting(s.(newReceived := [c] + s.newReceived)) == Reversed(s.newReceived) + ([c] + s.received)
  {
    var more := [c] + s.newReceived;
    assert more[1..] == s.newReceived;
    assert Reversed(more) == Reversed(s.newReceived) + [c];
  }

  lemma WaitsBeforeReceived(s: State, before: seq<Copy>)
    requires Waiting(s) == before + s.received
    ensures Reversed(s.newReceived) == before
  {
    var n := |before|;
    assert Waiting(s)[..n] == before && Waiting(s)[..|Reversed(s.newReceived)|] == Reversed(s.newReceived);
    assert |Waiting(s)| == n + |s.received|;
  }

  lemma HandedAtMostOnce(ss: seq<State>, es: seq<Event>, limits: Limits, i: nat)
    requires IsRun(ss, es, limits) && i < |ss|
    requires Held(ss[0]) == multiset{} && forall c :: Arrivals(es)[c] <= 1
    ensures forall j, k :: 0 <= j < k < |ss[i].handed| ==> ss[i].handed[j] != ss[i].handed[k]
  {
    EveryCopyIsAccounted(ss, es, limits, i);
    ArrivalsGrow(es, i);
    var handed := ss[i].handed;
    forall j, k | 0 <= j < k < |handed| ensures handed[j] != handed[k] {
      assert multiset(handed) <= Held(ss[i]);
      RepeatsCount(handed, j, k);
    }
  }

  lemma RepeatsCount(copies: seq<Copy>, j: nat, k: nat)
    requires j < k < |copies|
    ensures copies[j] == copies[k] ==> multiset(copies)[copies[j]] >= 2
  {
    assert copies == copies[..j] + [copies[j]] + copies[j + 1..k] + [copies[k]] + copies[k + 1..];
  }

  lemma {:induction false} ArrivalsGrow(es: seq<Event>, i: nat)
    requires i <= |es|
    ensures Arrivals(es[..i]) <= Arrivals(es)
    decreases |es| - i
  {
    if i == |es| {
      assert es[..i] == es;
    } else {
      ArrivalsGrow(es, i + 1);
      assert es[..i + 1][..i] == es[..i];
    }
  }

  function Chop(line: seq<BlockId>, n: nat): seq<BlockId> {
    if n <= |line| then line[..|line| - n] else []
  }

  // The blocks that left p's list and those pending on it, in order, when an event adds to the
  // end of the list or drops blocks there.
  function LineAfter(line: seq<BlockId>, pending: nat, e: Event, p: PeerId): seq<BlockId> {
    match e
    case Listed(q, ids, _) => if p == q then line + ids else line
    case Trimmed(q, keep) => if p == q && keep <= pending then Chop(line, pending - keep) else line
    case Restarted(q) => if p == q then Chop(line, pending) else line
    case _ => line
  }

  // Everything that was on p's list since state i, in the order listed, without what was
  // trimmed from its end.
  ghost function Line(ss: seq<State>, es: seq<Event>, i: nat, j: nat, p: PeerId): seq<BlockId>
    requires |ss| == |es| + 1 && i <= j < |ss| && forall k :: i <= k <= j ==> p in ss[k].peers
    decreases j - i
  {
    if i == j then ss[i].peers[p].toGet
    else LineAfter(Line(ss, es, i, j - 1, p), |ss[j - 1].peers[p].toGet|, es[j - 1], p)
  }

  lemma LineAfterFront(before: seq<BlockId>, list: seq<BlockId>, e: Event, p: PeerId)
    ensures LineAfter(before + list, |list|, e, p) == before + LineAfter(list, |list|, e, p)
  {
  }

  // One event: what leaves the front of the list are handled blocks in their order.
  lemma EventTakes(s: State, e: Event, limits: Limits, p: PeerId) returns (off: seq<BlockId>, h: seq<BlockId>)
    requires IsEvent(s, e) && p in s.peers && p in After(s, e, limits).peers
    ensures After(s, e, limits).handled == s.handled + h && Subsequence(off, h)
    ensures LineAfter(s.peers[p].toGet, |s.peers[p].toGet|, e, p) == off + After(s, e, limits).peers[p].toGet
  {
    hide Drain;
    if e.PassRun? {
      off, h := PassTakes(s, e.finished, limits, p);
    } else {
      off, h := [], [];
      assert s.handled + [] == s.handled;
    }
  }

  lemma PassTakes(s: State, finished: nat, limits: Limits, p: PeerId) returns (off: seq<BlockId>, h: seq<BlockId>)
    requires finished <= s.inProgress && p in s.peers
    ensures var t := Pass(s, finished, limits);
            && t.handled == s.handled + h && Subsequence(off, h)
            && p in t.peers && s.peers[p].toGet == off + t.peers[p].toGet
  {
    hide Drain, Consume;
    var u := s.(inProgress := s.inProgress - finished, asked := {});
    if u.inProgress < limits.atOnce {
      h := DrainConsumes(u.(suspended := false), limits);
      off := ConsumeTakesPrefix(s.peers[p].toGet, h);
    } else {
      off, h := [], [];
      assert s.handled + [] == s.handled;
    }
  }

  // Over any stretch of a run in which p stays connected, what leaves its list is taken from the
  // front, in the order of the list, also while its end is trimmed or it is cleared.
  lemma {:induction false} ListsAreConsumedInOrder(ss: seq<State>, es: seq<Event>, limits: Limits, i: nat, j: nat, p: PeerId)
    returns (taken: seq<BlockId>, h: seq<BlockId>)
    requires IsRun(ss, es, limits) && i <= j < |ss|
    requires forall k :: i <= k <= j ==> p in ss[k].peers
    ensures ss[j].handled == ss[i].handled + h
    ensures Line(ss, es, i, j, p) == taken + ss[j].peers[p].toGet
    ensures Subsequence(taken, h)
    decreases j - i
  {
    hide After, Subsequence, LineAfter;
    if i == j {
      taken, h := [], [];
      EmptySubsequence();
    } else {
      var before, g := ListsAreConsumedInOrder(ss, es, limits, i, j - 1, p);
      assert IsStep(ss, es, limits, j - 1);
      var off, more := EventTakes(ss[j - 1], es[j - 1], limits, p);
      LineAfterFront(before, ss[j - 1].peers[p].toGet, es[j - 1], p);
      taken, h := before + off, g + more;
      SubsequenceConcat(before, g, off, more);
      Associate(before, off, ss[j].peers[p].toGet);
      Associate(ss[i].handled, g, more);
    }
  }

  lemma EmptySubsequence()
    ensures forall b :: Subsequence([], b)
  {
  }

  // Over every run the delegate is given handled blocks only, in the order they were handled.
  lemma {:induction false} EveryRunHandsInOrder(ss: seq<State>, es: seq<Event>, limits: Limits, i: nat)
    requires IsRun(ss, es, limits) && i < |ss| && Subsequence(Ids(ss[0].handed), ss[0].handled)
    ensures Subsequence(Ids(ss[i].handed), ss[i].handled)
  {
    hide After, Subsequence, Ids;
    if i > 0 {
      EveryRunHandsInOrder(ss, es, limits, i - 1);
      assert IsStep(ss, es, limits, i - 1);
      EventHandsInOrder(ss[i - 1], es[i - 1], limits);
    }
  }

  lemma EventHandsInOrder(s: State, e: Event, limits: Limits)
    requires IsEvent(s, e) && Subsequence(Ids(s.handed), s.handled)
    ensures Subsequence(Ids(After(s, e, limits).handed), After(s, e, limits).handled)
  {
    hide Drain, Subsequence, Ids;
    if e.PassRun? {
      var u := s.(inProgress := s.inProgress - e.finished, asked := {}, suspended := false);
      if u.inProgress < limits.atOnce {
        var g, last := DrainHands(u, limits);
        IdsConcat(s.handed, g);
        SubsequenceOfLonger(Ids(g), last);
        SubsequenceConcat(Ids(s.handed), s.handled, Ids(g), Ids(g) + last);
        Associate(s.handled, Ids(g), last);
      }
    }
  }

  lemma {:induction false} SubsequenceOfLonger(a: seq<BlockId>, b: seq<BlockId>)
    ensures Subsequence(a, a + b)
  {
    if a != [] {
      assert (a + b)[1..] == a[1..] + b;
      SubsequenceOfLonger(a[1..], b);
    }
  }

  // ---------- No block before the one it builds on ----------

  ghost predicate ParentSeen(id: BlockId, known: set<BlockId>, handled: seq<BlockId>) {
    id.BlockId? && (id.previous in known || id.previous in handled)
  }

  // A list continues what has been handled.
  ghost predicate Continues(list: seq<BlockId>, known: set<BlockId>, handled: seq<BlockId>) {
    && (list != [] ==> ParentSeen(list[0], known, handled))
    && forall k :: 0 < k < |list| ==> list[k].BlockId? && list[k].previous == list[k - 1]
  }

  ghost predicate InOrder(handled: seq<BlockId>, known: set<BlockId>) {
    forall k :: 0 <= k < |handled| ==> ParentSeen(handled[k], known, handled[..k])
  }

  ghost predicate ParentsFirst(s: State, known: set<BlockId>) {
    && InOrder(s.handled, known)
    && forall p :: p in s.peers ==> Continues(s.peers[p].toGet, known, s.handled)
  }

  lemma PoppedContinues(peer: Peer, id: BlockId, known: set<BlockId>, handled: seq<BlockId>)
    requires Continues(peer.toGet, known, handled)
    ensures Continues(peer.Popped(id).toGet, known, handled + [id])
  {
    if peer.StartsWith(id) {
      var rest := peer.toGet[1..];
      if rest != [] {
        assert rest[0] == peer.toGet[1] && rest[0].previous == id;
        assert id in handled + [id];
      }
    }
  }

  lemma TakeKeepsParentsFirst(s: State, i: nat, known: set<BlockId>)
    requires ParentsFirst(s, known) && i < |Waiting(s)| && IsFront(s.peers, Waiting(s)[i].id)
    ensures ParentsFirst(Take(s, i), known)
  {
    hide Reversed, Continues, Waiting;
    var id := Waiting(s)[i].id;
    var t := Take(s, i);
    var p :| p in s.peers && s.peers[p].StartsWith(id);
    assert ParentSeen(id, known, s.handled) by {
      FrontParentSeen(s.peers[p].toGet, known, s.handled);
    }
    InOrderMore(s.handled, known, id);
    forall q | q in t.peers ensures Continues(t.peers[q].toGet, known, t.handled) {
      PoppedContinues(s.peers[q], id, known, s.handled);
    }
  }

  lemma FrontParentSeen(list: seq<BlockId>, known: set<BlockId>, handled: seq<BlockId>)
    requires Continues(list, known, handled) && list != []
    ensures ParentSeen(list[0], known, handled)
  {
  }

  lemma InOrderMore(handled: seq<BlockId>, known: set<BlockId>, id: BlockId)
    requires InOrder(handled, known) && ParentSeen(id, known, handled)
    ensures InOrder(handled + [id], known)
  {
    hide ParentSeen;
    var more := handled + [id];
    forall k | 0 <= k < |more| ensures ParentSeen(more[k], known, more[..k]) {
      assert more[..k] == handled[..k];
      if k == |handled| {
        assert handled[..k] == handled;
      }
    }
  }

  lemma {:induction false} DrainKeepsParentsFirst(s: State, limits: Limits, known: set<BlockId>)
    requires ParentsFirst(s, known)
    ensures ParentsFirst(Drain(s, limits), known)
    decreases |Waiting(s)|
  {
    hide FirstReady, Reversed, Continues, InOrder, Take, Waiting;
    var i := FirstReady(Waiting(s), s.peers);
    if i < |Waiting(s)| {
      TakeKeepsParentsFirst(s, i, known);
    }
    var t := Round(s);
    if t.inProgress < limits.atOnce && Progresses(s) {
      ProgressShrinks(s);
      DrainKeepsParentsFirst(t, limits, known);
    }
  }

  // A peer lists blocks that continue its list, or that build on a block seen before.
  ghost predicate ListsHonestly(s: State, e: Event, known: set<BlockId>)
    requires IsEvent(s, e)
  {
    e.Listed? ==> Continues(s.peers[e.peer].toGet + e.ids, known, s.handled)
  }

  lemma EventKeepsParentsFirst(s: State, e: Event, limits: Limits, known: set<BlockId>)
    requires IsEvent(s, e) && ListsHonestly(s, e, known) && ParentsFirst(s, known)
    ensures ParentsFirst(After(s, e, limits), known)
  {
    hide Drain, InOrder, Continues;
    match e
    case PassRun(finished) =>
      var u := s.(inProgress := s.inProgress - finished, asked := {}, suspended := false);
      if u.inProgress < limits.atOnce {
        DrainKeepsParentsFirst(u, limits, known);
      }
    case Arrived(_) =>
    case Verdict(_, _) =>
    case Forgotten(_) =>
    case Listed(_, _, _) =>
    case Trimmed(p, keep) =>
      ShorterContinues(s.peers[p].toGet, keep, known, s.handled);
    case Restarted(_) =>
      EmptyContinues(known, s.handled);
    case Opened(_) =>
      EmptyContinues(known, s.handled);
    case Closed(_) =>
  }

  lemma ShorterContinues(list: seq<BlockId>, keep: nat, known: set<BlockId>, handled: seq<BlockId>)
    requires keep <= |list| && Continues(list, known, handled)
    ensures Continues(list[..keep], known, handled)
  {
  }

  lemma EmptyContinues(known: set<BlockId>, handled: seq<BlockId>)
    ensures Continues([], known, handled)
  {
  }

  // Over every run in which peers list blocks honestly, no block is handled before the block
  // it builds on, however the copies arrive.
  lemma {:induction false} EveryRunHandlesParentsFirst(ss: seq<State>, es: seq<Event>, limits: Limits, i: nat, known: set<BlockId>)
    requires IsRun(ss, es, limits) && i < |ss| && ParentsFirst(ss[0], known)
    requires forall k :: 0 <= k < |es| ==> IsStep(ss, es, limits, k) && ListsHonestly(ss[k], es[k], known)
    ensures ParentsFirst(ss[i], known)
  {
    hide After, ParentsFirst, ListsHonestly;
    if i > 0 {
      EveryRunHandlesParentsFirst(ss, es, limits, i - 1, known);
      assert IsStep(ss, es, limits, i - 1);
      EventKeepsParentsFirst(ss[i - 1], es[i - 1], limits, known);
    }
  }

  // ---------- The node's backlog ----------

  lemma {:induction false} FirstReadyIs(copies: seq<Copy>, peers: map<PeerId, Peer>, i: nat)
    requires i <= |copies| && (i < |copies| ==> IsFront(peers, copies[i].id))
    requires forall k :: 0 <= k < i ==> !IsFront(peers, copies[k].id)
    ensures FirstReady(copies, peers) == i
  {
    hide IsFront;
  }

  lemma RoundTakes(s: State, i: nat)
    requires i < |Waiting(s)| && IsFront(s.peers, Waiting(s)[i].id)
    requires forall k :: 0 <= k < i ==> !IsFront(s.peers, Waiting(s)[k].id)
    ensures Round(s) == Take(s, i)
    ensures Progresses(s) <==> Waiting(s)[i].id !in s.accepted
  {
    hide FirstReady, IsFront, Waiting, Take;
    FirstReadyIs(Waiting(s), s.peers, i);
  }

  lemma RoundTakesNothing(s: State)
    requires forall k :: 0 <= k < |Waiting(s)| ==> !IsFront(s.peers, Waiting(s)[k].id)
    ensures Round(s) == s.(received := Waiting(s), newReceived := [])
    ensures !Progresses(s)
  {
    hide FirstReady, IsFront, Waiting;
    FirstReadyIs(Waiting(s), s.peers, |Waiting(s)|);
  }

  lemma PopNothing(peers: map<PeerId, Peer>, id: BlockId)
    requires !IsFront(peers, id)
    ensures PopAll(peers, id) == peers
  {
  }

  class BlockBacklog {
    const limits: Limits
    var peers: map<PeerId, Peer>
    var receivedSyncItems: seq<Copy>
    var newReceivedSyncItems: seq<Copy>
    var callsInProgress: nat
    var suspendFetching: bool
    var accepted: set<BlockId>
    var asked: set<PeerId>
    ghost var handled: seq<BlockId>
    ghost var handed: seq<Copy>

    ghost function View(): State
      reads this
    {
      State(peers, receivedSyncItems, newReceivedSyncItems, callsInProgress, suspendFetching, accepted, asked, handled, handed)
    }

    constructor (limits: Limits)
      ensures View() == State(map[], [], [], 0, false, {}, {}, [], []) && this.limits == limits
    {
      this.limits := limits;
      peers, receivedSyncItems, newReceivedSyncItems := map[], [], [];
      callsInProgress, suspendFetching, accepted, asked := 0, false, {}, {};
      handled, handed := [], [];
    }

    // process_block_during_sync, up to the trigger of a pass.
    method ProcessBlockDuringSync(c: Copy)
      modifies this`newReceivedSyncItems
      ensures View() == After(old(View()), Arrived(c), limits)
      ensures Held(View()) == Held(old(View())) + multiset{c}
    {
      EventConserves(View(), Arrived(c), limits);
      newReceivedSyncItems := [c] + newReceivedSyncItems;
    }

    // send_sync_block_to_node_delegate, once the delegate has accepted the block.
    method BlockAccepted(id: BlockId)
      modifies this`accepted, this`peers, this`asked
      ensures View() == After(old(View()), Verdict(id, true), limits)
      ensures forall p :: p in peers <==> p in old(peers)
      ensures forall p :: p in asked <==>
                p in old(asked) || (p in peers && old(peers)[p].HasWork() && !peers[p].HasWork())
    {
      hide RunningOut, FinishAll, Peer.HasWork;
      forall p {
        EventAsksIff(View(), Verdict(id, true), limits, p);
      }
      accepted := accepted + {id};
      FinishEverywhere(id);
    }

    // A whole pass. The result says whether the fetch loop is triggered.
    method ProcessBacklog(finished: nat) returns (fetchMore: bool)
      requires finished <= callsInProgress
      modifies this
      ensures View() == Pass(old(View()), finished, limits)
      ensures fetchMore <==> old(callsInProgress) - finished < limits.atOnce && !suspendFetching
    {
      hide Round, Progresses;
      callsInProgress := callsInProgress - finished;
      asked := {};
      if callsInProgress >= limits.atOnce {
        return false;
      }
      suspendFetching := false;
      ghost var target := Drain(View(), limits);
      var progress := true;
      while progress
        invariant progress ==> Drain(View(), limits) == target
        invariant !progress ==> View() == target
        decreases |receivedSyncItems| + |newReceivedSyncItems|, progress
      {
        ghost var before := View();
        progress := TakeNext();
        if callsInProgress >= limits.atOnce {
          if |receivedSyncItems| >= limits.prefetch {
            suspendFetching := true;
          }
          progress := false;
        }
      }
      fetchMore := !suspendFetching;
    }

    // One turn of the do-loop.
    method TakeNext() returns (progress: bool)
      modifies this
      ensures View() == Round(old(View()))
      ensures progress == old(Progresses(View()))
      ensures |receivedSyncItems| + |newReceivedSyncItems| + (if progress then 1 else 0) ==
              old(|receivedSyncItems| + |newReceivedSyncItems|)
    {
      hide FirstReady, IsFront, PopAll, FinishAll, RunningOut, Round, Progresses, Waiting;
      ghost var s := View();
      CollectNew();
      var i := 0;
      while i < |receivedSyncItems|
        invariant i <= |receivedSyncItems|
        invariant View() == s.(received := Waiting(s), newReceived := [])
        invariant forall k :: 0 <= k < i ==> !IsFront(peers, receivedSyncItems[k].id)
      {
        var c := receivedSyncItems[i];
        var found := PopFronts(c.id);
        if found {
          RoundTakes(s, i);
          handled := handled + [c.id];
          progress := c.id !in accepted;
          if progress {
            receivedSyncItems := receivedSyncItems[..i] + receivedSyncItems[i + 1..];
            callsInProgress := callsInProgress + 1;
            handed := handed + [c];
          } else {
            FinishEverywhere(c.id);
          }
          return;
        }
        PopNothing(s.peers, c.id);
        i := i + 1;
      }
      RoundTakesNothing(s);
      progress := false;
    }

    // New copies go before those already waiting, the newest last in front.
    method CollectNew()
      modifies this`receivedSyncItems, this`newReceivedSyncItems
      ensures receivedSyncItems == Waiting(old(View())) && newReceivedSyncItems == []
    {
      hide Reversed;
      ghost var target := Waiting(View());
      var k := 0;
      assert newReceivedSyncItems[0..] == newReceivedSyncItems;
      while k < |newReceivedSyncItems|
        invariant k <= |newReceivedSyncItems| && newReceivedSyncItems == old(newReceivedSyncItems)
        invariant Reversed(newReceivedSyncItems[k..]) + receivedSyncItems == target
      {
        ReversedStep(newReceivedSyncItems, k, receivedSyncItems);
        receivedSyncItems := [newReceivedSyncItems[k]] + receivedSyncItems;
        k := k + 1;
      }
      assert newReceivedSyncItems[k..] == [];
      NothingReversed(receivedSyncItems);
      newReceivedSyncItems := [];
    }

    // Every list that begins with the id loses it.
    method PopFronts(id: BlockId) returns (found: bool)
      modifies this`peers
      ensures peers == PopAll(old(peers), id)
      ensures found <==> IsFront(old(peers), id)
    {
      hide PopBut, FrontBut, Peer.Popped, Peer.StartsWith;
      ghost var was := peers;
      var todo := peers.Keys;
      found := false;
      PopStart(was, id);
      while todo != {}
        invariant todo <= was.Keys && peers == PopBut(was, id, todo)
        invariant found <==> FrontBut(was, id, todo)
        decreases todo
      {
        var p :| p in todo;
        PopOneMore(was, id, todo, p);
        if peers[p].StartsWith(id) {
          found := true;
          peers := peers[p := peers[p].Popped(id)];
        }
        todo := todo - {p};
      }
      PopEnd(was, id);
    }

    // The block was accepted before: no peer's list is waiting for it any more, and a peer left
    // with nothing is asked for more.
    method FinishEverywhere(id: BlockId)
      modifies this`peers, this`asked
      ensures peers == FinishAll(old(peers), id)
      ensures asked == old(asked) + RunningOut(old(peers), id)
    {
      hide FinishBut, RunningOutBut, Peer.Finished, Peer.RunsOutWith;
      ghost var was, askedBefore := peers, asked;
      var todo := peers.Keys;
      FinishStart(was, id);
      while todo != {}
        invariant todo <= was.Keys && peers == FinishBut(was, id, todo)
        invariant asked == askedBefore + RunningOutBut(was, id, todo)
        decreases todo
      {
        var p :| p in todo;
        FinishOneMore(was, id, todo, p);
        if id in peers[p].processing {
          if peers[p].RunsOutWith(id) {
            asked := asked + {p};
          }
          peers := peers[p := peers[p].Finished(id)];
        }
        todo := todo - {p};
      }
      FinishEnd(was, id);
    }
  }

  lemma ReversedStep(copies: seq<Copy>, k: nat, after: seq<Copy>)
    requires k < |copies|
    ensures Reversed(copies[k..]) + after == Reversed(copies[k + 1..]) + ([copies[k]] + after)
  {
    var rest := copies[k..];
    assert rest[1..] == copies[k + 1..] && Reversed(rest) == Reversed(rest[1..]) + [rest[0]];
    Associate(Reversed(rest[1..]), [rest[0]], after);
  }

  lemma NothingReversed(after: seq<Copy>)
    ensures Reversed<Copy>([]) + after == after
  {
  }

  // The loops over the connections, with those in todo still to come.
  function PopBut(peers: map<PeerId, Peer>, id: BlockId, todo: set<PeerId>): map<PeerId, Peer> {
    map p | p in peers :: if p in todo then peers[p] else peers[p].Popped(id)
  }

  ghost predicate FrontBut(peers: map<PeerId, Peer>, id: BlockId, todo: set<PeerId>) {
    exists p :: p in peers && p !in todo && peers[p].StartsWith(id)
  }

  lemma PopStart(peers: map<PeerId, Peer>, id: BlockId)
    ensures PopBut(peers, id, peers.Keys) == peers && !FrontBut(peers, id, peers.Keys)
  {
  }

  lemma PopEnd(peers: map<PeerId, Peer>, id: BlockId)
    ensures PopBut(peers, id, {}) == PopAll(peers, id) && (FrontBut(peers, id, {}) <==> IsFront(peers, id))
  {
    hide Peer.Popped, Peer.StartsWith;
  }

  lemma PopOneMore(peers: map<PeerId, Peer>, id: BlockId, todo: set<PeerId>, p: PeerId)
    requires p in todo && todo <= peers.Keys
    ensures var before := PopBut(peers, id, todo);
            && p in before
            && PopBut(peers, id, todo - {p}) == (if before[p].StartsWith(id) then before[p := before[p].Popped(id)] else before)
            && (FrontBut(peers, id, todo - {p}) <==> FrontBut(peers, id, todo) || before[p].StartsWith(id))
  {
    hide Peer.StartsWith;
    PoppedMeans(peers[p], id);
    assert FrontBut(peers, id, todo) ==> FrontBut(peers, id, todo - {p});
  }

  lemma PoppedMeans(peer: Peer, id: BlockId)
    ensures !peer.StartsWith(id) ==> peer.Popped(id) == peer
  {
  }

  function FinishBut(peers: map<PeerId, Peer>, id: BlockId, todo: set<PeerId>): map<PeerId, Peer> {
    map p | p in peers :: if p in todo then peers[p] else peers[p].Finished(id)
  }

  function RunningOutBut(peers: map<PeerId, Peer>, id: BlockId, todo: set<PeerId>): set<PeerId> {
    set p | p in peers && p !in todo && peers[p].RunsOutWith(id)
  }

  lemma FinishStart(peers: map<PeerId, Peer>, id: BlockId)
    ensures FinishBut(peers, id, peers.Keys) == peers && RunningOutBut(peers, id, peers.Keys) == {}
  {
  }

  lemma FinishEnd(peers: map<PeerId, Peer>, id: BlockId)
    ensures FinishBut(peers, id, {}) == FinishAll(peers, id) && RunningOutBut(peers, id, {}) == RunningOut(peers, id)
  {
    hide Peer.Finished, Peer.RunsOutWith;
  }

  lemma FinishOneMore(peers: map<PeerId, Peer>, id: BlockId, todo: set<PeerId>, p: PeerId)
    requires p in todo && todo <= peers.Keys
    ensures var before := FinishBut(peers, id, todo);
            && p in before
            && FinishBut(peers, id, todo - {p}) == (if id in before[p].processing then before[p := before[p].Finished(id)] else before)
            && RunningOutBut(peers, id, todo - {p}) ==
               RunningOutBut(peers, id, todo) + (if id in before[p].processing && before[p].RunsOutWith(id) then {p} else {})
  {
    FinishedMeans(peers[p], id);
  }

  lemma FinishedMeans(peer: Peer, id: BlockId)
    ensures id !in peer.processing ==> peer.Finished(id) == peer && !peer.RunsOutWith(id)
  {
  }
}
