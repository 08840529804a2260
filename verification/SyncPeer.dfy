/** The requesting side of block id negotiation: what a node remembers about one peer, the
    request it sends and how it takes in the reply. */
module SyncPeer {
  import opened Wrappers
  import opened Chain
  import opened Synopsis

  // GRAPHENE_NET_MIN_BLOCK_IDS_TO_PREFETCH
  const MIN_BLOCK_IDS_TO_PREFETCH := 10000

  datatype PeerView = PeerView(
    idsToGet: seq<BlockId>,
    unfetched: nat,
    lastSeen: BlockId,
    needSync: bool,
    requested: Option<seq<BlockId>>)

  datatype Action = Ignore | Disconnect | InSync | FetchBlocks | FetchMoreIds

  ghost predicate Consecutive(ids: seq<BlockId>) {
    forall i :: 0 <= i < |ids| ==> Num(ids[i]) == Num(ids[0]) + i
  }

  // ---------- The request ----------

  // The pending ids at the heights the recurrence visits.
  function PendingSample(pending: seq<BlockId>, first: nat, low: nat): seq<BlockId>
    requires pending != []
    decreases first + |pending| - low
  {
    var trueHigh := first + |pending| - 1;
    if low > trueHigh then []
    else (if low >= first then [pending[low - first]] else [])
         + PendingSample(pending, first, NextHeight(low, trueHigh))
  }

  function FirstNumber(synopsis: seq<BlockId>): nat {
    if synopsis == [] then 1 else Num(synopsis[0])
  }

  // The delegate's part followed by the node's part.
  ghost function JoinedSynopsis(c: seq<BlockId>, low: nat, pending: seq<BlockId>): seq<BlockId>
    requires 1 <= low
  {
    var s := ChainSynopsis(c, low, |pending|);
    if pending == [] then s else s + PendingSample(pending, Num(pending[0]), FirstNumber(s))
  }

  // The first turn of the request loop finds its index among the pending ids, if it needs one.
  predicate IndexInRange(delegatePart: seq<BlockId>, pending: seq<BlockId>) {
    pending == [] || FirstNumber(delegatePart) < Num(pending[0]) + |pending|
  }

  ghost function SynopsisForPeer(db: ChainState, lastSeen: BlockId, pending: seq<BlockId>): Result<seq<BlockId>, SynopsisError> {
    match WhyNoSynopsis(db, lastSeen)
    case Some(e) => Failure(e)
    case None =>
      var c, low := SummarisedChain(db, lastSeen), LowHeight(db, lastSeen);
      if IndexInRange(ChainSynopsis(c, low, |pending|), pending) then Success(JoinedSynopsis(c, low, pending))
      else Failure(PendingIndexOutOfRange)
  }

  lemma {:induction false} PendingSampleAt(pending: seq<BlockId>, first: nat, low: nat)
    requires pending != []
    ensures var h := HeightsFrom(first, low, first + |pending| - 1);
            && |PendingSample(pending, first, low)| == |h|
            && forall i :: 0 <= i < |h| ==> first <= h[i] < first + |pending| && PendingSample(pending, first, low)[i] == pending[h[i] - first]
    decreases first + |pending| - low
  {
    var trueHigh := first + |pending| - 1;
    if low <= trueHigh {
      PendingSampleAt(pending, first, NextHeight(low, trueHigh));
    }
  }

  ghost predicate NumbersRise(ids: seq<BlockId>) {
    forall i, j :: 0 <= i < j < |ids| ==> Num(ids[i]) < Num(ids[j])
  }

  // A chain to summarise and a height to start from that the delegate can produce.
  ghost predicate Summarisable(c: seq<BlockId>, low: nat) {
    IsChain(c) && 1 <= low && (if c == [] then low == 1 else low <= |c|)
  }

  lemma SummaryIsSummarisable(db: ChainState, lastSeen: BlockId)
    requires db.Valid() && WhyNoSynopsis(db, lastSeen) == None
    ensures Summarisable(SummarisedChain(db, lastSeen), LowHeight(db, lastSeen))
  {
    ChainOfIsChain(lastSeen);
    LowHeightInChain(db, lastSeen);
  }

  // The node starts from the height the delegate started from.
  lemma DelegateStartsLow(c: seq<BlockId>, low: nat, following: nat)
    requires Summarisable(c, low)
    ensures FirstNumber(ChainSynopsis(c, low, following)) == low
  {
    hide HeightsUpTo, ChainSynopsis, StrictlyIncreasing;
    ChainSynopsisEntries(c, low, following);
  }

  // The pending ids named end with the last one, whatever the ids are and wherever the
  // delegate's part began below it.
  lemma PendingSampleEnds(pending: seq<BlockId>, first: nat, low: nat)
    requires pending != [] && low < first + |pending|
    ensures var p := PendingSample(pending, first, low);
            && p != [] && p[|p| - 1] == pending[|pending| - 1]
            && forall i :: 0 <= i < |p| ==> p[i] in pending
  {
    hide PendingSample, HeightsFrom, StrictlyIncreasing;
    PendingSampleAt(pending, first, low);
    HeightsFromShape(first, low, first + |pending| - 1);
  }

  // The request ends with the last pending id, so the loop's final assertion holds, exactly
  // under the condition that keeps the loop's first index in range.
  lemma JoinedSynopsisShape(c: seq<BlockId>, low: nat, pending: seq<BlockId>)
    requires Summarisable(c, low)
    requires pending != [] && low < Num(pending[0]) + |pending|
    ensures var r := JoinedSynopsis(c, low, pending);
            && r != [] && r[|r| - 1] == pending[|pending| - 1]
            && forall i :: 0 <= i < |r| ==> r[i] in c || r[i] in pending
  {
    hide PendingSample, ChainSynopsis, HeightsUpTo;
    var s := ChainSynopsis(c, low, |pending|);
    ChainSynopsisReads(c, low, |pending|);
    DelegateStartsLow(c, low, |pending|);
    PendingSampleEnds(pending, Num(pending[0]), low);
    var p := PendingSample(pending, Num(pending[0]), low);
    assert JoinedSynopsis(c, low, pending) == s + p;
    assert forall i :: 0 <= i < |s| ==> s[i] in c;
  }

  // When the pending ids lie above the chain summarised, block numbers rise strictly.
  lemma JoinedSynopsisRises(c: seq<BlockId>, low: nat, pending: seq<BlockId>)
    requires Summarisable(c, low)
    requires pending != [] && Consecutive(pending) && Num(pending[0]) > |c|
    ensures NumbersRise(JoinedSynopsis(c, low, pending))
  {
    hide PendingSample, ChainSynopsis, HeightsUpTo;
    var s := ChainSynopsis(c, low, |pending|);
    ChainSynopsisEntries(c, low, |pending|);
    DelegateStartsLow(c, low, |pending|);
    PendingSampleNumbers(pending, Num(pending[0]), low);
    assert forall i :: 0 <= i < |s| ==> Num(s[i]) <= |c|;
  }

  lemma PendingSampleNumbers(pending: seq<BlockId>, first: nat, low: nat)
    requires pending != [] && Consecutive(pending) && Num(pending[0]) == first
    ensures var p := PendingSample(pending, first, low);
            NumbersRise(p) && forall i :: 0 <= i < |p| ==> Num(p[i]) >= first
  {
    hide PendingSample, HeightsFrom, Num;
    var p := PendingSample(pending, first, low);
    var h := HeightsFrom(first, low, first + |pending| - 1);
    PendingSampleAt(pending, first, low);
    if low <= first + |pending| - 1 {
      HeightsFromShape(first, low, first + |pending| - 1);
    } else {
      NothingFrom(first, low, first + |pending| - 1);
    }
    forall i | 0 <= i < |p| ensures Num(p[i]) == h[i] {
      assert Num(pending[h[i] - first]) == Num(pending[0]) + (h[i] - first);
    }
  }

  lemma NothingFrom(first: nat, low: nat, trueHigh: nat)
    requires low > trueHigh
    ensures HeightsFrom(first, low, trueHigh) == []
  {
  }

  // Exactly when a request can be made from pending ids: the height the delegate starts from,
  // its last irreversible block or an older reference block, is no higher than the last of them.
  lemma RequestInRangeIff(db: ChainState, lastSeen: BlockId, pending: seq<BlockId>)
    requires db.Valid() && WhyNoSynopsis(db, lastSeen) == None && pending != []
    ensures SynopsisForPeer(db, lastSeen, pending) ==
            if LowHeight(db, lastSeen) < Num(pending[0]) + |pending|
            then Success(JoinedSynopsis(SummarisedChain(db, lastSeen), LowHeight(db, lastSeen), pending))
            else Failure(PendingIndexOutOfRange)
  {
    hide ChainSynopsis, JoinedSynopsis, LowHeight, SummarisedChain;
    SummaryIsSummarisable(db, lastSeen);
    DelegateStartsLow(SummarisedChain(db, lastSeen), LowHeight(db, lastSeen), |pending|);
  }

  // The synopsis a single halving loop makes of one list of ids, whose heights start at 1.
  ghost function SingleLoopSynopsis(chain: seq<BlockId>, low: nat): seq<BlockId>
    requires 1 <= low
  {
    HeightsUpToBounds(low, |chain|, |chain|);
    BlocksAt(chain, Heights(low, |chain|))
  }

  // Each id is the one its height stands for in chain.
  ghost predicate StandFor(ids: seq<BlockId>, heights: seq<nat>, chain: seq<BlockId>) {
    && |ids| == |heights|
    && forall i :: 0 <= i < |ids| ==> 1 <= heights[i] <= |chain| && ids[i] == chain[heights[i] - 1]
  }

  lemma StandForAppend(a: seq<BlockId>, ha: seq<nat>, b: seq<BlockId>, hb: seq<nat>, chain: seq<BlockId>)
    requires StandFor(a, ha, chain) && StandFor(b, hb, chain)
    ensures StandFor(a + b, ha + hb, chain)
  {
  }

  lemma StandForUnique(a: seq<BlockId>, b: seq<BlockId>, heights: seq<nat>, chain: seq<BlockId>)
    requires StandFor(a, heights, chain) && StandFor(b, heights, chain)
    ensures a == b
  {
  }

  lemma SingleLoopStandsFor(chain: seq<BlockId>, low: nat)
    requires 1 <= low
    ensures StandFor(SingleLoopSynopsis(chain, low), Heights(low, |chain|), chain)
  {
    var h := Heights(low, |chain|);
    HeightsUpToBounds(low, |chain|, |chain|);
    forall i | 0 <= i < |h| ensures 1 <= h[i] <= |chain| {
      assert h[i] in h;
    }
  }

  lemma JoinedStartsLow(c: seq<BlockId>, low: nat, pending: seq<BlockId>)
    requires Summarisable(c, low) && pending != []
    ensures JoinedSynopsis(c, low, pending) == ChainSynopsis(c, low, |pending|) + PendingSample(pending, Num(pending[0]), low)
  {
    hide ChainSynopsis, PendingSample;
    DelegateStartsLow(c, low, |pending|);
  }

  lemma StandForLonger(ids: seq<BlockId>, heights: seq<nat>, chain: seq<BlockId>, more: seq<BlockId>)
    requires StandFor(ids, heights, chain)
    ensures StandFor(ids, heights, chain + more)
  {
  }

  lemma PendingStandsFor(c: seq<BlockId>, low: nat, pending: seq<BlockId>)
    requires pending != []
    ensures StandFor(PendingSample(pending, |c| + 1, low), HeightsFrom(|c| + 1, low, |c| + |pending|), c + pending)
  {
    PendingSampleAt(pending, |c| + 1, low);
  }

  lemma ChainSynopsisStandsFor(c: seq<BlockId>, low: nat, following: nat)
    requires 1 <= low
    ensures StandFor(ChainSynopsis(c, low, following), HeightsUpTo(low, |c|, |c| + following), c)
  {
    hide ChainSynopsis, HeightsUpTo;
    ChainSynopsisReads(c, low, following);
  }

  lemma JoinStandsFor(c: seq<BlockId>, low: nat, pending: seq<BlockId>)
    requires Summarisable(c, low)
    requires pending != [] && Num(pending[0]) == |c| + 1
    ensures StandFor(JoinedSynopsis(c, low, pending), Heights(low, |c| + |pending|), c + pending)
  {
    hide HeightsUpTo, HeightsFrom, Heights, ChainSynopsis, JoinedSynopsis, PendingSample, StandFor;
    var trueHigh := |c| + |pending|;
    var s := ChainSynopsis(c, low, |pending|);
    var p := PendingSample(pending, |c| + 1, low);
    var below, above := HeightsUpTo(low, |c|, trueHigh), HeightsFrom(|c| + 1, low, trueHigh);
    ChainSynopsisStandsFor(c, low, |pending|);
    StandForLonger(s, below, c, pending);
    PendingStandsFor(c, low, pending);
    JoinedStartsLow(c, low, pending);
    StandForAppend(s, below, p, above, c + pending);
    HeightsSplit(low, |c|, trueHigh);
  }

  lemma SeamlessJoin(c: seq<BlockId>, low: nat, pending: seq<BlockId>)
    requires Summarisable(c, low)
    requires pending != [] && Num(pending[0]) == |c| + 1
    ensures JoinedSynopsis(c, low, pending) == SingleLoopSynopsis(c + pending, low)
  {
    JoinStandsFor(c, low, pending);
    SingleLoopStandsFor(c + pending, low);
    StandForUnique(JoinedSynopsis(c, low, pending), SingleLoopSynopsis(c + pending, low),
                   Heights(low, |c| + |pending|), c + pending);
  }

  // Seamless: with the pending ids right after the reference block, the delegate's loop
  // followed by the node's loop is the one loop over everything.
  lemma SeamlessSynopsis(db: ChainState, lastSeen: BlockId, pending: seq<BlockId>)
    requires db.Valid() && WhyNoSynopsis(db, lastSeen) == None
    requires pending != [] && Num(pending[0]) == |SummarisedChain(db, lastSeen)| + 1
    ensures SynopsisForPeer(db, lastSeen, pending)
         == Success(SingleLoopSynopsis(SummarisedChain(db, lastSeen) + pending, LowHeight(db, lastSeen)))
  {
    hide JoinedSynopsis, SingleLoopSynopsis, SynopsisForPeer;
    SummaryIsSummarisable(db, lastSeen);
    RequestInRangeIff(db, lastSeen, pending);
    SeamlessJoin(SummarisedChain(db, lastSeen), LowHeight(db, lastSeen), pending);
  }

  // ---------- Exactly when a request is seamless ----------

  // Halving n comes out even until a value between p + 2 and 2p + 1 is left.
  predicate HalvesInto(n: nat, p: nat) {
    if n <= 2 * p + 1 then n >= p + 2 else n % 2 == 0 && HalvesInto(n / 2, p)
  }

  // For m blocks summarised, g blocks being processed after them and p ids pending after those:
  // nothing is being processed; or all but the first summarised block is skipped anyway; or one
  // block is being processed and the distances happen to halve evenly.
  predicate SeamlessFor(m: nat, g: nat, p: nat) {
    g == 0 || (m > 0 && (m + g <= p + 1 || (g == 1 && HalvesInto(m + p + 1, p))))
  }

  // The delegate counts g heights too few from low on. It names the same heights as one loop
  // over everything would below the pending ids exactly when SeamlessFor says so.
  lemma {:induction false} SameHeightsIff(low: nat, size: nat, g: nat, p: nat)
    requires 1 <= low <= size && p >= 1
    ensures HeightsUpTo(low, size, size + p) == HeightsUpTo(low, size + g, size + g + p) <==>
            SeamlessFor(size - low + 1, g, p)
    decreases size - low
  {
    hide HeightsUpTo, HalvesInto, NextHeight;
    var m := size - low + 1;
    var next, single := NextHeight(low, size + p), NextHeight(low, size + g + p);
    SameTailsIff(low, size, g, p);
    NextHeightIs(low, size + p);
    NextHeightIs(low, size + g + p);
    TailStart(next, size, size + p);
    TailStart(single, size + g, size + g + p);
    if m <= p + 1 {
      assert HeightsUpTo(next, size, size + p) == [];
      assert HeightsUpTo(single, size + g, size + g + p) == [] <==> m + g <= p + 1;
      if g == 1 {
        OneTooMany(m, p);
      }
    } else if g == 1 && (m + p) % 2 == 1 {
      assert next == single && size - next + 1 == (m + p) / 2 - p;
      SameHeightsIff(next, size, g, p);
      HalvesStep(m + p + 1, p);
      HalvesStep((m + p + 1) / 2, p);
    } else if g > 0 {
      HalvesStep(m + p + 1, p);
      HalvesApart(m + p, g);
    }
  }

  // What is visited after low decides.
  lemma SameTailsIff(low: nat, size: nat, g: nat, p: nat)
    requires 1 <= low <= size
    ensures HeightsUpTo(low, size, size + p) == HeightsUpTo(low, size + g, size + g + p) <==>
            HeightsUpTo(NextHeight(low, size + p), size, size + p) ==
            HeightsUpTo(NextHeight(low, size + g + p), size + g, size + g + p)
  {
    hide HeightsUpTo, NextHeight;
    HeightsStep(low, size, size + p);
    HeightsStep(low, size + g, size + g + p);
    SameTails(low, HeightsUpTo(NextHeight(low, size + p), size, size + p),
              HeightsUpTo(NextHeight(low, size + g + p), size + g, size + g + p));
  }

  lemma OneTooMany(m: nat, p: nat)
    requires p >= 1 && 1 <= m <= p + 1
    ensures !HalvesInto(m + p + 1, p) <==> m == p + 1
  {
    if m == p + 1 {
      assert m + p + 1 == 2 * (p + 1);
      HalvesStep(p + 1, p);
    }
  }

  lemma NextHeightIs(low: nat, trueHigh: nat)
    requires low <= trueHigh
    ensures NextHeight(low, trueHigh) == trueHigh + 1 - (trueHigh + 1 - low) / 2
  {
  }

  lemma HeightsStep(low: nat, limit: nat, trueHigh: nat)
    requires low <= limit <= trueHigh
    ensures HeightsUpTo(low, limit, trueHigh) == [low] + HeightsUpTo(NextHeight(low, trueHigh), limit, trueHigh)
  {
  }

  lemma TailStart(low: nat, limit: nat, trueHigh: nat)
    requires limit <= trueHigh
    ensures if low <= limit then HeightsUpTo(low, limit, trueHigh) != [] && HeightsUpTo(low, limit, trueHigh)[0] == low
            else HeightsUpTo(low, limit, trueHigh) == []
  {
  }

  lemma SameTails(h: nat, a: seq<nat>, b: seq<nat>)
    ensures [h] + a == [h] + b <==> a == b
  {
    assert ([h] + a)[1..] == a && ([h] + b)[1..] == b;
  }

  lemma HalvesStep(n: nat, p: nat)
    ensures HalvesInto(n, p) == if n <= 2 * p + 1 then n >= p + 2 else n % 2 == 0 && HalvesInto(n / 2, p)
  {
  }

  lemma HalvesApart(n: nat, g: nat)
    requires g >= 2 || (g == 1 && n % 2 == 0)
    ensures (n + g) / 2 != n / 2 + g
  {
  }

  ghost predicate NumbersInPlace(chain: seq<BlockId>) {
    forall i :: 0 <= i < |chain| ==> Num(chain[i]) == i + 1
  }

  // The ids of one chain determine the heights they stand for.
  lemma HeightsOfIds(a: seq<BlockId>, ha: seq<nat>, b: seq<BlockId>, hb: seq<nat>, chain: seq<BlockId>)
    requires NumbersInPlace(chain) && StandFor(a, ha, chain) && StandFor(b, hb, chain)
    ensures a == b <==> ha == hb
  {
    hide Num;
    if a == b {
      forall i | 0 <= i < |ha| ensures ha[i] == hb[i] {
        assert Num(a[i]) == ha[i] && Num(b[i]) == hb[i];
      }
      assert ha == hb;
    } else if ha == hb {
      StandForUnique(a, b, ha, chain);
      assert false;
    }
  }

  lemma SamePrefixes(a: seq<nat>, b: seq<nat>, rest: seq<nat>)
    ensures a + rest == b + rest <==> a == b
  {
    if a + rest == b + rest {
      assert |a| == |b|;
      assert a == (a + rest)[..|a|] && b == (b + rest)[..|b|];
    }
  }

  lemma BelowThePending(c: seq<BlockId>, low: nat, g: nat, p: nat)
    requires Summarisable(c, low) && p >= 1
    ensures HeightsUpTo(low, |c|, |c| + p) == HeightsUpTo(low, |c| + g, |c| + g + p) <==>
            SeamlessFor(if c == [] then 0 else |c| - low + 1, g, p)
  {
    hide HeightsUpTo, HalvesInto;
    if c == [] {
      TailStart(low, 0, p);
      TailStart(low, g, g + p);
    } else {
      SameHeightsIff(low, |c|, g, p);
    }
  }

  // The joined request stands for the delegate's heights and then the node's.
  lemma JoinWithGapStandsFor(c: seq<BlockId>, low: nat, gap: seq<BlockId>, pending: seq<BlockId>)
    requires Summarisable(c, low) && pending != [] && NumbersInPlace(c + gap + pending)
    ensures var g, p := |gap|, |pending|;
            StandFor(JoinedSynopsis(c, low, pending),
                     HeightsUpTo(low, |c|, |c| + p) + HeightsFrom(|c| + g + 1, low, |c| + g + p),
                     c + gap + pending)
  {
    hide HeightsUpTo, HeightsFrom, ChainSynopsis, JoinedSynopsis, PendingSample, StandFor, Summarisable;
    var whole, g, p := c + gap + pending, |gap|, |pending|;
    assert pending[0] == whole[|c| + g];
    assert Num(pending[0]) == |c| + g + 1;
    LowIsPositive(c, low);
    ChainSynopsisStandsFor(c, low, p);
    assert whole == c + (gap + pending);
    StandForLonger(ChainSynopsis(c, low, p), HeightsUpTo(low, |c|, |c| + p), c, gap + pending);
    assert |c + gap| == |c| + g;
    PendingStandsFor(c + gap, low, pending);
    JoinedStartsLow(c, low, pending);
    StandForAppend(ChainSynopsis(c, low, p), HeightsUpTo(low, |c|, |c| + p),
                   PendingSample(pending, |c| + g + 1, low), HeightsFrom(|c| + g + 1, low, |c| + g + p), whole);
  }

  lemma LowIsPositive(c: seq<BlockId>, low: nat)
    requires Summarisable(c, low)
    ensures low >= 1
  {
  }

  // With gap the blocks being processed between the chain summarised and the pending ids, the
  // request is the synopsis of one loop over all of them exactly when SeamlessFor holds of the
  // three lengths.
  lemma SeamlessIff(c: seq<BlockId>, low: nat, gap: seq<BlockId>, pending: seq<BlockId>)
    requires Summarisable(c, low) && pending != [] && NumbersInPlace(c + gap + pending)
    ensures JoinedSynopsis(c, low, pending) == SingleLoopSynopsis(c + gap + pending, low) <==>
            SeamlessFor(if c == [] then 0 else |c| - low + 1, |gap|, |pending|)
  {
    hide HeightsUpTo, HeightsFrom, Heights, JoinedSynopsis, SingleLoopSynopsis, StandFor, NumbersInPlace, Summarisable, SeamlessFor;
    var whole, g, p := c + gap + pending, |gap|, |pending|;
    LowIsPositive(c, low);
    JoinWithGapStandsFor(c, low, gap, pending);
    SingleLoopStandsFor(whole, low);
    var below, single := HeightsUpTo(low, |c|, |c| + p), HeightsUpTo(low, |c| + g, |c| + g + p);
    var above := HeightsFrom(|c| + g + 1, low, |c| + g + p);
    HeightsSplit(low, |c| + g, |c| + g + p);
    HeightsOfIds(JoinedSynopsis(c, low, pending), below + above, SingleLoopSynopsis(whole, low), Heights(low, |whole|), whole);
    SamePrefixes(below, single, above);
    BelowThePending(c, low, g, p);
  }

  // The same from the database's state.
  lemma SeamlessRequestIff(db: ChainState, lastSeen: BlockId, gap: seq<BlockId>, pending: seq<BlockId>)
    requires db.Valid() && WhyNoSynopsis(db, lastSeen) == None && pending != []
    requires NumbersInPlace(SummarisedChain(db, lastSeen) + gap + pending)
    ensures var c, low := SummarisedChain(db, lastSeen), LowHeight(db, lastSeen);
            SynopsisForPeer(db, lastSeen, pending) == Success(SingleLoopSynopsis(c + gap + pending, low)) <==>
            SeamlessFor(if c == [] then 0 else |c| - low + 1, |gap|, |pending|)
  {
    hide JoinedSynopsis, SingleLoopSynopsis, SynopsisForPeer, NumbersInPlace, SeamlessFor;
    var c, low := SummarisedChain(db, lastSeen), LowHeight(db, lastSeen);
    SummaryIsSummarisable(db, lastSeen);
    SeamlessIff(c, low, gap, pending);
    RequestInRangeIff(db, lastSeen, pending);
    assert low < Num(pending[0]) + |pending| by {
      PlaceOfPending(c, gap, pending);
    }
  }

  lemma PlaceOfPending(c: seq<BlockId>, gap: seq<BlockId>, pending: seq<BlockId>)
    requires pending != [] && NumbersInPlace(c + gap + pending)
    ensures Num(pending[0]) == |c| + |gap| + 1
  {
    assert pending[0] == (c + gap + pending)[|c| + |gap|];
  }

  // Two blocks, two more being processed and one pending: the loop over all five heights names
  // block 4 and the joined request does not.
  lemma JoinWithGapSkipsAHeight(c: seq<BlockId>, pending: seq<BlockId>)
    requires IsChain(c) && |c| == 2 && |pending| == 1 && Num(pending[0]) == 5
    ensures Heights(1, 5) == [1, 4, 5]
    ensures JoinedSynopsis(c, 1, pending) == [c[0], pending[0]]
  {
    assert HeightsUpTo(4, 5, 5) == [4] + HeightsUpTo(5, 5, 5);
    assert PendingSample(pending, 5, 4) == PendingSample(pending, 5, 5);
    assert PendingSample(pending, 5, 1) == [pending[0]];
    assert HeightsUpTo(1, 2, 3) == [1];
    JoinedStartsLow(c, 1, pending);
    ChainSynopsisEntries(c, 1, 1);
  }
}
