/** The blockchain synopsis: which block ids a node names when it asks a peer for more.

    The delegate and the network code each run the same halving loop over a different part
    of the chain. Here each loop is a method that is proved against one simple description:
    the blocks at the heights `Heights` lists. */
module Synopsis {
  import opened Wrappers
  import opened Chain
  import opened Sequences

  // PendingIndexOutOfRange: the request loop would read past the end of the pending ids.
  datatype SynopsisError = UnknownReference | BlockOlderThanUndoHistory | PendingIndexOutOfRange

  // ---------- The halving recurrence ----------

  function NextHeight(low: nat, trueHigh: nat): (next: nat)
    requires low <= trueHigh
    ensures low < next <= trueHigh + 1
  {
    low + (trueHigh - low + 2) / 2
  }

  // The heights the recurrence visits from low, up to limit.
  function HeightsUpTo(low: nat, limit: nat, trueHigh: nat): seq<nat>
    requires limit <= trueHigh
    decreases limit + 1 - low
  {
    if low > limit then [] else [low] + HeightsUpTo(NextHeight(low, trueHigh), limit, trueHigh)
  }

  function Heights(low: nat, trueHigh: nat): seq<nat> {
    HeightsUpTo(low, trueHigh, trueHigh)
  }

  function Pow2(n: nat): nat {
    if n == 0 then 1 else 2 * Pow2(n - 1)
  }

  ghost predicate StrictlyIncreasing(s: seq<nat>) {
    forall i, j :: 0 <= i < j < |s| ==> s[i] < s[j]
  }

  // Strictly increasing from low to exactly trueHigh, with floor(log2(n)) + 1 entries for n heights.
  lemma {:induction false} HeightsShape(low: nat, trueHigh: nat)
    requires low <= trueHigh
    ensures var h := Heights(low, trueHigh);
            && h != [] && h[0] == low && h[|h| - 1] == trueHigh
            && StrictlyIncreasing(h)
            && (forall i :: 0 <= i < |h| ==> low <= h[i] <= trueHigh)
            && Pow2(|h| - 1) <= trueHigh - low + 1 < Pow2(|h|)
    decreases trueHigh - low
  {
    var next := NextHeight(low, trueHigh);
    if low < trueHigh {
      HeightsShape(next, trueHigh);
      var rest := Heights(next, trueHigh);
      assert trueHigh - next + 1 == (trueHigh - low + 1) / 2;
      assert Heights(low, trueHigh) == [low] + rest;
    } else {
      assert HeightsUpTo(next, trueHigh, trueHigh) == [];
      assert Heights(low, trueHigh) == [low];
      assert Pow2(1) == 2;
    }
  }

  // For every height f the recurrence visits some e <= f with at most as many heights
  // between e and f as between f and the end.
  lemma {:induction false} HeightsHalveTheGap(low: nat, f: nat, trueHigh: nat) returns (e: nat)
    requires low <= f <= trueHigh
    ensures e in Heights(low, trueHigh) && low <= e <= f
    ensures f - e <= trueHigh - f
    ensures forall h :: h in Heights(low, trueHigh) && h <= f ==> h <= e
    decreases trueHigh - low
  {
    var next := NextHeight(low, trueHigh);
    var rest := HeightsUpTo(next, trueHigh, trueHigh);
    assert Heights(low, trueHigh) == [low] + rest;
    if next <= f {
      e := HeightsHalveTheGap(next, f, trueHigh);
    } else {
      e := low;
      if next <= trueHigh {
        HeightsShape(next, trueHigh);
      }
    }
  }

  // Of the heights the recurrence visits from low, those at or above first.
  function HeightsFrom(first: nat, low: nat, trueHigh: nat): seq<nat>
    decreases trueHigh + 1 - low
  {
    if low > trueHigh then []
    else (if low >= first then [low] else []) + HeightsFrom(first, NextHeight(low, trueHigh), trueHigh)
  }

  lemma {:induction false} HeightsSplit(low: nat, limit: nat, trueHigh: nat)
    requires limit <= trueHigh
    ensures HeightsUpTo(low, limit, trueHigh) + HeightsFrom(limit + 1, low, trueHigh) == Heights(low, trueHigh)
    decreases trueHigh + 1 - low
  {
    if low <= trueHigh {
      var next := NextHeight(low, trueHigh);
      HeightsSplit(next, limit, trueHigh);
      var below, above := HeightsUpTo(next, limit, trueHigh), HeightsFrom(limit + 1, next, trueHigh);
      if low > limit {
        assert below == [] && [] + above == above;
        assert [] + ([low] + above) == [low] + above;
      } else {
        Regroup(low, below, above);
      }
    }
  }

  lemma Regroup(h: nat, below: seq<nat>, above: seq<nat>)
    ensures [h] + (below + above) == ([h] + below) + ([] + above)
  {
  }

  lemma {:induction false} HeightsFromShape(first: nat, low: nat, trueHigh: nat)
    requires low <= trueHigh && first <= trueHigh
    ensures var h := HeightsFrom(first, low, trueHigh);
            && h != [] && h[|h| - 1] == trueHigh && StrictlyIncreasing(h)
            && forall i :: 0 <= i < |h| ==> low <= h[i] <= trueHigh && first <= h[i]
    decreases trueHigh - low
  {
    var next := NextHeight(low, trueHigh);
    var here := if low >= first then [low] else [];
    var rest := HeightsFrom(first, next, trueHigh);
    assert HeightsFrom(first, low, trueHigh) == here + rest;
    if low < trueHigh {
      HeightsFromShape(first, next, trueHigh);
      assert (here + rest)[|here + rest| - 1] == rest[|rest| - 1];
    } else {
      assert rest == [];
    }
  }

  // ---------- The delegate's half ----------

  function BlocksAt(c: seq<BlockId>, heights: seq<nat>): (s: seq<BlockId>)
    requires forall h :: h in heights ==> 1 <= h <= |c|
    ensures |s| == |heights|
  {
    seq(|heights|, i requires 0 <= i < |heights| => assert heights[i] in heights; c[heights[i] - 1])
  }

  lemma {:induction false} HeightsUpToBounds(low: nat, limit: nat, trueHigh: nat)
    requires limit <= trueHigh
    ensures forall h :: h in HeightsUpTo(low, limit, trueHigh) ==> low <= h <= limit
    decreases limit + 1 - low
  {
    if low <= limit {
      HeightsUpToBounds(NextHeight(low, trueHigh), limit, trueHigh);
    }
  }

  // How many blocks from the bottom two chains have in common.
  function CommonHeight(a: seq<BlockId>, b: seq<BlockId>): (n: nat)
    ensures n <= |a| && n <= |b|
    ensures forall i :: 0 <= i < n ==> a[i] == b[i]
    ensures n < |a| && n < |b| ==> a[n] != b[n]
  {
    CommonFrom(a, b, 0)
  }

  function CommonFrom(a: seq<BlockId>, b: seq<BlockId>, from: nat): (n: nat)
    requires from <= |a| && from <= |b|
    requires forall i :: 0 <= i < from ==> a[i] == b[i]
    ensures from <= n <= |a| && n <= |b|
    ensures forall i :: 0 <= i < n ==> a[i] == b[i]
    ensures n < |a| && n < |b| ==> a[n] != b[n]
    decreases |a| - from
  {
    if from == |a| || from == |b| || a[from] != b[from] then from else CommonFrom(a, b, from + 1)
  }

  // The first height the delegate names: the last block it cannot undo, or the reference
  // block when that is older; block 1 when everything can be undone.
  function LowHeight(db: ChainState, reference: BlockId): (low: nat)
    ensures low >= 1
  {
    var low := if reference != Zero && db.IsIncluded(reference) && Num(reference) < db.lastIrreversible
               then Num(reference) else db.lastIrreversible;
    if low == 0 then 1 else low
  }

  // The chain that is summarised: up to the reference block, wherever it is, or to our head.
  function SummarisedChain(db: ChainState, reference: BlockId): seq<BlockId> {
    if reference == Zero then db.main else ChainOf(reference)
  }

  ghost predicate TooOldToSwitch(db: ChainState, reference: BlockId) {
    && reference != Zero && !db.IsIncluded(reference)
    && CommonHeight(ChainOf(reference), db.main) < db.lastIrreversible
  }

  ghost function WhyNoSynopsis(db: ChainState, reference: BlockId): Option<SynopsisError> {
    if reference != Zero && reference !in db.known then Some(UnknownReference)
    else if TooOldToSwitch(db, reference) then Some(BlockOlderThanUndoHistory)
    else None
  }

  // What get_blockchain_synopsis has to return, read off the one chain being summarised.
  ghost function SynopsisOf(db: ChainState, reference: BlockId, following: nat): Result<seq<BlockId>, SynopsisError> {
    match WhyNoSynopsis(db, reference)
    case Some(e) => Failure(e)
    case None => Success(ChainSynopsis(SummarisedChain(db, reference), LowHeight(db, reference), following))
  }

  ghost function ChainSynopsis(c: seq<BlockId>, low: nat, following: nat): seq<BlockId>
    requires 1 <= low
  {
    HeightsUpToBounds(low, |c|, |c| + following);
    BlocksAt(c, HeightsUpTo(low, |c|, |c| + following))
  }

  lemma LowHeightInChain(db: ChainState, reference: BlockId)
    requires db.Valid() && WhyNoSynopsis(db, reference) == None
    ensures SummarisedChain(db, reference) != [] ==>
              LowHeight(db, reference) <= |SummarisedChain(db, reference)|
  {
  }

  // Walks down from the head to the block at the height of the fork's head.
  method DescendTo(main: seq<BlockId>, height: nat) returns (first: BlockId)
    requires IsChain(main) && 1 <= height <= |main|
    ensures first == main[height - 1]
  {
    ghost var j := |main|;
    TipNumber(main, j);
    first := main[|main| - 1];
    while Num(first) > height
      invariant height <= j <= |main| && first == TipAt(main, j) && Num(first) == j
    {
      assert Links(main, j - 1);
      first := first.previous;
      j := j - 1;
      TipNumber(main, j);
    }
  }

  // Walks both branches down until they meet.
  method MeetBelow(main: seq<BlockId>, ghost c: seq<BlockId>, firstBranch: BlockId, secondBranch: BlockId)
    returns (result: seq<BlockId>)
    requires IsChain(main) && IsChain(c) && 1 <= |c| <= |main|
    requires firstBranch == main[|c| - 1] && secondBranch == c[|c| - 1] && firstBranch != secondBranch
    ensures IsForkHistory(c, main, result)
  {
    var first, second := firstBranch, secondBranch;
    ghost var j := |c|;
    result := [];
    assert Links(c, j - 1) && Links(main, j - 1);
    while first.previous != second.previous
      invariant 1 <= j <= |c| && Links(c, j - 1) && Links(main, j - 1)
      invariant first == main[j - 1] && second == c[j - 1]
      invariant first != second
      invariant |result| == |c| - j
      invariant forall k :: 0 <= k < |result| ==> result[k] == c[|c| - 1 - k]
      decreases j
    {
      result := result + [second];
      first, second := first.previous, second.previous;
      j := j - 1;
      assert Links(c, j - 1) && Links(main, j - 1);
    }
    MetBelow(c, main, j - 1);
    result := result + [second, second.previous];
  }

  // get_block_ids_on_fork: the reference point comes first, the common ancestor (zero when
  // the fork goes back to genesis) last.
  method GetBlockIdsOnFork(db: ChainState, headOfFork: BlockId) returns (result: seq<BlockId>)
    requires db.Valid() && headOfFork in db.known && !db.IsIncluded(headOfFork)
    ensures IsForkHistory(ChainOf(headOfFork), db.main, result)
  {
    ChainOfIsChain(headOfFork);
    var first := DescendTo(db.main, Num(headOfFork));
    result := MeetBelow(db.main, ChainOf(headOfFork), first, headOfFork);
  }

  // The blocks of c above what it shares with main, newest first, then the last shared id.
  ghost predicate IsForkHistory(c: seq<BlockId>, main: seq<BlockId>, history: seq<BlockId>) {
    var n := CommonHeight(c, main);
    && |history| == |c| - n + 1 >= 2
    && history[|history| - 1] == TipAt(c, n)
    && forall k :: 0 <= k < |history| - 1 ==> history[k] == c[|c| - 1 - k]
  }

  lemma TipNumber(c: seq<BlockId>, i: nat)
    requires IsChain(c) && i <= |c|
    ensures Num(TipAt(c, i)) == i
  {
    if i > 0 {
      ChainPrefix(c, i - 1);
    }
  }

  // Two chains that build on the same id but then differ have exactly that much in common.
  lemma MetBelow(a: seq<BlockId>, b: seq<BlockId>, n: nat)
    requires IsChain(a) && IsChain(b) && n < |a| && n < |b|
    requires TipAt(a, n) == TipAt(b, n) && a[n] != b[n]
    ensures CommonHeight(a, b) == n
  {
    if n > 0 {
      SharedIdSharesHistory(a, b, n - 1, n - 1);
      assert forall i :: 0 <= i < n ==> a[i] == a[..n][i];
      assert forall i :: 0 <= i < n ==> b[i] == b[..n][i];
    }
  }

  // Where get_blockchain_synopsis takes its blocks from: heights low..nonForkHigh from the
  // preferred chain, heights above that from forkHistory.
  datatype SynopsisRange = SynopsisRange(low: nat, nonForkHigh: nat, forkHistory: seq<BlockId>)

  ghost predicate Covers(range: SynopsisRange, main: seq<BlockId>, c: seq<BlockId>) {
    && 1 <= range.low
    && range.nonForkHigh <= |main| && range.nonForkHigh <= |c|
    && c[..range.nonForkHigh] == main[..range.nonForkHigh]
    && c[range.nonForkHigh..] == range.forkHistory
  }

  lemma ForkHistoryReversed(c: seq<BlockId>, main: seq<BlockId>, history: seq<BlockId>)
    requires IsChain(c) && IsForkHistory(c, main, history)
    ensures var n := CommonHeight(c, main);
            && |history| >= 2 && Num(history[|history| - 1]) == n
            && Reversed(history[..|history| - 1]) == c[n..]
            && c[..n] == main[..n]
  {
    TipNumber(c, CommonHeight(c, main));
  }

  method LocateReference(db: ChainState, referencePoint: BlockId) returns (r: Result<SynopsisRange, SynopsisError>)
    requires db.Valid()
    requires referencePoint == Zero ==> db.main != []
    ensures match WhyNoSynopsis(db, referencePoint)
            case Some(e) => r == Failure(e)
            case None =>
              && r.Success? && r.value.low == LowHeight(db, referencePoint)
              && Covers(r.value, db.main, SummarisedChain(db, referencePoint))
  {
    hide Reversed, IsForkHistory, CommonFrom, ChainOf, Num;
    var low := db.lastIrreversible;
    var forkHistory: seq<BlockId> := [];
    var nonForkHigh;
    if referencePoint != Zero {
      if db.IsIncluded(referencePoint) {
        nonForkHigh := Num(referencePoint);
        if nonForkHigh < low {
          low := nonForkHigh;
        }
        IncludedIsPrefix(db, referencePoint);
      } else {
        if referencePoint !in db.known {
          return Failure(UnknownReference);
        }
        var history := GetBlockIdsOnFork(db, referencePoint);
        ChainOfIsChain(referencePoint);
        ForkHistoryReversed(ChainOf(referencePoint), db.main, history);
        forkHistory := Reversed(history[..|history| - 1]);
        nonForkHigh := Num(history[|history| - 1]);
        if nonForkHigh < low {
          return Failure(BlockOlderThanUndoHistory);
        }
      }
    } else {
      nonForkHigh := db.HeadNum();
    }
    r := Success(SynopsisRange(if low == 0 then 1 else low, nonForkHigh, forkHistory));
  }

  // ---------- Where a synopsis begins and ends, and when there is none ----------

  // The block a summary leads up to.
  function SummaryTip(db: ChainState, reference: BlockId): BlockId
    requires reference == Zero ==> db.main != []
  {
    if reference == Zero then db.main[|db.main| - 1] else reference
  }

  // A synopsis begins at the reference block when that is on the preferred chain and older than
  // the last irreversible block, else at the last irreversible block, or at block 1 when there is
  // none. It names only the reference block, or without one our head, and blocks below it, and
  // ends there when nothing follows.
  lemma SynopsisBeginsAndEnds(db: ChainState, reference: BlockId, following: nat)
    requires db.Valid() && SynopsisOf(db, reference, following).Success?
    requires reference == Zero ==> db.main != []
    ensures var s := SynopsisOf(db, reference, following).value;
            && s != []
            && (if reference in db.main && Num(reference) < db.lastIrreversible then s[0] == reference
                else if db.lastIrreversible > 0 then s[0] == db.main[db.lastIrreversible - 1]
                else Num(s[0]) == 1)
            && (forall id :: id in s ==> id in ChainOf(SummaryTip(db, reference)))
            && (following == 0 ==> s[|s| - 1] == SummaryTip(db, reference))
  {
    hide HeightsUpTo, ChainSynopsis, StrictlyIncreasing, LowHeight, CommonFrom, SummarisedChain, TooOldToSwitch, ChainState.Valid, ChainOf, Num, IsChain;
    var c, low := SummarisedChain(db, reference), LowHeight(db, reference);
    SummarisedEnds(db, reference);
    LowestBlock(db, reference);
    ChainSynopsisEntries(c, low, following);
    assert SynopsisOf(db, reference, following).value == ChainSynopsis(c, low, following);
  }

  lemma SummarisedEnds(db: ChainState, reference: BlockId)
    requires db.Valid() && (reference == Zero ==> db.main != [])
    ensures var c := SummarisedChain(db, reference);
            c == ChainOf(SummaryTip(db, reference)) && IsChain(c) && c != [] && c[|c| - 1] == SummaryTip(db, reference)
  {
    if reference == Zero {
      ChainPrefix(db.main, |db.main| - 1);
      assert db.main[..|db.main|] == db.main;
    } else {
      ChainOfIsChain(reference);
    }
  }

  lemma IncludedIffOnMain(db: ChainState, id: BlockId)
    requires IsChain(db.main)
    ensures id in db.main <==> db.IsIncluded(id)
  {
    ChainNumbers(db.main);
  }

  // The block at the lowest height.
  lemma LowestBlock(db: ChainState, reference: BlockId)
    requires db.Valid() && WhyNoSynopsis(db, reference) == None && (reference == Zero ==> db.main != [])
    ensures var c, low := SummarisedChain(db, reference), LowHeight(db, reference);
            && low <= |c| && db.lastIrreversible <= |db.main|
            && if reference in db.main && Num(reference) < db.lastIrreversible then c[low - 1] == reference
               else if db.lastIrreversible > 0 then c[low - 1] == db.main[db.lastIrreversible - 1]
               else low == 1 && Num(c[low - 1]) == 1
  {
    hide CommonFrom, AncestorClosed;
    IncludedIffOnMain(db, reference);
    SummarisedEnds(db, reference);
    LowHeightInChain(db, reference);
    ChainNumbers(SummarisedChain(db, reference));
    if reference != Zero && db.IsIncluded(reference) {
      IncludedIsPrefix(db, reference);
    }
  }

  // No synopsis can be made exactly when the reference block is unknown, or is on a fork whose
  // history does not contain the last irreversible block.
  lemma NoSynopsisIff(db: ChainState, reference: BlockId, following: nat)
    requires db.Valid()
    ensures SynopsisOf(db, reference, following) == Failure(UnknownReference) <==>
            reference != Zero && reference !in db.known
    ensures SynopsisOf(db, reference, following) == Failure(BlockOlderThanUndoHistory) <==>
            && reference in db.known && reference !in db.main
            && db.lastIrreversible > 0 && db.main[db.lastIrreversible - 1] !in ChainOf(reference)
  {
    hide ChainSynopsis, LowHeight, ChainOf, Num, IsChain;
    IncludedIffOnMain(db, reference);
    ChainOfIsChain(reference);
    if db.lastIrreversible > 0 {
      SharesIff(ChainOf(reference), db.main, db.lastIrreversible);
    }
  }

  lemma SharesIff(c: seq<BlockId>, main: seq<BlockId>, n: nat)
    requires IsChain(c) && IsChain(main) && 1 <= n <= |main|
    ensures CommonHeight(c, main) >= n <==> main[n - 1] in c
  {
    hide CommonFrom, IsChain;
    if CommonHeight(c, main) >= n {
      assert c[n - 1] == main[n - 1];
    }
    if main[n - 1] in c {
      var k :| 0 <= k < |c| && c[k] == main[n - 1];
      SharedIdSharesHistory(c, main, k, n - 1);
      assert forall i :: 0 <= i < n ==> c[i] == c[..n][i] && main[i] == main[..n][i];
    }
  }

  // The loop's own reading of BlocksAt.
  function Sample(c: seq<BlockId>, low: nat, trueHigh: nat): seq<BlockId>
    requires 1 <= low && |c| <= trueHigh
    decreases |c| + 1 - low
  {
    if low > |c| then [] else [c[low - 1]] + Sample(c, NextHeight(low, trueHigh), trueHigh)
  }

  lemma SampleStep(c: seq<BlockId>, done: seq<BlockId>, low: nat, trueHigh: nat)
    requires 1 <= low <= |c| <= trueHigh
    ensures done + Sample(c, low, trueHigh) == done + [c[low - 1]] + Sample(c, NextHeight(low, trueHigh), trueHigh)
  {
  }

  lemma {:induction false} SampleIsBlocksAt(c: seq<BlockId>, low: nat, trueHigh: nat)
    requires 1 <= low && |c| <= trueHigh
    ensures forall h :: h in HeightsUpTo(low, |c|, trueHigh) ==> 1 <= h <= |c|
    ensures Sample(c, low, trueHigh) == BlocksAt(c, HeightsUpTo(low, |c|, trueHigh))
    decreases |c| + 1 - low
  {
    hide NextHeight, BlocksAt;
    HeightsUpToBounds(low, |c|, trueHigh);
    if low <= |c| {
      var next := NextHeight(low, trueHigh);
      SampleIsBlocksAt(c, next, trueHigh);
      BlocksAtPrepend(c, low, HeightsUpTo(next, |c|, trueHigh));
    } else {
      assert BlocksAt(c, []) == [];
    }
  }

  lemma BlocksAtPrepend(c: seq<BlockId>, h: nat, rest: seq<nat>)
    requires 1 <= h <= |c| && forall k :: k in rest ==> 1 <= k <= |c|
    ensures forall k :: k in [h] + rest ==> 1 <= k <= |c|
    ensures BlocksAt(c, [h] + rest) == [c[h - 1]] + BlocksAt(c, rest)
  {
  }

  method CollectSynopsis(main: seq<BlockId>, range: SynopsisRange, following: nat, ghost c: seq<BlockId>)
    returns (synopsis: seq<BlockId>)
    requires Covers(range, main, c) && range.low <= |c|
    ensures synopsis == Sample(c, range.low, |c| + following)
  {
    var high := range.nonForkHigh + |range.forkHistory|;
    var trueHigh := high + following;
    var low := range.low;
    synopsis := [];
    hide Sample;
    assert [] + Sample(c, low, trueHigh) == Sample(c, low, trueHigh);
    assert forall i :: 0 <= i < range.nonForkHigh ==> main[i] == c[..range.nonForkHigh][i] == c[i];
    assert forall i :: range.nonForkHigh <= i < high ==> range.forkHistory[i - range.nonForkHigh] == c[i];
    var more := true;
    while more
      invariant 1 <= low <= trueHigh + 1 && more == (low <= high)
      invariant synopsis + Sample(c, low, trueHigh) == Sample(c, range.low, trueHigh)
      decreases trueHigh + 1 - low
    {
      ghost var before := synopsis;
      if low <= range.nonForkHigh {
        synopsis := synopsis + [main[low - 1]];
      } else {
        synopsis := synopsis + [range.forkHistory[low - range.nonForkHigh - 1]];
      }
      assert synopsis == before + [c[low - 1]];
      SampleStep(c, before, low, trueHigh);
      low := low + (trueHigh - low + 2) / 2;
      more := low <= high;
    }
    SampleEnds(c, low, trueHigh);
    assert synopsis + [] == synopsis;
  }

  lemma SampleEnds(c: seq<BlockId>, low: nat, trueHigh: nat)
    requires |c| < low && |c| <= trueHigh
    ensures Sample(c, low, trueHigh) == []
  {
  }

  lemma SynopsisBySampling(db: ChainState, reference: BlockId, following: nat)
    requires WhyNoSynopsis(db, reference) == None
    ensures var c := SummarisedChain(db, reference);
            var r := SynopsisOf(db, reference, following);
            r.Success? && r.value == Sample(c, LowHeight(db, reference), |c| + following)
  {
    var c := SummarisedChain(db, reference);
    SampleIsBlocksAt(c, LowHeight(db, reference), |c| + following);
  }

  // get_blockchain_synopsis.
  method GetBlockchainSynopsis(db: ChainState, referencePoint: BlockId, following: nat)
    returns (r: Result<seq<BlockId>, SynopsisError>)
    requires db.Valid()
    ensures r == SynopsisOf(db, referencePoint, following)
  {
    if referencePoint == Zero && db.HeadNum() == 0 {
      SynopsisBySampling(db, referencePoint, following);
      return Success([]);
    }
    var located := LocateReference(db, referencePoint);
    if located.Failure? {
      return Failure(located.error);
    }
    var range := located.value;
    ghost var c := SummarisedChain(db, referencePoint);
    LowHeightInChain(db, referencePoint);
    NonEmptyChain(db, referencePoint);
    var synopsis := CollectSynopsis(db.main, range, following, c);
    r := Success(synopsis);
    SynopsisBySampling(db, referencePoint, following);
  }

  lemma NonEmptyChain(db: ChainState, reference: BlockId)
    requires reference == Zero ==> db.main != []
    ensures SummarisedChain(db, reference) != []
  {
  }

  // The delegate's entries: each is the block of the height it stands for, heights rise
  // strictly, and without following ids the last entry is the last block summarised.
  lemma ChainSynopsisEntries(c: seq<BlockId>, low: nat, following: nat)
    requires IsChain(c) && 1 <= low
    ensures var h := HeightsUpTo(low, |c|, |c| + following);
            var s := ChainSynopsis(c, low, following);
            && |s| == |h| && StrictlyIncreasing(h)
            && (forall i :: 0 <= i < |h| ==> low <= h[i] <= |c| && s[i] == c[h[i] - 1] && Num(s[i]) == h[i])
            && (low <= |c| ==> s != [] && h[0] == low)
            && (low <= |c| && following == 0 ==> h[|h| - 1] == |c| && s[|s| - 1] == c[|c| - 1])
  {
    hide HeightsUpTo, StrictlyIncreasing, ChainSynopsis, Num, IsChain;
    var trueHigh := |c| + following;
    ChainSynopsisReads(c, low, following);
    HeightsUpToRise(low, |c|, trueHigh);
    ChainNumbers(c);
    if low <= |c| && following == 0 {
      LastHeight(low, |c|);
    }
  }

  lemma ChainSynopsisReads(c: seq<BlockId>, low: nat, following: nat)
    requires 1 <= low
    ensures var h := HeightsUpTo(low, |c|, |c| + following);
            var s := ChainSynopsis(c, low, following);
            && |s| == |h|
            && forall i :: 0 <= i < |h| ==> low <= h[i] <= |c| && s[i] == c[h[i] - 1]
  {
    hide HeightsUpTo;
    HeightsUpToBounds(low, |c|, |c| + following);
    var h := HeightsUpTo(low, |c|, |c| + following);
    forall i | 0 <= i < |h| ensures low <= h[i] <= |c| {
      assert h[i] in h;
    }
  }

  lemma LastHeight(low: nat, high: nat)
    requires low <= high
    ensures HeightsUpTo(low, high, high) != [] && HeightsUpTo(low, high, high)[|HeightsUpTo(low, high, high)| - 1] == high
  {
    hide HeightsUpTo, StrictlyIncreasing;
    HeightsShape(low, high);
  }

  lemma {:induction false} HeightsUpToRise(low: nat, limit: nat, trueHigh: nat)
    requires limit <= trueHigh
    ensures StrictlyIncreasing(HeightsUpTo(low, limit, trueHigh))
    ensures low <= limit ==> HeightsUpTo(low, limit, trueHigh) != [] && HeightsUpTo(low, limit, trueHigh)[0] == low
    decreases limit + 1 - low
  {
    if low <= limit {
      var next := NextHeight(low, trueHigh);
      var rest := HeightsUpTo(next, limit, trueHigh);
      HeightsUpToRise(next, limit, trueHigh);
      HeightsUpToBounds(next, limit, trueHigh);
      assert forall i :: 0 <= i < |rest| ==> rest[i] in rest;
    }
  }
}
