/** How much a responder repeats when the requester is on a fork. */
module ResyncCost {
  import opened Wrappers
  import opened Chain
  import opened Synopsis
  import opened SyncPeer
  import opened BlockIdServer

  lemma OnlySharedBlocksRecognised(ours: seq<BlockId>, server: ChainState, h: nat)
    requires server.Valid() && IsChain(ours) && 1 <= h <= |ours|
    ensures Recognised(server, ours[h - 1]) <==> h <= CommonHeight(ours, server.main)
  {
    var theirs := server.main;
    var f := CommonHeight(ours, theirs);
    ChainPrefix(ours, h - 1);
    assert Links(ours, h - 1);
    if h <= f {
      assert theirs[h - 1] in server.known;
    } else if Recognised(server, ours[h - 1]) {
      SharedIdSharesHistory(ours, theirs, h - 1, h - 1);
    }
  }

  // In a synopsis of rising heights the highest recognised entry is the one at height e.
  lemma HighestShared(ours: seq<BlockId>, server: ChainState, s: seq<BlockId>, hs: seq<nat>, e: nat)
    requires server.Valid() && IsChain(ours) && StandFor(s, hs, ours) && StrictlyIncreasing(hs)
    requires e in hs && e <= CommonHeight(ours, server.main)
    requires forall i :: 0 <= i < |hs| && hs[i] <= CommonHeight(ours, server.main) ==> hs[i] <= e
    ensures LastRecognised(server, s) == Some(ours[e - 1])
  {
    hide CommonFrom, IsChain, ChainState.Valid, Recognised, LastRecognised;
    var i :| 0 <= i < |hs| && hs[i] == e;
    OnlySharedBlocksRecognised(ours, server, e);
    var k := LastAtOrAfter(server, s, i);
    OnlySharedBlocksRecognised(ours, server, hs[k]);
  }

  lemma LastAtOrAfter(server: ChainState, s: seq<BlockId>, i: nat) returns (k: nat)
    requires i < |s| && Recognised(server, s[i])
    ensures i <= k < |s| && Recognised(server, s[k]) && LastRecognised(server, s) == Some(s[k])
  {
    hide Recognised, LastRecognised;
    assert s[i] in s;
    var last := LastRecognised(server, s).value;
    k :| 0 <= k < |s| && s[k] == last && NoneRecognisedAfter(server, s, k);
  }

  // ---------- The heights a request names ----------

  // Of size blocks summarised from low, g being processed after them and p pending after those:
  // the delegate's heights, then the node's.
  function NamedHeights(size: nat, low: nat, g: nat, p: nat): seq<nat> {
    HeightsUpTo(low, size, size + p) + if p == 0 then [] else HeightsFrom(size + g + 1, low, size + g + p)
  }

  // What Summarisable and a common block say of the lengths: there is something to start from.
  predicate StartsSomewhere(size: nat, low: nat, g: nat) {
    1 <= low && (low <= size || (size == 0 && low == 1 && g == 0))
  }

  lemma NamedHeightsRise(size: nat, low: nat, g: nat, p: nat)
    requires StartsSomewhere(size, low, g)
    ensures StrictlyIncreasing(NamedHeights(size, low, g, p))
  {
    hide HeightsUpTo, HeightsFrom;
    var below := HeightsUpTo(low, size, size + p);
    HeightsUpToRise(low, size, size + p);
    HeightsUpToBounds(low, size, size + p);
    assert forall i :: 0 <= i < |below| ==> below[i] in below;
    if p > 0 {
      HeightsFromShape(size + g + 1, low, size + g + p);
    }
  }

  ghost predicate Splits(all: seq<nat>, below: seq<nat>, above: seq<nat>, limit: nat) {
    && (forall h :: h in below ==> h in all && h <= limit)
    && (forall h :: h in above ==> h in all && h > limit)
    && (forall h :: h in all ==> if h <= limit then h in below else h in above)
  }

  lemma BelowAndAbove(low: nat, limit: nat, trueHigh: nat)
    requires limit <= trueHigh && low <= trueHigh
    ensures Splits(Heights(low, trueHigh), HeightsUpTo(low, limit, trueHigh), HeightsFrom(limit + 1, low, trueHigh), limit)
  {
    hide HeightsUpTo, HeightsFrom, Heights;
    HeightsSplit(low, limit, trueHigh);
    HeightsUpToBounds(low, limit, trueHigh);
    var below, above := HeightsUpTo(low, limit, trueHigh), HeightsFrom(limit + 1, low, trueHigh);
    assert forall h :: h in Heights(low, trueHigh) <==> h in below || h in above;
    if limit < trueHigh {
      HeightsFromShape(limit + 1, low, trueHigh);
    } else {
      NoneAboveEnd(low, trueHigh);
    }
  }

  lemma {:induction false} NoneAboveEnd(low: nat, trueHigh: nat)
    ensures HeightsFrom(trueHigh + 1, low, trueHigh) == []
    decreases trueHigh + 1 - low
  {
    if low <= trueHigh {
      NoneAboveEnd(NextHeight(low, trueHigh), trueHigh);
    }
  }

  // How far below f the highest height named at or below it can be.
  ghost predicate Near(size: nat, g: nat, p: nat, f: nat, e: nat) {
    && (if f <= size then f - e <= size + p - f else f - e <= f - size + p)
    && (g == 0 ==> f - e <= size + p - f)
  }

  ghost predicate HighestAt(heights: seq<nat>, f: nat, e: nat) {
    e in heights && e <= f && forall h :: h in heights && h <= f ==> h <= e
  }

  // At or below the summarised blocks the delegate's recurrence decides.
  lemma HighestBelow(size: nat, low: nat, g: nat, p: nat, f: nat) returns (e: nat)
    requires 1 <= low <= f <= size
    ensures HighestAt(NamedHeights(size, low, g, p), f, e) && low <= e && f - e <= size + p - f
  {
    hide HeightsUpTo, HeightsFrom, Heights;
    e := HeightsHalveTheGap(low, f, size + p);
    BelowAndAbove(low, size, size + p);
    if p > 0 {
      HeightsFromShape(size + g + 1, low, size + g + p);
    }
  }

  // Above them the node's recurrence does, if it names a pending id that low.
  lemma HighestAbove(size: nat, low: nat, g: nat, p: nat, f: nat) returns (e: nat)
    requires 1 <= low <= size < f <= size + g + p
    ensures HighestAt(NamedHeights(size, low, g, p), f, e) && low <= e && Near(size, g, p, f, e)
  {
    hide HeightsUpTo, HeightsFrom, Heights;
    var below := HighestBelow(size, low, g, p, size);
    var above := HeightsHalveTheGap(low, f, size + g + p);
    BelowAndAbove(low, size, size + p);
    BelowAndAbove(low, size + g, size + g + p);
    if p > 0 && above > size + g {
      e := above;
    } else {
      e := below;
      if g == 0 {
        assert above in HeightsUpTo(low, size, size + p);
        assert above in NamedHeights(size, low, g, p);
      }
    }
  }

  lemma HighestNamed(size: nat, low: nat, g: nat, p: nat, f: nat) returns (e: nat)
    requires StartsSomewhere(size, low, g) && low <= f <= size + g + p
    ensures HighestAt(NamedHeights(size, low, g, p), f, e) && low <= e && Near(size, g, p, f, e)
  {
    hide HeightsUpTo, HeightsFrom, Heights, NamedHeights, HighestAt;
    if size == 0 {
      e := HighestOfPending(p, f);
    } else if f <= size {
      e := HighestBelow(size, low, g, p, f);
    } else {
      e := HighestAbove(size, low, g, p, f);
    }
  }

  // A node without blocks names the heights of one loop over the pending ids.
  lemma HighestOfPending(p: nat, f: nat) returns (e: nat)
    requires 1 <= f <= p
    ensures HighestAt(NamedHeights(0, 1, 0, p), f, e) && 1 <= e && f - e <= p - f
  {
    hide HeightsFrom, Heights;
    e := HeightsHalveTheGap(1, f, p);
    assert HeightsUpTo(1, 0, p) == [];
    BelowAndAbove(1, 0, p);
  }

  // The bound is met: five blocks summarised, two being processed, four pending, and a fork after
  // the ninth block. The request names blocks 1, 10 and 11, so eight blocks are offered again
  // although the requester has only two past the fork.
  lemma GapCanCost()
    ensures NamedHeights(5, 1, 2, 4) == [1, 10, 11]
    ensures HighestAt(NamedHeights(5, 1, 2, 4), 9, 1) && 9 - 1 == 9 - 5 + 4
  {
    hide HeightsFrom, HeightsUpTo;
    FirstHeightOnly(1, 5, 9);
    NodeHeights(8, 11);
    assert [1] + [10, 11] == [1, 10, 11];
  }

  lemma NodeHeights(first: nat, trueHigh: nat)
    requires first == 8 && trueHigh == 11
    ensures HeightsFrom(first, 1, trueHigh) == [10, 11]
  {
    hide HeightsFrom;
    HeightsFromStep(first, 1, trueHigh, 7);
    HeightsFromStep(first, 7, trueHigh, 10);
    HeightsFromStep(first, 10, trueHigh, 11);
    HeightsFromStep(first, 11, trueHigh, 12);
    NothingFrom(first, 12, trueHigh);
  }

  lemma FirstHeightOnly(low: nat, limit: nat, trueHigh: nat)
    requires low <= limit <= trueHigh && trueHigh - low >= 2 * (limit - low)
    ensures HeightsUpTo(low, limit, trueHigh) == [low]
  {
  }

  lemma HeightsFromStep(first: nat, low: nat, trueHigh: nat, next: nat)
    requires low < next <= trueHigh + 1 && 0 <= trueHigh - low + 2 - 2 * (next - low) < 2
    ensures HeightsFrom(first, low, trueHigh) == (if low >= first then [low] else []) + HeightsFrom(first, next, trueHigh)
  {
  }

  // ---------- The request and its answer ----------

  lemma RequestStandsFor(c: seq<BlockId>, low: nat, gap: seq<BlockId>, pending: seq<BlockId>)
    requires Summarisable(c, low) && NumbersInPlace(c + gap + pending)
    ensures StandFor(JoinedSynopsis(c, low, pending), NamedHeights(|c|, low, |gap|, |pending|), c + gap + pending)
  {
    hide HeightsUpTo, HeightsFrom, ChainSynopsis, StandFor, NumbersInPlace, PendingSample;
    if pending != [] {
      JoinWithGapStandsFor(c, low, gap, pending);
    } else {
      ChainSynopsisStandsFor(c, low, 0);
      StandForLonger(ChainSynopsis(c, low, 0), HeightsUpTo(low, |c|, |c|), c, gap + pending);
      assert c + gap + pending == c + (gap + pending);
      assert NamedHeights(|c|, low, |gap|, 0) == HeightsUpTo(low, |c|, |c|);
    }
  }

  lemma PlacesOf(chain: seq<BlockId>)
    requires IsChain(chain)
    ensures NumbersInPlace(chain)
  {
    forall i | 0 <= i < |chain| ensures Num(chain[i]) == i + 1 {
      ChainPrefix(chain, i);
    }
  }

  lemma RequestIsMade(db: ChainState, lastSeen: BlockId, gap: seq<BlockId>, pending: seq<BlockId>)
    requires db.Valid() && WhyNoSynopsis(db, lastSeen) == None
    requires NumbersInPlace(SummarisedChain(db, lastSeen) + gap + pending)
    ensures SynopsisForPeer(db, lastSeen, pending) ==
            Success(JoinedSynopsis(SummarisedChain(db, lastSeen), LowHeight(db, lastSeen), pending))
  {
    hide JoinedSynopsis, ChainSynopsis, NumbersInPlace, SummarisedChain, LowHeight;
    SummaryIsSummarisable(db, lastSeen);
    if pending != [] {
      RequestInRangeIff(db, lastSeen, pending);
      PlaceOfPending(SummarisedChain(db, lastSeen), gap, pending);
    }
  }

  lemma NamedIffHeight(ours: seq<BlockId>, s: seq<BlockId>, hs: seq<nat>, h: nat)
    requires NumbersInPlace(ours) && StandFor(s, hs, ours) && 1 <= h <= |ours|
    ensures ours[h - 1] in s <==> h in hs
  {
    hide Num;
    if ours[h - 1] in s {
      var i :| 0 <= i < |s| && s[i] == ours[h - 1];
      assert Num(ours[hs[i] - 1]) == hs[i] && Num(ours[h - 1]) == h;
    }
    if h in hs {
      var i :| 0 <= i < |hs| && hs[i] == h;
      assert s[i] in s;
    }
  }

  // A requester on a fork: its summarised blocks, the blocks gap being processed after them and
  // the ids pending after those share the first f blocks with the responder. The reply starts at
  // the highest block e of the request at or below the fork. With nothing being processed, the
  // blocks offered again number at most the requester's own blocks past the fork. Otherwise a fork
  // among the summarised blocks costs at most the summarised and pending blocks past it, and a
  // fork above them at most its distance to the last of them and the number of pending ids.
  lemma ResyncCostBound(db: ChainState, lastSeen: BlockId, gap: seq<BlockId>, pending: seq<BlockId>, server: ChainState, limit: nat)
    returns (e: nat)
    requires db.Valid() && server.Valid() && WhyNoSynopsis(db, lastSeen) == None
    requires IsChain(SummarisedChain(db, lastSeen) + gap + pending)
    requires LowHeight(db, lastSeen) <= CommonHeight(SummarisedChain(db, lastSeen) + gap + pending, server.main)
    requires SummarisedChain(db, lastSeen) != [] || gap == []
    ensures var ours, r := SummarisedChain(db, lastSeen) + gap + pending, SynopsisForPeer(db, lastSeen, pending);
            var f := CommonHeight(ours, server.main);
            && r.Success? && LowHeight(db, lastSeen) <= e <= f && 1 <= e
            && ours[e - 1] in r.value && (forall k :: e <= k < f ==> ours[k] !in r.value)
            && AnswerTo(server, r.value, limit) == Success(OfferFrom(server.main, e, limit))
            && Near(|SummarisedChain(db, lastSeen)|, |gap|, |pending|, f, e)
  {
    hide JoinedSynopsis, NumbersInPlace, NamedHeights, StandFor, LowHeight, SummarisedChain, SynopsisForPeer, AnswerTo, IsChain, Near;
    var c, low := SummarisedChain(db, lastSeen), LowHeight(db, lastSeen);
    var ours := c + gap + pending;
    PlacesOf(ours);
    RequestIsMade(db, lastSeen, gap, pending);
    SummaryIsSummarisable(db, lastSeen);
    RequestStandsFor(c, low, gap, pending);
    e := AnswerStartsNear(ours, |c|, low, |gap|, |pending|, JoinedSynopsis(c, low, pending), server, limit);
  }

  lemma AnswerStartsNear(ours: seq<BlockId>, size: nat, low: nat, g: nat, p: nat, s: seq<BlockId>, server: ChainState, limit: nat)
    returns (e: nat)
    requires server.Valid() && IsChain(ours) && NumbersInPlace(ours) && StandFor(s, NamedHeights(size, low, g, p), ours)
    requires StartsSomewhere(size, low, g) && |ours| == size + g + p && low <= CommonHeight(ours, server.main)
    ensures var f := CommonHeight(ours, server.main);
            && low <= e <= f && Near(size, g, p, f, e)
            && ours[e - 1] in s && (forall k :: e <= k < f ==> ours[k] !in s)
            && AnswerTo(server, s, limit) == Success(OfferFrom(server.main, e, limit))
  {
    hide NumbersInPlace, NamedHeights, StandFor, AnswerTo, IsChain, Near, CommonFrom, ChainState.Valid, OfferFrom;
    var f, hs := CommonHeight(ours, server.main), NamedHeights(size, low, g, p);
    e := HighestNamed(size, low, g, p, f);
    NamedHeightsRise(size, low, g, p);
    assert forall i :: 0 <= i < |hs| ==> hs[i] in hs;
    HighestShared(ours, server, s, hs, e);
    AnswerByLast(ours, server, s, hs, e, limit);
    NamedIffHeight(ours, s, hs, e);
    forall k | e <= k < f ensures ours[k] !in s {
      NamedIffHeight(ours, s, hs, k + 1);
    }
  }

  lemma AnswerByLast(ours: seq<BlockId>, server: ChainState, s: seq<BlockId>, hs: seq<nat>, e: nat, limit: nat)
    requires IsChain(ours) && StandFor(s, hs, ours) && hs != [] && 1 <= e <= |ours| && e <= |server.main|
    requires LastRecognised(server, s) == Some(ours[e - 1])
    ensures AnswerTo(server, s, limit) == Success(OfferFrom(server.main, e, limit))
  {
    ChainPrefix(ours, e - 1);
    ChainPrefix(ours, hs[0] - 1);
    assert s[0] != Zero;
  }
}
