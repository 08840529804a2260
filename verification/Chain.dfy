/** Block ids and the chain a node knows.

    A block id is the hash of a header that contains the id of the previous block, with
    the block number stored in the id's first word. The hash is modelled as a free
    constructor: two ids are equal only when they were made from the same previous id and
    the same remaining header contents. */
module Chain {
  datatype BlockId = Zero | BlockId(previous: BlockId, digest: nat)

  // num_from_id. The header numbers a block one above the block it builds on.
  function Num(id: BlockId): nat {
    if id.Zero? then 0 else Num(id.previous) + 1
  }

  // All ids from block 1 up to and including id.
  function ChainOf(id: BlockId): (c: seq<BlockId>)
    ensures |c| == Num(id)
  {
    if id.Zero? then [] else ChainOf(id.previous) + [id]
  }

  // The id that the block after the first i blocks of c has to build on.
  function TipAt(c: seq<BlockId>, i: nat): BlockId
    requires i <= |c|
  {
    if i == 0 then Zero else c[i - 1]
  }

  ghost predicate Links(c: seq<BlockId>, i: nat)
    requires i < |c|
  {
    c[i].BlockId? && c[i].previous == TipAt(c, i)
  }

  ghost predicate IsChain(c: seq<BlockId>) {
    forall i :: 0 <= i < |c| ==> Links(c, i)
  }

  lemma {:induction false} ChainOfIsChain(id: BlockId)
    ensures IsChain(ChainOf(id))
    ensures id != Zero ==> ChainOf(id)[Num(id) - 1] == id
  {
    if id.BlockId? {
      ChainOfIsChain(id.previous);
      var below := ChainOf(id.previous);
      assert ChainOf(id) == below + [id];
      forall i | 0 <= i < |below| + 1 ensures Links(below + [id], i) {
        assert i < |below| ==> Links(below, i);
      }
    }
  }

  // Every element of a chain determines the chain below it and its own height.
  lemma {:induction false} ChainPrefix(c: seq<BlockId>, i: nat)
    requires IsChain(c) && i < |c|
    ensures Num(c[i]) == i + 1
    ensures ChainOf(c[i]) == c[..i + 1]
  {
    assert Links(c, i);
    if i == 0 {
      assert c[..1] == [c[0]];
    } else {
      ChainPrefix(c, i - 1);
      assert c[..i + 1] == c[..i] + [c[i]];
    }
  }

  // An id shared by two chains sits at the same height in both and forces equality below it.
  lemma SharedIdSharesHistory(a: seq<BlockId>, b: seq<BlockId>, i: nat, j: nat)
    requires IsChain(a) && IsChain(b) && i < |a| && j < |b| && a[i] == b[j]
    ensures i == j && a[..i + 1] == b[..i + 1]
  {
    ChainPrefix(a, i);
    ChainPrefix(b, j);
  }

  lemma ChainNumbers(c: seq<BlockId>)
    requires IsChain(c)
    ensures forall i :: 0 <= i < |c| ==> Num(c[i]) == i + 1
  {
    forall i | 0 <= i < |c| ensures Num(c[i]) == i + 1 {
      ChainPrefix(c, i);
    }
  }

  ghost predicate AncestorClosed(known: set<BlockId>) {
    forall id {:trigger id.previous in known} :: id in known && id.BlockId? && id.previous != Zero ==> id.previous in known
  }

  /** What the delegate's database answers from: the preferred chain, every block it has
      (blocks on forks included), and the number of the last block it cannot undo. */
  datatype ChainState = ChainState(main: seq<BlockId>, known: set<BlockId>, lastIrreversible: nat) {
    ghost predicate Valid() {
      && IsChain(main)
      && lastIrreversible <= |main|
      && (forall i :: 0 <= i < |main| ==> main[i] in known)
      && (forall id :: id in known ==> id != Zero && Num(id) <= |main|)
      && AncestorClosed(known)
    }

    function HeadNum(): nat { |main| }

    // is_included_block: is id the block of its number on the preferred chain?
    predicate IsIncluded(id: BlockId) {
      0 < Num(id) <= |main| && main[Num(id) - 1] == id
    }
  }

  lemma IncludedIsPrefix(db: ChainState, id: BlockId)
    requires IsChain(db.main) && db.IsIncluded(id)
    ensures ChainOf(id) == db.main[..Num(id)]
  {
    ChainPrefix(db.main, Num(id) - 1);
  }

  lemma {:induction false} AncestorsKnown(db: ChainState, c: seq<BlockId>, i: nat, j: nat)
    requires db.Valid() && IsChain(c) && i <= j < |c| && c[j] in db.known
    ensures c[i] in db.known
    decreases j - i
  {
    if i < j {
      assert Links(c, j) && Links(c, j - 1);
      assert c[j].previous in db.known;
      AncestorsKnown(db, c, i, j - 1);
    }
  }
}
