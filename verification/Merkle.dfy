/** The Merkle root of a block's transactions: an in-place pairwise reduction that computes
    a recursively defined tree. */
module Merkle {
  // Digests over a free hash: a transaction's own digest, or the hash of a pair.
  datatype Digest = Transaction(content: nat) | Pair(left: Digest, right: Digest)

  // checksum_type: the value for an empty block, or the hash of the last digest left.
  datatype Checksum = Empty | HashOf(digest: Digest)

  // ---------- The tree ----------

  // The largest power of two strictly below n.
  function SplitPoint(n: nat): (k: nat)
    requires n >= 2
    ensures 1 <= k < n <= 2 * k
  {
    if n == 2 then 1 else 2 * SplitPoint((n + 1) / 2)
  }

  predicate IsPowerOfTwo(n: nat) {
    n == 1 || (n > 1 && n % 2 == 0 && IsPowerOfTwo(n / 2))
  }

  function Tree(s: seq<Digest>): Digest
    requires s != []
  {
    if |s| == 1 then s[0]
    else
      var k := SplitPoint(|s|);
      Pair(Tree(s[..k]), Tree(s[k..]))
  }

  // ---------- One pass ----------

  // Neighbours are hashed together; an odd last digest moves up unchanged.
  function Paired(s: seq<Digest>): (r: seq<Digest>)
    ensures |r| == (|s| + 1) / 2
    ensures forall j :: 0 <= j < |r| ==> r[j] == if 2 * j + 1 < |s| then Pair(s[2 * j], s[2 * j + 1]) else s[2 * j]
  {
    seq((|s| + 1) / 2, j requires 0 <= j < (|s| + 1) / 2 =>
      if 2 * j + 1 < |s| then Pair(s[2 * j], s[2 * j + 1]) else s[2 * j])
  }

  lemma {:induction false} SplitPointIsPower(n: nat)
    requires n >= 2
    ensures IsPowerOfTwo(SplitPoint(n))
  {
    if n > 2 {
      SplitPointIsPower((n + 1) / 2);
      assert 2 * SplitPoint((n + 1) / 2) / 2 == SplitPoint((n + 1) / 2);
    }
  }

  lemma PairedSplit(s: seq<Digest>, k: nat)
    requires k % 2 == 0 && k <= |s|
    ensures Paired(s) == Paired(s[..k]) + Paired(s[k..])
  {
  }

  lemma SplitPointHalves(n: nat)
    requires n > 2
    ensures SplitPoint(n) == 2 * SplitPoint((n + 1) / 2)
  {
  }

  // A pass does not change the tree.
  lemma {:induction false} PairingKeepsTree(s: seq<Digest>)
    requires |s| >= 2
    ensures Tree(Paired(s)) == Tree(s)
    decreases |s|
  {
    hide Paired, SplitPoint, Tree;
    if |s| == 2 {
      TreeOfTwo(s);
    } else {
      var half := SplitPoint((|s| + 1) / 2);
      var k := 2 * half;
      SplitPointHalves(|s|);
      PairingKeepsTree(s[..k]);
      if |s| - k >= 2 {
        PairingKeepsTree(s[k..]);
      } else {
        assert Paired(s[k..]) == s[k..];
      }
      PairedHalves(s, half);
      TreeSplits(s);
      TreeSplits(Paired(s));
    }
  }

  lemma TreeOfTwo(s: seq<Digest>)
    requires |s| == 2
    ensures Tree(Paired(s)) == Tree(s)
  {
    assert Paired(s) == [Pair(s[0], s[1])];
    assert SplitPoint(2) == 1;
    assert Tree(s[..1]) == s[0] && Tree(s[1..]) == s[1];
  }

  lemma TreeSplits(s: seq<Digest>)
    requires |s| >= 2
    ensures Tree(s) == Pair(Tree(s[..SplitPoint(|s|)]), Tree(s[SplitPoint(|s|)..]))
  {
  }

  lemma PairedHalves(s: seq<Digest>, half: nat)
    requires 2 * half <= |s|
    ensures Paired(s)[..half] == Paired(s[..2 * half]) && Paired(s)[half..] == Paired(s[2 * half..])
  {
    hide Paired;
    PairedSplit(s, 2 * half);
  }

  // ---------- calculate_merkle_root ----------

  // One pass in place over the first n digests. Writing position j reads only positions at
  // or above 2j, so no digest is overwritten before it is read.
  method HashInPairs(ids: array<Digest>, n: nat) returns (k: nat)
    requires 2 <= n <= ids.Length
    modifies ids
    ensures k == (n + 1) / 2
    ensures ids[..k] == Paired(old(ids[..n]))
    ensures forall i :: k <= i < ids.Length ==> ids[i] == old(ids[i])
  {
    hide Paired;
    ghost var s := ids[..n];
    ghost var target := Paired(s);
    var iMax := n - n % 2;
    k := 0;
    var i := 0;
    while i < iMax
      invariant i == 2 * k && i <= iMax
      invariant ids[..k] == target[..k]
      invariant forall j :: k <= j < ids.Length ==> ids[j] == old(ids[j])
    {
      PairAt(s, k);
      ids[k] := Pair(ids[i], ids[i + 1]);
      k := k + 1;
      i := i + 2;
    }
    if n % 2 == 1 {
      LastAlone(s, k);
      ids[k] := ids[iMax];
      k := k + 1;
    }
    assert target[..k] == target;
  }

  lemma PairAt(s: seq<Digest>, k: nat)
    requires 2 * k + 1 < |s|
    ensures k < |Paired(s)| && Paired(s)[k] == Pair(s[2 * k], s[2 * k + 1])
    ensures Paired(s)[..k + 1] == Paired(s)[..k] + [Pair(s[2 * k], s[2 * k + 1])]
  {
    hide Paired;
  }

  lemma LastAlone(s: seq<Digest>, k: nat)
    requires 2 * k + 1 == |s|
    ensures k < |Paired(s)| && Paired(s)[..k + 1] == Paired(s)[..k] + [s[2 * k]]
  {
    hide Paired;
  }

  method CalculateMerkleRoot(transactions: seq<nat>) returns (root: Checksum)
    ensures root == RootOf(transactions)
  {
    if |transactions| == 0 {
      return Empty;
    }
    var ids := new Digest[|transactions|](i requires 0 <= i < |transactions| => Transaction(transactions[i]));
    ghost var all := ids[..];
    assert all == Leaves(transactions);
    var n := ids.Length;
    assert ids[..n] == all;
    while n > 1
      invariant 1 <= n <= ids.Length
      invariant Tree(ids[..n]) == Tree(all)
      decreases n
    {
      PairingKeepsTree(ids[..n]);
      n := HashInPairs(ids, n);
    }
    root := HashOf(ids[0]);
  }

  // ---------- What the root determines ----------

  function Leaves(transactions: seq<nat>): (s: seq<Digest>)
    ensures |s| == |transactions| && forall i :: 0 <= i < |s| ==> s[i] == Transaction(transactions[i])
  {
    seq(|transactions|, i requires 0 <= i < |transactions| => Transaction(transactions[i]))
  }

  function RootOf(transactions: seq<nat>): Checksum {
    if transactions == [] then Empty else HashOf(Tree(Leaves(transactions)))
  }

  // The transaction contents at the leaves of a digest, left to right.
  function Contents(d: Digest): seq<nat> {
    match d
    case Transaction(c) => [c]
    case Pair(l, r) => Contents(l) + Contents(r)
  }

  lemma {:induction false} TreeContents(transactions: seq<nat>)
    requires transactions != []
    ensures Contents(Tree(Leaves(transactions))) == transactions
    decreases |transactions|
  {
    if |transactions| == 1 {
      assert Tree(Leaves(transactions)) == Transaction(transactions[0]);
    } else {
      hide Tree, SplitPoint;
      var k := SplitPoint(|transactions|);
      TreeContents(transactions[..k]);
      TreeContents(transactions[k..]);
      LeavesSplit(transactions, k);
      TreeSplits(Leaves(transactions));
      assert transactions == transactions[..k] + transactions[k..];
    }
  }

  lemma LeavesSplit(transactions: seq<nat>, k: nat)
    requires k <= |transactions|
    ensures Leaves(transactions)[..k] == Leaves(transactions[..k])
    ensures Leaves(transactions)[k..] == Leaves(transactions[k..])
  {
  }

  // Equal roots mean equal transaction lists.
  lemma RootDeterminesTransactions(a: seq<nat>, b: seq<nat>)
    ensures RootOf(a) == RootOf(b) <==> a == b
  {
    if a != [] && b != [] && RootOf(a) == RootOf(b) {
      TreeContents(a);
      TreeContents(b);
    }
  }
}
