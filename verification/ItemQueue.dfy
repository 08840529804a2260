/** Asking peers for advertised items outside of synchronisation: the queue of wanted items,
    its order, and one pass of fetch_items_loop over it. */
module ItemQueue {
  import opened Wrappers

  const TRX_MESSAGE_TYPE := 1000
  const BLOCK_MESSAGE_TYPE := 1001

  const TWO_31 := 0x8000_0000
  const TWO_32 := 0x1_0000_0000

  datatype ItemId = ItemId(itemType: nat, hash: nat)

  // prioritized_item_id. The sequence number is a 32-bit counter's value when the item was queued.
  datatype Entry = Entry(item: ItemId, sequence: nat, timestamp: nat) {
    predicate Valid() {
      sequence < TWO_32
    }
  }

  // ---------- The order of the queue ----------

  function UnsignedMinus(a: nat, b: nat): nat
    requires a < TWO_32 && b < TWO_32
  {
    if a >= b then a - b else a + TWO_32 - b
  }

  function AsSigned(a: nat): int
    requires a < TWO_32
  {
    if a < TWO_31 then a else a - TWO_32
  }

  // operator<
  predicate Before(a: Entry, b: Entry)
    requires a.Valid() && b.Valid()
  {
    if a.item.itemType != b.item.itemType then a.item.itemType > b.item.itemType
    else AsSigned(UnsignedMinus(b.sequence, a.sequence)) > 0
  }

  // How many items were queued between the start of a window and this one.
  function Age(e: Entry, start: nat): nat
    requires e.Valid() && start < TWO_32
  {
    UnsignedMinus(e.sequence, start)
  }

  predicate InWindow(e: Entry, start: nat, width: nat)
    requires start < TWO_32
  {
    e.Valid() && Age(e, start) < width
  }

  // Within a window of half the counter's range the order is blocks first, then oldest first,
  // also where the counter wraps around inside the window.
  lemma BlocksFirstThenOldest(a: Entry, b: Entry, start: nat)
    requires start < TWO_32 && InWindow(a, start, TWO_31) && InWindow(b, start, TWO_31)
    ensures Before(a, b) <==>
              a.item.itemType > b.item.itemType
              || (a.item.itemType == b.item.itemType && Age(a, start) < Age(b, start))
    ensures a.item.itemType == BLOCK_MESSAGE_TYPE && b.item.itemType == TRX_MESSAGE_TYPE ==> Before(a, b) && !Before(b, a)
  {
  }

  lemma StrictTotalOrder(a: Entry, b: Entry, c: Entry, start: nat)
    requires start < TWO_32
    requires InWindow(a, start, TWO_31) && InWindow(b, start, TWO_31) && InWindow(c, start, TWO_31)
    ensures !Before(a, a)
    ensures !(Before(a, b) && Before(b, a))
    ensures Before(a, b) && Before(b, c) ==> Before(a, c)
    ensures Before(a, b) || Before(b, a) || (a.item.itemType == b.item.itemType && a.sequence == b.sequence)
  {
    BlocksFirstThenOldest(a, b, start);
    BlocksFirstThenOldest(b, a, start);
    BlocksFirstThenOldest(b, c, start);
    BlocksFirstThenOldest(a, c, start);
  }

  predicate SameType(a: Entry, b: Entry) {
    a.item.itemType == b.item.itemType
  }

  // All entries of one type in a window are comparable.
  ghost predicate TotalOnWindow(start: nat, width: nat)
    requires start < TWO_32
  {
    forall a: Entry, b: Entry :: InWindow(a, start, width) && InWindow(b, start, width) && SameType(a, b) ==>
      a.sequence == b.sequence || Before(a, b) || Before(b, a)
  }

  // Half the range is as wide as a window may be.
  lemma TotalExactlyOnHalfTheRange(start: nat, width: nat)
    requires start < TWO_32
    ensures TotalOnWindow(start, width) <==> width <= TWO_31
  {
    if width > TWO_31 {
      var opposite := if start < TWO_31 then start + TWO_31 else start - TWO_31;
      var a := Entry(ItemId(TRX_MESSAGE_TYPE, 0), start, 0);
      var b := Entry(ItemId(TRX_MESSAGE_TYPE, 1), opposite, 0);
      assert InWindow(a, start, width) && InWindow(b, start, width);
      assert !Before(a, b) && !Before(b, a);
    }
  }

  // In a wider window three entries can go round in a circle.
  lemma WiderWindowsAreCyclic(hash: nat)
    ensures var a := Entry(ItemId(TRX_MESSAGE_TYPE, hash), 0, 0);
            var b := Entry(ItemId(TRX_MESSAGE_TYPE, hash), 0x6000_0000, 0);
            var c := Entry(ItemId(TRX_MESSAGE_TYPE, hash), 0xC000_0000, 0);
            Before(a, b) && Before(b, c) && Before(c, a)
  {
  }

  ghost predicate Sorted(queue: seq<Entry>) {
    && (forall e :: e in queue ==> e.Valid())
    && forall i, j :: 0 <= i < j < |queue| ==> Before(queue[i], queue[j])
  }

  // Insertion into the ordered container.
  function Inserted(queue: seq<Entry>, e: Entry): (r: seq<Entry>)
    requires e.Valid() && forall x :: x in queue ==> x.Valid()
    ensures multiset(r) == multiset(queue) + multiset{e}
  {
    if queue == [] then [e]
    else if Before(e, queue[0]) then
      [e] + queue
    else
      assert queue == [queue[0]] + queue[1..];
      [queue[0]] + Inserted(queue[1..], e)
  }

  // While no item waits for as long as half the counter's range, every insertion keeps the
  // queue in order, also when the counter wraps around.
  lemma {:induction false} InsertionKeepsOrder(queue: seq<Entry>, e: Entry, start: nat)
    requires start < TWO_32 && Sorted(queue) && InWindow(e, start, TWO_31)
    requires forall x :: x in queue ==> InWindow(x, start, TWO_31) && x.sequence != e.sequence
    ensures Sorted(Inserted(queue, e))
  {
    hide Before;
    if queue != [] {
      var rest := queue[1..];
      if Before(e, queue[0]) {
        forall j | 0 <= j < |queue| ensures Before(e, queue[j]) {
          StrictTotalOrder(e, queue[0], queue[j], start);
        }
      } else {
        InsertionKeepsOrder(rest, e, start);
        StrictTotalOrder(e, queue[0], e, start);
        var later := Inserted(rest, e);
        forall j | 0 <= j < |later| ensures Before(queue[0], later[j]) {
          assert later[j] in multiset(later);
          if later[j] != e {
            assert later[j] in rest;
          }
        }
      }
    }
  }

  // ---------- Peers ----------

  type PeerId = nat

  datatype Peer = Peer(requested: set<ItemId>, otherwiseBusy: bool, advertised: set<ItemId>, inhibitedUntil: nat) {
    predicate Idle() {
      requested == {} && !otherwiseBusy
    }

    // Peers that sent too many transactions are not asked for more until later.
    predicate Inhibits(item: ItemId, now: nat) {
      item.itemType == TRX_MESSAGE_TYPE && inhibitedUntil > now
    }
  }

  // ---------- One pass ----------

  // What a pass does with one wanted item.
  datatype Outcome = Expired | Sent(to: PeerId) | Kept

  datatype Setting = Setting(peers: map<PeerId, Peer>, now: nat, oldest: nat, cap: nat)

  function Load(outcomes: seq<Outcome>, p: PeerId): nat {
    if outcomes == [] then 0
    else Load(outcomes[..|outcomes| - 1], p) + (if outcomes[|outcomes| - 1] == Sent(p) then 1 else 0)
  }

  predicate HasRoom(s: Setting, before: seq<Outcome>, p: PeerId, item: ItemId) {
    p in s.peers && s.peers[p].Idle() && Load(before, p) < s.cap && item in s.peers[p].advertised
  }

  predicate Eligible(s: Setting, before: seq<Outcome>, p: PeerId, item: ItemId) {
    HasRoom(s, before, p, item) && !s.peers[p].Inhibits(item, s.now)
  }

  // The outcome of one item: dropped when too old; else sent to a least loaded eligible peer;
  // else kept.
  ghost predicate RightOutcome(s: Setting, e: Entry, before: seq<Outcome>, outcome: Outcome) {
    if e.timestamp < s.oldest then outcome.Expired?
    else match outcome
      case Expired => false
      case Sent(p) =>
        && Eligible(s, before, p, e.item)
        && forall q :: Eligible(s, before, q, e.item) ==> Load(before, p) <= Load(before, q)
      case Kept => forall q :: !Eligible(s, before, q, e.item)
  }

  ghost predicate IsPass(s: Setting, wanted: seq<Entry>, outcomes: seq<Outcome>) {
    && |outcomes| == |wanted|
    && forall k :: 0 <= k < |wanted| ==> RightOutcome(s, wanted[k], outcomes[..k], outcomes[k])
  }

  // The entries with a given outcome, in queue order.
  function Those(wanted: seq<Entry>, outcomes: seq<Outcome>, outcome: Outcome): seq<Entry>
    requires |wanted| == |outcomes|
  {
    if wanted == [] then []
    else
      var n := |wanted| - 1;
      Those(wanted[..n], outcomes[..n], outcome) + (if outcomes[n] == outcome then [wanted[n]] else [])
  }

  function SentEntries(wanted: seq<Entry>, outcomes: seq<Outcome>): seq<Entry>
    requires |wanted| == |outcomes|
  {
    if wanted == [] then []
    else
      var n := |wanted| - 1;
      SentEntries(wanted[..n], outcomes[..n]) + (if outcomes[n].Sent? then [wanted[n]] else [])
  }

  function Items(entries: seq<Entry>): seq<ItemId> {
    seq(|entries|, i requires 0 <= i < |entries| => entries[i].item)
  }

  function ToSet(items: seq<ItemId>): set<ItemId> {
    set item | item in items
  }

  // ---------- What a pass guarantees ----------

  // Nothing is lost or duplicated.
  lemma {:induction false} PassPartitions(wanted: seq<Entry>, outcomes: seq<Outcome>)
    requires |wanted| == |outcomes|
    ensures multiset(wanted) == multiset(Those(wanted, outcomes, Expired))
                              + multiset(SentEntries(wanted, outcomes))
                              + multiset(Those(wanted, outcomes, Kept))
  {
    if wanted != [] {
      var n := |wanted| - 1;
      PassPartitions(wanted[..n], outcomes[..n]);
      LastOf(wanted);
      PutIn(Those(wanted[..n], outcomes[..n], Expired), wanted[n]);
      PutIn(SentEntries(wanted[..n], outcomes[..n]), wanted[n]);
      PutIn(Those(wanted[..n], outcomes[..n], Kept), wanted[n]);
    }
  }

  lemma LastOf(entries: seq<Entry>)
    requires entries != []
    ensures multiset(entries) == multiset(entries[..|entries| - 1]) + multiset{entries[|entries| - 1]}
  {
    assert entries == entries[..|entries| - 1] + [entries[|entries| - 1]];
  }

  lemma PutIn(entries: seq<Entry>, e: Entry)
    ensures multiset(entries + [e]) == multiset(entries) + multiset{e}
    ensures entries + [] == entries
  {
  }

  // A peer's message has one item for each unit of its load, all of them sent to it.
  lemma {:induction false} MessageMatchesLoad(wanted: seq<Entry>, outcomes: seq<Outcome>, p: PeerId)
    requires |wanted| == |outcomes|
    ensures |Those(wanted, outcomes, Sent(p))| == Load(outcomes, p)
    ensures forall e :: e in Those(wanted, outcomes, Sent(p)) ==> e in SentEntries(wanted, outcomes)
    ensures forall e :: e in Those(wanted, outcomes, Sent(p)) ==> exists k :: 0 <= k < |wanted| && wanted[k] == e && outcomes[k] == Sent(p)
  {
    if wanted != [] {
      var n := |wanted| - 1;
      MessageMatchesLoad(wanted[..n], outcomes[..n], p);
      forall e | e in Those(wanted, outcomes, Sent(p))
        ensures exists k :: 0 <= k < |wanted| && wanted[k] == e && outcomes[k] == Sent(p)
      {
        if e in Those(wanted[..n], outcomes[..n], Sent(p)) {
          var k :| 0 <= k < n && wanted[..n][k] == e && outcomes[..n][k] == Sent(p);
          assert wanted[k] == e && outcomes[k] == Sent(p);
        } else {
          assert wanted[n] == e && outcomes[n] == Sent(p);
        }
      }
    }
  }

  // With distinct wanted entries no two peers are asked for the same one.
  lemma MessagesAreDisjoint(wanted: seq<Entry>, outcomes: seq<Outcome>, p: PeerId, q: PeerId, e: Entry)
    requires |wanted| == |outcomes| && p != q
    requires forall i, j :: 0 <= i < j < |wanted| ==> wanted[i] != wanted[j]
    requires e in Those(wanted, outcomes, Sent(p))
    ensures e !in Those(wanted, outcomes, Sent(q))
  {
    MessageMatchesLoad(wanted, outcomes, p);
    MessageMatchesLoad(wanted, outcomes, q);
  }

  lemma {:induction false} LoadGrows(outcomes: seq<Outcome>, i: nat, p: PeerId)
    requires i <= |outcomes|
    ensures Load(outcomes[..i], p) <= Load(outcomes, p)
    decreases |outcomes|
  {
    if i < |outcomes| {
      var n := |outcomes| - 1;
      LoadGrows(outcomes[..n], i, p);
      assert outcomes[..n][..i] == outcomes[..i];
    } else {
      assert outcomes[..i] == outcomes;
    }
  }

  lemma {:induction false} LoadStaysWithinCap(s: Setting, wanted: seq<Entry>, outcomes: seq<Outcome>, k: nat, p: PeerId)
    requires IsPass(s, wanted, outcomes) && k <= |outcomes|
    ensures Load(outcomes[..k], p) <= s.cap
    ensures Load(outcomes[..k], p) > 0 ==> p in s.peers && s.peers[p].Idle()
  {
    if k > 0 {
      LoadStaysWithinCap(s, wanted, outcomes, k - 1, p);
      assert outcomes[..k][..k - 1] == outcomes[..k - 1];
      assert RightOutcome(s, wanted[k - 1], outcomes[..k - 1], outcomes[k - 1]);
    }
  }

  // At the end no kept item has a peer that could still take it.
  lemma NoEligiblePeerIsLeft(s: Setting, wanted: seq<Entry>, outcomes: seq<Outcome>, k: nat, p: PeerId)
    requires IsPass(s, wanted, outcomes) && k < |wanted| && outcomes[k] == Kept
    ensures !Eligible(s, outcomes, p, wanted[k].item)
  {
    assert RightOutcome(s, wanted[k], outcomes[..k], outcomes[k]);
    assert !Eligible(s, outcomes[..k], p, wanted[k].item);
    LoadGrows(outcomes, k, p);
  }

  // An item is never passed over: a peer that takes a later item could not have taken a kept
  // earlier one.
  lemma NoneIsPassedOver(s: Setting, wanted: seq<Entry>, outcomes: seq<Outcome>, i: nat, j: nat, p: PeerId)
    requires IsPass(s, wanted, outcomes) && i < j < |wanted|
    requires outcomes[i] == Kept && outcomes[j] == Sent(p)
    ensures wanted[i].item !in s.peers[p].advertised || s.peers[p].Inhibits(wanted[i].item, s.now)
  {
    assert RightOutcome(s, wanted[i], outcomes[..i], outcomes[i]);
    assert RightOutcome(s, wanted[j], outcomes[..j], outcomes[j]);
    assert !Eligible(s, outcomes[..i], p, wanted[i].item);
    LoadGrows(outcomes[..j], i, p);
    assert outcomes[..j][..i] == outcomes[..i];
  }

  // Peers that all have every wanted item share the requests evenly.
  lemma {:induction false} RequestsAreShared(s: Setting, wanted: seq<Entry>, outcomes: seq<Outcome>, k: nat, p: PeerId, q: PeerId)
    requires IsPass(s, wanted, outcomes) && k <= |wanted|
    requires p in s.peers && s.peers[p].Idle() && q in s.peers && s.peers[q].Idle()
    requires forall e :: e in wanted ==> e.item in s.peers[q].advertised && !s.peers[q].Inhibits(e.item, s.now)
    ensures Load(outcomes[..k], p) <= Load(outcomes[..k], q) + 1
  {
    if k > 0 {
      var before := outcomes[..k - 1];
      RequestsAreShared(s, wanted, outcomes, k - 1, p, q);
      assert outcomes[..k][..k - 1] == before;
      assert RightOutcome(s, wanted[k - 1], before, outcomes[k - 1]);
      LoadStaysWithinCap(s, wanted, outcomes, k, p);
      if outcomes[k - 1] == Sent(p) {
        assert wanted[k - 1] in wanted;
        assert Eligible(s, before, q, wanted[k - 1].item) || Load(before, q) >= s.cap;
      }
    }
  }

  // Every outcome has its reason: an item is dropped exactly when it is too old, goes only to an
  // idle peer below its cap that advertised it, a transaction not to one that is inhibited, and
  // is kept only when no such peer is left.
  lemma OutcomesHaveReasons(s: Setting, wanted: seq<Entry>, outcomes: seq<Outcome>, k: nat)
    requires IsPass(s, wanted, outcomes) && k < |wanted|
    ensures outcomes[k].Expired? <==> wanted[k].timestamp < s.oldest
    ensures outcomes[k].Sent? ==>
              && outcomes[k].to in s.peers
              && (var p := s.peers[outcomes[k].to];
                  && p.requested == {} && !p.otherwiseBusy && wanted[k].item in p.advertised
                  && Load(outcomes[..k], outcomes[k].to) < s.cap
                  && (wanted[k].item.itemType == TRX_MESSAGE_TYPE ==> p.inhibitedUntil <= s.now))
    ensures outcomes[k].Kept? ==> forall q :: q in s.peers && wanted[k].item in s.peers[q].advertised ==>
              || s.peers[q].requested != {} || s.peers[q].otherwiseBusy
              || Load(outcomes[..k], q) >= s.cap
              || (wanted[k].item.itemType == TRX_MESSAGE_TYPE && s.peers[q].inhibitedUntil > s.now)
  {
    hide Load;
    assert RightOutcome(s, wanted[k], outcomes[..k], outcomes[k]);
    if outcomes[k].Kept? {
      forall q | q in s.peers && wanted[k].item in s.peers[q].advertised
        ensures s.peers[q].requested != {} || s.peers[q].otherwiseBusy || Load(outcomes[..k], q) >= s.cap
                || (wanted[k].item.itemType == TRX_MESSAGE_TYPE && s.peers[q].inhibitedUntil > s.now)
      {
        assert !Eligible(s, outcomes[..k], q, wanted[k].item);
      }
    }
  }

  lemma {:induction false} ThoseHasEach(wanted: seq<Entry>, outcomes: seq<Outcome>, k: nat)
    requires |wanted| == |outcomes| && k < |wanted|
    ensures wanted[k] in Those(wanted, outcomes, outcomes[k])
    decreases |wanted|
  {
    var n := |wanted| - 1;
    if k < n {
      ThoseHasEach(wanted[..n], outcomes[..n], k);
    }
  }

  // Once the messages are recorded a peer counts as asked for what it was, and for exactly the
  // items whose outcome it is.
  lemma RecordMatchesOutcomes(s: Setting, wanted: seq<Entry>, outcomes: seq<Outcome>,
      messages: map<PeerId, seq<ItemId>>, p: PeerId, item: ItemId)
    requires |wanted| == |outcomes| && p in s.peers
    requires forall q :: q in messages ==> messages[q] == Items(Those(wanted, outcomes, Sent(q)))
    requires forall k :: 0 <= k < |outcomes| && outcomes[k].Sent? ==> outcomes[k].to in messages
    ensures p in Asked(s.peers, messages)
    ensures item in Asked(s.peers, messages)[p].requested <==>
            item in s.peers[p].requested || exists k :: 0 <= k < |wanted| && outcomes[k] == Sent(p) && wanted[k].item == item
    ensures Asked(s.peers, messages)[p] == s.peers[p].(requested := Asked(s.peers, messages)[p].requested)
  {
    hide Those, Load, ToSet, Items;
    if p in messages {
      MessageHasSent(wanted, outcomes, p, item);
      InBoth(s.peers[p].requested, messages[p], item);
    }
  }

  lemma InBoth(asked: set<ItemId>, items: seq<ItemId>, item: ItemId)
    ensures item in asked + ToSet(items) <==> item in asked || item in items
  {
  }

  lemma MessageHasSent(wanted: seq<Entry>, outcomes: seq<Outcome>, p: PeerId, item: ItemId)
    requires |wanted| == |outcomes|
    ensures item in Items(Those(wanted, outcomes, Sent(p))) <==>
            exists k :: 0 <= k < |wanted| && outcomes[k] == Sent(p) && wanted[k].item == item
  {
    hide Those, Load;
    var sent := Those(wanted, outcomes, Sent(p));
    MessageMatchesLoad(wanted, outcomes, p);
    if k: nat :| k < |wanted| && outcomes[k] == Sent(p) && wanted[k].item == item {
      ThoseHasEach(wanted, outcomes, k);
      var j :| 0 <= j < |sent| && sent[j] == wanted[k];
      assert Items(sent)[j] == item;
    }
    if item in Items(sent) {
      var j :| 0 <= j < |sent| && Items(sent)[j] == item;
      assert sent[j] in sent;
    }
  }

  // What is kept stays in order.
  lemma {:induction false} KeptStaysSorted(wanted: seq<Entry>, outcomes: seq<Outcome>)
    requires |wanted| == |outcomes| && Sorted(wanted)
    ensures Sorted(Those(wanted, outcomes, Kept))
    ensures forall e :: e in Those(wanted, outcomes, Kept) ==> e in wanted
  {
    if wanted != [] {
      var n := |wanted| - 1;
      KeptStaysSorted(wanted[..n], outcomes[..n]);
      var before := Those(wanted[..n], outcomes[..n], Kept);
      forall i | 0 <= i < |before| ensures Before(before[i], wanted[n]) {
        assert before[i] in wanted[..n];
        var k :| 0 <= k < n && wanted[k] == before[i];
      }
    }
  }

  // ---------- The node ----------

  ghost predicate RetryIsSoonEnough(s: Setting, wanted: seq<Entry>, outcomes: seq<Outcome>, retryAt: Option<nat>) {
    forall k, p :: 0 <= k < |wanted| && k < |outcomes| && outcomes[k] == Kept && HasRoom(s, outcomes[..k], p, wanted[k].item) ==>
      retryAt.Some? && retryAt.value <= s.peers[p].inhibitedUntil
  }

  // The loop starts again by itself when some peer stops being inhibited, not at another time.
  ghost predicate RetryIsOfSomePeer(peers: map<PeerId, Peer>, now: nat, retryAt: Option<nat>) {
    retryAt.Some? && retryAt.value > now && exists p :: p in peers && peers[p].inhibitedUntil == retryAt.value
  }

  // The state of the pass after the first k items.
  ghost predicate PassSoFar(s: Setting, wanted: seq<Entry>, k: nat, outcomes: seq<Outcome>,
      kept: seq<Entry>, messages: map<PeerId, seq<ItemId>>)
    requires k <= |wanted|
  {
    && IsPass(s, wanted[..k], outcomes)
    && kept == Those(wanted[..k], outcomes, Kept)
    && (forall p :: p in messages <==> p in s.peers && s.peers[p].Idle())
    && forall p :: p in messages ==> messages[p] == Items(Those(wanted[..k], outcomes, Sent(p)))
  }

  function Given(messages: map<PeerId, seq<ItemId>>, outcome: Outcome, item: ItemId): map<PeerId, seq<ItemId>> {
    if outcome.Sent? && outcome.to in messages then messages[outcome.to := messages[outcome.to] + [item]] else messages
  }

  lemma PassOneMore(s: Setting, wanted: seq<Entry>, k: nat, outcomes: seq<Outcome>,
      kept: seq<Entry>, messages: map<PeerId, seq<ItemId>>, outcome: Outcome)
    requires k < |wanted| && PassSoFar(s, wanted, k, outcomes, kept, messages)
    requires RightOutcome(s, wanted[k], outcomes, outcome)
    ensures PassSoFar(s, wanted, k + 1, outcomes + [outcome], if outcome == Kept then kept + [wanted[k]] else kept,
                      Given(messages, outcome, wanted[k].item))
  {
    hide Eligible, Items, Those;
    var more := outcomes + [outcome];
    forall i | 0 <= i < k + 1 ensures RightOutcome(s, wanted[..k + 1][i], more[..i], more[i]) {
      assert more[..k] == outcomes;
      if i < k {
        assert more[..i] == outcomes[..i];
        assert RightOutcome(s, wanted[..k][i], outcomes[..i], outcomes[i]);
      }
    }
    assert IsPass(s, wanted[..k + 1], more);
    ThoseMore(wanted, k, outcomes, outcome, Kept);
    forall p | p in messages
      ensures Given(messages, outcome, wanted[k].item)[p] == Items(Those(wanted[..k + 1], more, Sent(p)))
    {
      var sent := Those(wanted[..k], outcomes, Sent(p));
      ThoseMore(wanted, k, outcomes, outcome, Sent(p));
      ItemsConcat(sent, wanted[k]);
      assert sent + [] == sent;
    }
  }

  lemma ThoseMore(wanted: seq<Entry>, k: nat, outcomes: seq<Outcome>, outcome: Outcome, which: Outcome)
    requires k < |wanted| && |outcomes| == k
    ensures Those(wanted[..k + 1], outcomes + [outcome], which) ==
            Those(wanted[..k], outcomes, which) + (if outcome == which then [wanted[k]] else [])
  {
    var more := outcomes + [outcome];
    assert wanted[..k + 1][..k] == wanted[..k] && wanted[..k + 1][k] == wanted[k];
    assert more[..k] == outcomes && more[k] == outcome;
  }

  lemma ItemsConcat(entries: seq<Entry>, e: Entry)
    ensures Items(entries + [e]) == Items(entries) + [e.item]
  {
  }

  lemma MessageLengths(s: Setting, wanted: seq<Entry>, k: nat, outcomes: seq<Outcome>,
      kept: seq<Entry>, messages: map<PeerId, seq<ItemId>>)
    requires k <= |wanted| && PassSoFar(s, wanted, k, outcomes, kept, messages)
    ensures forall p :: p in messages ==> |messages[p]| == Load(outcomes, p)
  {
    forall p | p in messages ensures |messages[p]| == Load(outcomes, p) {
      MessageMatchesLoad(wanted[..k], outcomes, p);
    }
  }

  lemma {:induction false} LeastExists(remaining: set<PeerId>, messages: map<PeerId, seq<ItemId>>) returns (p: PeerId)
    requires remaining != {} && remaining <= messages.Keys
    ensures p in remaining && forall q :: q in remaining ==> |messages[p]| <= |messages[q]|
    decreases remaining
  {
    p :| p in remaining;
    var rest := remaining - {p};
    if rest != {} {
      var q := LeastExists(rest, messages);
      assert forall r :: r in remaining ==> r == p || r in rest;
      if |messages[q]| < |messages[p]| {
        p := q;
      }
    } else {
      assert forall r :: r in remaining ==> r == p || r in rest;
    }
  }

  // A peer with room in its message that has the item.
  predicate RoomFor(peers: map<PeerId, Peer>, messages: map<PeerId, seq<ItemId>>, cap: nat, p: PeerId, item: ItemId) {
    p in messages && p in peers && |messages[p]| < cap && item in peers[p].advertised
  }

  predicate CanTake(peers: map<PeerId, Peer>, messages: map<PeerId, seq<ItemId>>, cap: nat, p: PeerId, item: ItemId, now: nat) {
    RoomFor(peers, messages, cap, p, item) && !peers[p].Inhibits(item, now)
  }

  class ItemFetcher {
    var itemsToFetch: seq<Entry>
    var peers: map<PeerId, Peer>

    constructor ()
      ensures itemsToFetch == [] && peers == map[]
    {
      itemsToFetch, peers := [], map[];
    }

    // The loop over the peers, least loaded first. Peers with equal loads come in any order.
    method ChoosePeer(item: ItemId, messages: map<PeerId, seq<ItemId>>, now: nat, cap: nat, retry: Option<nat>)
      returns (choice: Option<PeerId>, retryAt: Option<nat>)
      requires messages.Keys <= peers.Keys
      ensures choice.Some? ==>
                && CanTake(peers, messages, cap, choice.value, item, now)
                && forall q :: CanTake(peers, messages, cap, q, item, now) ==> |messages[choice.value]| <= |messages[q]|
      ensures choice.None? ==> forall q :: RoomFor(peers, messages, cap, q, item) ==>
                peers[q].Inhibits(item, now) && retryAt.Some? && retryAt.value <= peers[q].inhibitedUntil
      ensures retry.Some? ==> retryAt.Some? && retryAt.value <= retry.value
      ensures retryAt == retry || RetryIsOfSomePeer(peers, now, retryAt)
    {
      var remaining := messages.Keys;
      choice, retryAt := None, retry;
      while remaining != {}
        invariant remaining <= messages.Keys
        invariant forall q :: q in messages && q !in remaining && RoomFor(peers, messages, cap, q, item) ==>
                    peers[q].Inhibits(item, now) && retryAt.Some? && retryAt.value <= peers[q].inhibitedUntil
        invariant retry.Some? ==> retryAt.Some? && retryAt.value <= retry.value
        invariant retryAt == retry || RetryIsOfSomePeer(peers, now, retryAt)
        decreases remaining
      {
        ghost var least := LeastExists(remaining, messages);
        var p :| p in remaining && forall q :: q in remaining ==> |messages[p]| <= |messages[q]|;
        if |messages[p]| < cap && item in peers[p].advertised {
          if item.itemType == TRX_MESSAGE_TYPE && peers[p].inhibitedUntil > now {
            if retryAt.None? || peers[p].inhibitedUntil < retryAt.value {
              retryAt := Some(peers[p].inhibitedUntil);
            }
          } else {
            choice := Some(p);
            return;
          }
        }
        remaining := remaining - {p};
      }
    }

    // One iteration of fetch_items_loop. retryAt is the time at which the loop starts again by
    // itself, if it does.
    method FetchItems(now: nat, oldest: nat, cap: nat)
      returns (messages: map<PeerId, seq<ItemId>>, retryAt: Option<nat>, ghost outcomes: seq<Outcome>)
      modifies this
      ensures var s := Setting(old(peers), now, oldest, cap);
              var wanted := old(itemsToFetch);
              && IsPass(s, wanted, outcomes)
              && itemsToFetch == Those(wanted, outcomes, Kept)
              && (forall p :: p in messages <==> p in s.peers && s.peers[p].Idle())
              && (forall p :: p in messages ==> messages[p] == Items(Those(wanted, outcomes, Sent(p))))
              && peers == Asked(s.peers, messages)
              && RetryIsSoonEnough(s, wanted, outcomes, retryAt)
              && (retryAt.Some? ==> RetryIsOfSomePeer(s.peers, now, retryAt))
    {
      hide Those, Items, IsPass, PassSoFar, Asked, HasRoom, RetryIsSoonEnough, RetryIsOfSomePeer, Load;
      ghost var s := Setting(peers, now, oldest, cap);
      ghost var wanted := itemsToFetch;
      messages := map p | p in peers && peers[p].Idle() :: [];
      retryAt, outcomes := None, [];
      var k := 0;
      var todo := itemsToFetch;
      var kept: seq<Entry> := [];
      PassStart(s, wanted, messages);
      RetryStart(s, wanted);
      while k < |todo|
        invariant k <= |todo| && todo == wanted && |outcomes| == k
        invariant PassSoFar(s, wanted, k, outcomes, kept, messages)
        invariant peers == Asked(s.peers, messages)
        invariant RetryIsSoonEnough(s, wanted, outcomes, retryAt)
        invariant retryAt.Some? ==> RetryIsOfSomePeer(s.peers, now, retryAt)
      {
        var e := todo[k];
        ghost var outcome := Expired;
        ghost var before, retryBefore := messages, retryAt;
        if e.timestamp >= oldest {
          var choice;
          MessagesGoToPeers(s, wanted, k, outcomes, kept, messages);
          choice, retryAt := ChoosePeer(e.item, messages, now, cap, retryAt);
          outcome := if choice.Some? then Sent(choice.value) else Kept;
          RetrySurvivesAsking(s.peers, messages, now, retryAt);
          ChoiceIsRight(s, wanted, k, outcomes, kept, messages, choice, retryAt);
          if choice.Some? {
            var p := choice.value;
            peers := peers[p := peers[p].(requested := peers[p].requested + {e.item})];
            messages := messages[p := messages[p] + [e.item]];
            AskedMore(s.peers, before, p, e.item);
          } else {
            kept := kept + [e];
          }
        }
        PassOneMore(s, wanted, k, outcomes, if outcome == Kept then kept[..|kept| - 1] else kept, before, outcome);
        RetryOneMore(s, wanted, k, outcomes, outcome, retryBefore, retryAt);
        outcomes := outcomes + [outcome];
        k := k + 1;
      }
      PassEnd(s, wanted, outcomes, kept, messages);
      itemsToFetch := kept;
    }
  }

  // The peers once the items of the messages are recorded as requested from them.
  function Asked(peers: map<PeerId, Peer>, messages: map<PeerId, seq<ItemId>>): map<PeerId, Peer> {
    map p | p in peers :: if p in messages then peers[p].(requested := peers[p].requested + ToSet(messages[p])) else peers[p]
  }

  lemma AskedMore(peers: map<PeerId, Peer>, messages: map<PeerId, seq<ItemId>>, p: PeerId, item: ItemId)
    requires p in peers && p in messages
    ensures var asked := Asked(peers, messages);
            Asked(peers, messages[p := messages[p] + [item]]) == asked[p := asked[p].(requested := asked[p].requested + {item})]
  {
    assert ToSet(messages[p] + [item]) == ToSet(messages[p]) + {item};
    assert peers[p].requested + (ToSet(messages[p]) + {item}) == (peers[p].requested + ToSet(messages[p])) + {item};
  }

  lemma RetrySurvivesAsking(peers: map<PeerId, Peer>, messages: map<PeerId, seq<ItemId>>, now: nat, retryAt: Option<nat>)
    ensures RetryIsOfSomePeer(Asked(peers, messages), now, retryAt) <==> RetryIsOfSomePeer(peers, now, retryAt)
  {
    assert forall p :: p in peers ==> Asked(peers, messages)[p].inhibitedUntil == peers[p].inhibitedUntil;
    if retryAt.Some? {
      forall p | p in peers && peers[p].inhibitedUntil == retryAt.value
        ensures p in Asked(peers, messages) && Asked(peers, messages)[p].inhibitedUntil == retryAt.value
      {
      }
    }
  }

  lemma PassStart(s: Setting, wanted: seq<Entry>, messages: map<PeerId, seq<ItemId>>)
    requires messages == map p | p in s.peers && s.peers[p].Idle() :: []
    ensures PassSoFar(s, wanted, 0, [], [], messages)
    ensures s.peers == Asked(s.peers, messages)
  {
    forall p | p in s.peers ensures Asked(s.peers, messages)[p] == s.peers[p] {
      if p in messages {
        assert s.peers[p].requested + ToSet(messages[p]) == s.peers[p].requested;
      }
    }
  }

  lemma PassEnd(s: Setting, wanted: seq<Entry>, outcomes: seq<Outcome>, kept: seq<Entry>, messages: map<PeerId, seq<ItemId>>)
    requires PassSoFar(s, wanted, |wanted|, outcomes, kept, messages)
    ensures IsPass(s, wanted, outcomes)
    ensures kept == Those(wanted, outcomes, Kept)
    ensures forall p :: p in messages <==> p in s.peers && s.peers[p].Idle()
    ensures forall p :: p in messages ==> messages[p] == Items(Those(wanted, outcomes, Sent(p)))
  {
    hide Those, Items, RightOutcome;
    assert wanted[..|wanted|] == wanted;
  }

  lemma MessagesGoToPeers(s: Setting, wanted: seq<Entry>, k: nat, outcomes: seq<Outcome>, kept: seq<Entry>,
      messages: map<PeerId, seq<ItemId>>)
    requires k <= |wanted| && PassSoFar(s, wanted, k, outcomes, kept, messages)
    ensures messages.Keys <= s.peers.Keys == Asked(s.peers, messages).Keys
  {
    hide Those, Items, IsPass;
  }

  lemma RetryStart(s: Setting, wanted: seq<Entry>)
    ensures RetryIsSoonEnough(s, wanted, [], None)
  {
  }

  lemma ChoiceIsRight(s: Setting, wanted: seq<Entry>, k: nat, outcomes: seq<Outcome>,
      kept: seq<Entry>, messages: map<PeerId, seq<ItemId>>, choice: Option<PeerId>, retryAt: Option<nat>)
    requires k < |wanted| && PassSoFar(s, wanted, k, outcomes, kept, messages)
    requires wanted[k].timestamp >= s.oldest
    requires var item, peers := wanted[k].item, Asked(s.peers, messages);
             && (choice.Some? ==>
                  && CanTake(peers, messages, s.cap, choice.value, item, s.now)
                  && forall q :: CanTake(peers, messages, s.cap, q, item, s.now) ==> |messages[choice.value]| <= |messages[q]|)
             && (choice.None? ==> forall q :: RoomFor(peers, messages, s.cap, q, item) ==>
                  peers[q].Inhibits(item, s.now) && retryAt.Some? && retryAt.value <= peers[q].inhibitedUntil)
    ensures RightOutcome(s, wanted[k], outcomes, if choice.Some? then Sent(choice.value) else Kept)
    ensures choice.None? ==> forall q :: HasRoom(s, outcomes, q, wanted[k].item) ==>
              retryAt.Some? && retryAt.value <= s.peers[q].inhibitedUntil
  {
    hide Those, Items, IsPass, Load;
    MessageLengths(s, wanted, k, outcomes, kept, messages);
    var item, peers := wanted[k].item, Asked(s.peers, messages);
    forall q ensures HasRoom(s, outcomes, q, item) <==> RoomFor(peers, messages, s.cap, q, item) {
      if q in messages {
        assert peers[q].advertised == s.peers[q].advertised;
      }
    }
    forall q | q in messages ensures Eligible(s, outcomes, q, item) <==> CanTake(peers, messages, s.cap, q, item, s.now) {
      assert peers[q].inhibitedUntil == s.peers[q].inhibitedUntil;
    }
  }

  lemma RetryOneMore(s: Setting, wanted: seq<Entry>, k: nat, outcomes: seq<Outcome>, outcome: Outcome,
      before: Option<nat>, after: Option<nat>)
    requires k < |wanted| && |outcomes| == k && RetryIsSoonEnough(s, wanted, outcomes, before)
    requires before.Some? ==> after.Some? && after.value <= before.value
    requires outcome == Kept ==> forall q :: HasRoom(s, outcomes, q, wanted[k].item) ==>
               after.Some? && after.value <= s.peers[q].inhibitedUntil
    ensures RetryIsSoonEnough(s, wanted, outcomes + [outcome], after)
  {
    hide Load;
    var more := outcomes + [outcome];
    forall i, p | 0 <= i < |wanted| && i < |more| && more[i] == Kept && HasRoom(s, more[..i], p, wanted[i].item)
      ensures after.Some? && after.value <= s.peers[p].inhibitedUntil
    {
      assert i < k ==> more[..i] == outcomes[..i];
      assert i == k ==> more[..i] == outcomes;
    }
  }
}
