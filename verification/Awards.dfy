/** Awards: how a sum is split over a tree of sub-awards when an award is created, and how it
    is credited when the award is approved. */
module Awards {
  import opened Wrappers
  import opened Ledger

  // DEIP_100_PERCENT
  const HUNDRED_PERCENT := 10000

  datatype SubAward = SubAward(number: string, subawardee: Account, source: Account, amount: int)

  datatype AwardOp = AwardOp(number: string, awardee: Account, amount: int, overhead: nat, subs: seq<SubAward>)

  // The university's overhead. Amounts are positive here, so the division rounds down.
  function Fee(amount: int, overhead: nat): int
    requires amount >= 0
  {
    amount * overhead / HUNDRED_PERCENT
  }

  // The fee is the overhead's ten-thousandths of the award, less than a unit short.
  lemma FeeIsTheOverhead(amount: int, overhead: nat)
    requires amount >= 0
    ensures var f := Fee(amount, overhead);
            0 <= f && 10000 * f <= amount * overhead < 10000 * f + 10000
  {
    assert amount * overhead >= 0;
  }

  // What an account passes on: the sum of the sub-awards it is the source of.
  function SourcedFrom(subs: seq<SubAward>, account: Account): int {
    if subs == [] then 0
    else SourcedFrom(subs[..|subs| - 1], account)
         + (if subs[|subs| - 1].source == account then subs[|subs| - 1].amount else 0)
  }

  method SumSourcedFrom(subs: seq<SubAward>, account: Account) returns (acc: int)
    ensures acc == SourcedFrom(subs, account)
  {
    acc := 0;
    for i := 0 to |subs|
      invariant acc == SourcedFrom(subs[..i], account)
    {
      assert subs[..i + 1][..i] == subs[..i];
      if subs[i].source == account {
        acc := acc + subs[i].amount;
      }
    }
    assert subs[..|subs|] == subs;
  }

  // ---------- Validation ----------

  predicate IsSubawardee(subs: seq<SubAward>, account: Account) {
    exists s :: s in subs && s.subawardee == account
  }

  predicate DistinctSubawardees(subs: seq<SubAward>) {
    forall i, j :: 0 <= i < j < |subs| ==> subs[i].subawardee != subs[j].subawardee
  }

  // The conditions on a single sub-award.
  predicate ValidSubAward(op: AwardOp, s: SubAward) {
    && s.amount > 0
    && (forall t :: t in op.subs ==> !(s.source == t.subawardee && t.source == s.subawardee))
    && (s.source != op.awardee ==>
          IsSubawardee(op.subs, s.source) && s.amount > SourcedFrom(op.subs, s.subawardee))
  }

  predicate ValidAwardees(op: AwardOp) {
    && op.amount > 0
    && op.amount > SourcedFrom(op.subs, op.awardee) + Fee(op.amount, op.overhead)
    && !IsSubawardee(op.subs, op.awardee)
    && (op.subs != [] ==> exists s :: s in op.subs && s.source == op.awardee)
    && DistinctSubawardees(op.subs)
    && forall s :: s in op.subs ==> ValidSubAward(op, s)
  }

  // create_award_operation::validate, the parts that concern the sub-awards.
  method Validate(op: AwardOp) returns (ok: bool)
    ensures ok == ValidAwardees(op)
  {
    hide SourcedFrom, Fee, IsSubawardee, PassesCheck, ValidSubAward, DistinctSubawardees;
    if op.amount <= 0 {
      return false;
    }
    var top := SumSourcedFrom(op.subs, op.awardee);
    if op.amount <= top + Fee(op.amount, op.overhead) || IsSubawardee(op.subs, op.awardee) {
      return false;
    }
    if op.subs != [] && !exists s :: s in op.subs && s.source == op.awardee {
      return false;
    }
    for i := 0 to |op.subs|
      invariant forall k :: 0 <= k < i ==> PassesCheck(op, k)
    {
      ok := CheckSubAward(op, i);
      if !ok {
        ChecksDecide(op);
        return;
      }
    }
    ChecksDecide(op);
    ok := true;
  }

  // The loop body for one sub-award.
  ghost predicate PassesCheck(op: AwardOp, i: nat)
    requires i < |op.subs|
  {
    && ValidSubAward(op, op.subs[i])
    && forall l :: 0 <= l < |op.subs| && l != i ==> op.subs[l].subawardee != op.subs[i].subawardee
  }

  lemma ChecksDecide(op: AwardOp)
    ensures (forall i :: 0 <= i < |op.subs| ==> PassesCheck(op, i)) <==>
            DistinctSubawardees(op.subs) && forall s :: s in op.subs ==> ValidSubAward(op, s)
  {
    hide ValidSubAward;
    if DistinctSubawardees(op.subs) && forall s :: s in op.subs ==> ValidSubAward(op, s) {
      forall i | 0 <= i < |op.subs| ensures PassesCheck(op, i) {
        assert op.subs[i] in op.subs;
      }
    }
    if forall i :: 0 <= i < |op.subs| ==> PassesCheck(op, i) {
      forall i, j | 0 <= i < j < |op.subs| ensures op.subs[i].subawardee != op.subs[j].subawardee {
        assert PassesCheck(op, i);
      }
      forall s | s in op.subs ensures ValidSubAward(op, s) {
        var i :| 0 <= i < |op.subs| && op.subs[i] == s;
        assert PassesCheck(op, i);
      }
    }
  }

  method CheckSubAward(op: AwardOp, i: nat) returns (ok: bool)
    requires i < |op.subs|
    ensures ok == PassesCheck(op, i)
  {
    hide SourcedFrom, IsSubawardee;
    var sub := op.subs[i];
    if sub.amount <= 0 {
      return false;
    }
    if exists l :: 0 <= l < |op.subs| && l != i && op.subs[l].subawardee == sub.subawardee {
      return false;
    }
    if exists t :: t in op.subs && sub.source == t.subawardee && t.source == sub.subawardee {
      return false;
    }
    if sub.source != op.awardee {
      if !IsSubawardee(op.subs, sub.source) {
        return false;
      }
      var passedOn := SumSourcedFrom(op.subs, sub.subawardee);
      if sub.amount <= passedOn {
        return false;
      }
    }
    ok := true;
  }

  // The search for two sub-awards that are each other's source never decides: what the other
  // checks let through has none.
  lemma CycleCheckIsRedundant(op: AwardOp)
    requires !IsSubawardee(op.subs, op.awardee) && forall s :: s in op.subs ==> s.amount > 0
    requires forall s :: s in op.subs && s.source != op.awardee ==> s.amount > SourcedFrom(op.subs, s.subawardee)
    ensures forall s, t :: s in op.subs && t in op.subs ==> !(s.source == t.subawardee && t.source == s.subawardee)
  {
    hide SourcedFrom;
    forall s, t | s in op.subs && t in op.subs ensures !(s.source == t.subawardee && t.source == s.subawardee) {
      SourcedFromAtLeast(op.subs, t, s.subawardee);
      SourcedFromAtLeast(op.subs, s, t.subawardee);
    }
  }

  // ---------- Splitting the award ----------

  datatype Recipient = Recipient(number: string, awardee: Account, source: Account, total: int)

  // What a sub-awardee keeps: its sub-award less what it passes on.
  function Kept(subs: seq<SubAward>, s: SubAward): int {
    s.amount - SourcedFrom(subs, s.subawardee)
  }

  function MainShare(op: AwardOp): int
    requires op.amount >= 0
  {
    op.amount - Fee(op.amount, op.overhead) - SourcedFrom(op.subs, op.awardee)
  }

  function RecipientOf(op: AwardOp, s: SubAward): Recipient {
    Recipient(s.number, s.subawardee, s.source, Kept(op.subs, s))
  }

  function RecipientsOf(op: AwardOp): (rs: seq<Recipient>)
    requires op.amount >= 0
    ensures |rs| == |op.subs| + 1
  {
    [Recipient(op.number, op.awardee, "", MainShare(op))] +
    seq(|op.subs|, i requires 0 <= i < |op.subs| => RecipientOf(op, op.subs[i]))
  }

  // The awardee's entry comes first, then one for every sub-award, in the same order.
  lemma RecipientEntries(op: AwardOp, i: nat)
    requires op.amount >= 0
    ensures var rs := RecipientsOf(op);
            && rs[0].number == op.number && rs[0].awardee == op.awardee && rs[0].source == ""
            && (i < |op.subs| ==>
                  && rs[i + 1].number == op.subs[i].number
                  && rs[i + 1].awardee == op.subs[i].subawardee
                  && rs[i + 1].source == op.subs[i].source)
  {
  }

  function SumTotals(rs: seq<Recipient>): int {
    if rs == [] then 0 else SumTotals(rs[..|rs| - 1]) + rs[|rs| - 1].total
  }

  // create_award: the map of what everyone keeps, then one recipient for each.
  method CreateAward(op: AwardOp) returns (recipients: seq<Recipient>)
    requires ValidAwardees(op)
    ensures recipients == RecipientsOf(op)
  {
    hide SourcedFrom, Fee, ValidSubAward;
    var fee := Fee(op.amount, op.overhead);
    var top := SumSourcedFrom(op.subs, op.awardee);
    var awardsMap: map<Account, int> := map[op.awardee := op.amount - fee - top];
    for i := 0 to |op.subs|
      invariant op.awardee in awardsMap && awardsMap[op.awardee] == MainShare(op)
      invariant forall k :: 0 <= k < i ==>
                  op.subs[k].subawardee in awardsMap && awardsMap[op.subs[k].subawardee] == Kept(op.subs, op.subs[k])
    {
      var passedOn := SumSourcedFrom(op.subs, op.subs[i].subawardee);
      assert op.subs[i] in op.subs;
      awardsMap := awardsMap[op.subs[i].subawardee := op.subs[i].amount - passedOn];
    }
    recipients := [Recipient(op.number, op.awardee, "", awardsMap[op.awardee])];
    for i := 0 to |op.subs|
      invariant recipients == RecipientsOf(op)[..i + 1]
    {
      var s := op.subs[i];
      recipients := recipients + [Recipient(s.number, s.subawardee, s.source, awardsMap[s.subawardee])];
    }
  }

  // ---------- Conservation ----------

  // The sub-awards whose source is one of the first n sub-awardees.
  function SourcedWithin(subs: seq<SubAward>, among: seq<SubAward>): int {
    if subs == [] then 0
    else SourcedWithin(subs[..|subs| - 1], among)
         + (if IsSubawardee(among, subs[|subs| - 1].source) then subs[|subs| - 1].amount else 0)
  }

  function SumPassedOn(subs: seq<SubAward>, among: seq<SubAward>): int {
    if among == [] then 0
    else SumPassedOn(subs, among[..|among| - 1]) + SourcedFrom(subs, among[|among| - 1].subawardee)
  }

  function SumAmounts(subs: seq<SubAward>): int {
    if subs == [] then 0 else SumAmounts(subs[..|subs| - 1]) + subs[|subs| - 1].amount
  }

  lemma {:induction false} OneMoreSource(subs: seq<SubAward>, among: seq<SubAward>, s: SubAward)
    requires !IsSubawardee(among, s.subawardee)
    ensures SourcedWithin(subs, among + [s]) == SourcedWithin(subs, among) + SourcedFrom(subs, s.subawardee)
  {
    if subs != [] {
      var last := subs[|subs| - 1];
      OneMoreSource(subs[..|subs| - 1], among, s);
      assert IsSubawardee(among + [s], last.source) <==> IsSubawardee(among, last.source) || last.source == s.subawardee by {
        assert forall t :: t in among + [s] <==> t in among || t == s;
      }
    }
  }

  // Everything passed on by distinct sub-awardees is counted once.
  lemma {:induction false} PassedOnOnce(subs: seq<SubAward>, among: seq<SubAward>)
    requires DistinctSubawardees(among)
    ensures SumPassedOn(subs, among) == SourcedWithin(subs, among)
  {
    if among == [] {
      NothingWithinNone(subs);
    } else {
      var init, last := among[..|among| - 1], among[|among| - 1];
      PassedOnOnce(subs, init);
      OneMoreSource(subs, init, last);
      assert among == init + [last];
    }
  }

  lemma {:induction false} NothingWithinNone(subs: seq<SubAward>)
    ensures SourcedWithin(subs, []) == 0
  {
    if subs != [] {
      NothingWithinNone(subs[..|subs| - 1]);
    }
  }

  // The amounts of sub-awards whose source is neither the awardee nor a sub-awardee.
  function Orphaned(op: AwardOp, subs: seq<SubAward>): int {
    if subs == [] then 0
    else
      var s := subs[|subs| - 1];
      Orphaned(op, subs[..|subs| - 1])
      + (if s.source == op.awardee || IsSubawardee(op.subs, s.source) then 0 else s.amount)
  }

  lemma {:induction false} SourcesPartition(op: AwardOp, subs: seq<SubAward>)
    requires !IsSubawardee(op.subs, op.awardee)
    ensures SumAmounts(subs) == SourcedFrom(subs, op.awardee) + SourcedWithin(subs, op.subs) + Orphaned(op, subs)
  {
    if subs != [] {
      SourcesPartition(op, subs[..|subs| - 1]);
    }
  }

  lemma {:induction false} SumOfRecipients(op: AwardOp, i: nat)
    requires op.amount >= 0 && i <= |op.subs|
    ensures SumTotals(RecipientsOf(op)[..i + 1]) == MainShare(op) + SumAmounts(op.subs[..i]) - SumPassedOn(op.subs, op.subs[..i])
  {
    var rs := RecipientsOf(op);
    if i == 0 {
      assert rs[..1] == [rs[0]] && rs[..1][..0] == [];
    } else {
      SumOfRecipients(op, i - 1);
      assert rs[..i + 1][..i] == rs[..i];
      assert op.subs[..i][..i - 1] == op.subs[..i - 1];
    }
  }

  // For distinct sub-awardees other than the awardee, the fee and the recipients' totals
  // exceed the award by exactly the sub-awards that have no source in the list.
  lemma AwardBalance(op: AwardOp)
    requires op.amount >= 0 && DistinctSubawardees(op.subs) && !IsSubawardee(op.subs, op.awardee)
    ensures Fee(op.amount, op.overhead) + SumTotals(RecipientsOf(op)) == op.amount + Orphaned(op, op.subs)
  {
    SumOfRecipients(op, |op.subs|);
    assert op.subs[..|op.subs|] == op.subs && RecipientsOf(op)[..|op.subs| + 1] == RecipientsOf(op);
    PassedOnOnce(op.subs, op.subs);
    SourcesPartition(op, op.subs);
  }

  lemma {:induction false} NoOrphans(op: AwardOp, n: nat)
    requires ValidAwardees(op) && n <= |op.subs|
    ensures Orphaned(op, op.subs[..n]) == 0
  {
    hide SourcedFrom, Fee, DistinctSubawardees;
    if n > 0 {
      NoOrphans(op, n - 1);
      assert op.subs[..n][..n - 1] == op.subs[..n - 1];
      assert op.subs[n - 1] in op.subs && ValidSubAward(op, op.subs[n - 1]);
    }
  }

  // A validated award is split without remainder.
  lemma AwardIsConserved(op: AwardOp)
    requires ValidAwardees(op)
    ensures Fee(op.amount, op.overhead) + SumTotals(RecipientsOf(op)) == op.amount
  {
    AwardBalance(op);
    NoOrphans(op, |op.subs|);
    assert op.subs[..|op.subs|] == op.subs;
  }

  // ---------- The shape of a validated award ----------

  // Following sources from account leads to the awardee within n steps.
  ghost predicate Reaches(op: AwardOp, account: Account, n: nat)
    decreases n
  {
    account == op.awardee ||
    (n > 0 && exists s :: s in op.subs && s.subawardee == account && Reaches(op, s.source, n - 1))
  }

  lemma {:induction false} SourcedFromAtLeast(subs: seq<SubAward>, s: SubAward, account: Account)
    requires forall t :: t in subs ==> t.amount > 0
    ensures SourcedFrom(subs, account) >= 0
    ensures s in subs && s.source == account ==> SourcedFrom(subs, account) >= s.amount
  {
    if subs != [] {
      SourcedFromAtLeast(subs[..|subs| - 1], s, account);
    }
  }

  // The sub-awards above an amount.
  ghost function Larger(op: AwardOp, amount: int): set<SubAward> {
    set t | t in op.subs && t.amount > amount
  }

  lemma SourceIsLarger(op: AwardOp, s: SubAward, t: SubAward)
    requires ValidAwardees(op) && s in op.subs && t in op.subs
    requires s.source == t.subawardee && t.source != op.awardee
    ensures t.amount > s.amount && Larger(op, t.amount) < Larger(op, s.amount)
  {
    assert ValidSubAward(op, t);
    forall u | u in op.subs ensures u.amount > 0 {
      assert ValidSubAward(op, u);
    }
    SourcedFromAtLeast(op.subs, s, t.subawardee);
    assert t in Larger(op, s.amount) && t !in Larger(op, t.amount);
  }

  // Although only cycles of one or two are looked for, every sub-awardee's chain of sources
  // leads to the awardee: amounts rise strictly along it.
  lemma {:induction false} EveryChainReachesTheAwardee(op: AwardOp, s: SubAward) returns (n: nat)
    requires ValidAwardees(op) && s in op.subs
    ensures n > 0 && Reaches(op, s.subawardee, n)
    decreases Larger(op, s.amount)
  {
    hide ValidAwardees;
    if s.source == op.awardee {
      n := 1;
    } else {
      var t := SourceOf(op, s);
      if t.source == op.awardee {
        n := 2;
        assert Reaches(op, t.subawardee, 1);
      } else {
        SourceIsLarger(op, s, t);
        var m := EveryChainReachesTheAwardee(op, t);
        n := m + 1;
      }
    }
  }

  lemma SourceOf(op: AwardOp, s: SubAward) returns (t: SubAward)
    requires ValidAwardees(op) && s in op.subs && s.source != op.awardee
    ensures t in op.subs && t.subawardee == s.source
  {
    assert ValidSubAward(op, s);
    t :| t in op.subs && t.subawardee == s.source;
  }

  // Every recipient keeps something exactly when no sub-award straight from the awardee
  // passes on as much as it is; validation checks that only for the other sub-awards.
  lemma TotalsPositiveIff(op: AwardOp)
    requires ValidAwardees(op)
    ensures (forall r :: r in RecipientsOf(op) ==> r.total > 0) <==>
            (forall s :: s in op.subs && s.source == op.awardee ==> s.amount > SourcedFrom(op.subs, s.subawardee))
  {
    hide SourcedFrom, Fee, DistinctSubawardees;
    var rs := RecipientsOf(op);
    forall s | s in op.subs ensures RecipientOf(op, s) in rs {
      var i :| 0 <= i < |op.subs| && op.subs[i] == s;
      assert rs[i + 1] == RecipientOf(op, s);
    }
    forall r | r in rs ensures r.total > 0 || exists s :: s in op.subs && r == RecipientOf(op, s) {
      var i :| 0 <= i < |rs| && rs[i] == r;
      if i > 0 {
        assert op.subs[i - 1] in op.subs;
      }
    }
    forall s | s in op.subs ensures ValidSubAward(op, s) {
    }
    if forall r :: r in rs ==> r.total > 0 {
      forall s | s in op.subs ensures s.amount > SourcedFrom(op.subs, s.subawardee) {
        assert RecipientOf(op, s).total > 0;
      }
    }
  }

  // A sub-award of 10 that passes on 100 is accepted, and its recipient's total is negative.
  lemma NegativeTotalIsAccepted()
    ensures var op := AwardOp("n", "a", 1000, 0, [SubAward("1", "b", "a", 10), SubAward("2", "c", "b", 100)]);
            ValidAwardees(op) && RecipientsOf(op)[1].total == -90
  {
    hide SourcedFrom;
    var s, t := SubAward("1", "b", "a", 10), SubAward("2", "c", "b", 100);
    var subs := [s, t];
    var op := AwardOp("n", "a", 1000, 0, subs);
    assert "a"[0] != "b"[0] && "a"[0] != "c"[0] && "b"[0] != "c"[0];
    TwoSubAwards(s, t, "a");
    TwoSubAwards(s, t, "b");
    TwoSubAwards(s, t, "c");
    assert subs[0] == s && s in subs && subs[1] == t && t in subs;
    assert forall u :: u in subs ==> u == s || u == t;
    assert ValidSubAward(op, s);
    assert ValidSubAward(op, t);
  }

  lemma TwoSubAwards(s: SubAward, t: SubAward, account: Account)
    ensures SourcedFrom([s, t], account) ==
            (if s.source == account then s.amount else 0) + (if t.source == account then t.amount else 0)
  {
    assert [s, t][..1] == [s] && [s][..0] == [];
    assert SourcedFrom([s], account) == if s.source == account then s.amount else 0;
  }

  // ---------- Approval ----------

  datatype AwardStatus = Pending | Approved | Rejected
  datatype RecipientStatus = Unconfirmed | Confirmed | Canceled
  datatype AwardError = NotAnOfficer | NotPending | NotEnoughFunds | SupplyExhausted

  // The balances after crediting the recipients in order, if no adjustment is refused.
  predicate CanCredit(book: Book, symbol: Symbol, rs: seq<Recipient>)
    decreases |rs|
  {
    rs == [] ||
    (CanAdjust(book, rs[0].awardee, symbol, rs[0].total)
     && CanCredit(Adjusted(book, rs[0].awardee, symbol, rs[0].total), symbol, rs[1..]))
  }

  function Credited(book: Book, symbol: Symbol, rs: seq<Recipient>): Book
    decreases |rs|
  {
    if rs == [] then book else Credited(Adjusted(book, rs[0].awardee, symbol, rs[0].total), symbol, rs[1..])
  }

  // What an account is owed over a list of recipients.
  function OwedTo(rs: seq<Recipient>, account: Account): int {
    if rs == [] then 0 else (if rs[0].awardee == account then rs[0].total else 0) + OwedTo(rs[1..], account)
  }

  function SumFromFront(rs: seq<Recipient>): int {
    if rs == [] then 0 else rs[0].total + SumFromFront(rs[1..])
  }

  lemma {:induction false} SumsAgree(rs: seq<Recipient>)
    ensures SumFromFront(rs) == SumTotals(rs)
  {
    if rs != [] {
      SumPrepend(rs[0], rs[1..]);
      SumsAgree(rs[1..]);
      assert rs == [rs[0]] + rs[1..];
    }
  }

  lemma {:induction false} SumPrepend(r: Recipient, rs: seq<Recipient>)
    ensures SumTotals([r] + rs) == r.total + SumTotals(rs)
  {
    if rs == [] {
      assert [r] + rs == [r] && [r][..0] == [];
    } else {
      assert ([r] + rs)[..|rs|] == [r] + rs[..|rs| - 1];
      SumPrepend(r, rs[..|rs| - 1]);
    }
  }

  lemma {:induction false} CreditedTotals(book: Book, symbol: Symbol, rs: seq<Recipient>)
    ensures var after := Credited(book, symbol, rs);
            && Total(Column(after, symbol)) == Total(Column(book, symbol)) + SumTotals(rs)
            && (forall a :: BalanceIn(after, a, symbol) == BalanceIn(book, a, symbol) + OwedTo(rs, a))
            && forall other :: other != symbol ==> Column(after, other) == Column(book, other)
    decreases |rs|
  {
    SumsAgree(rs);
    if rs != [] {
      AdjustedTotals(book, rs[0].awardee, symbol, rs[0].total);
      CreditedTotals(Adjusted(book, rs[0].awardee, symbol, rs[0].total), symbol, rs[1..]);
      SumsAgree(rs[1..]);
    }
  }

  class AwardRecord {
    const op: AwardOp
    const symbol: Symbol
    const universityCreator: Account
    const officers: set<Account>
    var status: AwardStatus
    var recipientStatus: RecipientStatus
    // The funding opportunity's remaining supply.
    var supply: int

    constructor (op: AwardOp, symbol: Symbol, universityCreator: Account, officers: set<Account>, supply: int)
      ensures this.op == op && this.symbol == symbol && this.universityCreator == universityCreator
      ensures this.officers == officers && this.supply == supply && status == Pending && recipientStatus == Unconfirmed
    {
      this.op, this.symbol, this.universityCreator, this.officers := op, symbol, universityCreator, officers;
      this.supply, status, recipientStatus := supply, Pending, Unconfirmed;
    }

    // The balances once the fee and every recipient have been credited, in the given order.
    function BookAfter(book: Book, order: seq<Recipient>): Book
      requires op.amount >= 0
    {
      Credited(Adjusted(book, universityCreator, symbol, Fee(op.amount, op.overhead)), symbol, order)
    }

    predicate Creditable(book: Book, order: seq<Recipient>)
      requires op.amount >= 0
    {
      CanCredit(Adjusted(book, universityCreator, symbol, Fee(op.amount, op.overhead)), symbol, order)
    }

    // approve_award: all or nothing, as a failed operation's changes are undone. The order is
    // that of the index of recipients.
    method Approve(approver: Account, ledger: AccountBalances, order: seq<Recipient>) returns (error: Option<AwardError>)
      requires ValidAwardees(op) && op.amount >= 0 && multiset(order) == multiset(RecipientsOf(op))
      modifies this`status, this`recipientStatus, this`supply, ledger
      ensures error.None? <==>
                approver in officers && old(status) == Pending && Creditable(old(ledger.book), order) && old(supply) > op.amount
      ensures error.None? ==>
                && status == Approved && recipientStatus == Confirmed
                && supply == old(supply) - op.amount
                && ledger.book == BookAfter(old(ledger.book), order)
      ensures error.Some? ==>
                && status == old(status) && recipientStatus == old(recipientStatus)
                && supply == old(supply) && ledger.book == old(ledger.book)
    {
      hide CanCredit, Credited, ValidAwardees, RecipientsOf, Fee, Adjusted, CanAdjust;
      if approver !in officers {
        return Some(NotAnOfficer);
      }
      if status != Pending {
        return Some(NotPending);
      }
      var before := ledger.book;
      FeeIsNotNegative(op);
      var ok := ledger.Adjust(universityCreator, symbol, Fee(op.amount, op.overhead));
      ok := CreditAll(ledger, symbol, order);
      if !ok {
        ledger.book := before;
        return Some(NotEnoughFunds);
      }
      if supply - op.amount <= 0 {
        ledger.book := before;
        return Some(SupplyExhausted);
      }
      recipientStatus := Confirmed;
      supply := supply - op.amount;
      status := Approved;
      error := None;
    }

    // reject_award.
    method Reject(rejector: Account) returns (error: Option<AwardError>)
      modifies this`status, this`recipientStatus
      ensures error.None? <==> rejector in officers && old(status) == Pending
      ensures error.None? ==> status == Rejected && recipientStatus == Canceled
      ensures error.Some? ==> status == old(status) && recipientStatus == old(recipientStatus)
    {
      if rejector !in officers {
        return Some(NotAnOfficer);
      }
      if status != Pending {
        return Some(NotPending);
      }
      recipientStatus := Canceled;
      status := Rejected;
      error := None;
    }
  }

  // Credits the recipients one after the other until one is refused.
  method CreditAll(ledger: AccountBalances, symbol: Symbol, rs: seq<Recipient>) returns (ok: bool)
    modifies ledger
    ensures ok == CanCredit(old(ledger.book), symbol, rs)
    ensures ok ==> ledger.book == Credited(old(ledger.book), symbol, rs)
  {
    var i := 0;
    assert rs[0..] == rs;
    while i < |rs|
      invariant i <= |rs|
      invariant CanCredit(old(ledger.book), symbol, rs) == CanCredit(ledger.book, symbol, rs[i..])
      invariant Credited(old(ledger.book), symbol, rs) == Credited(ledger.book, symbol, rs[i..])
    {
      assert rs[i..][1..] == rs[i + 1..] && rs[i..][0] == rs[i];
      ok := ledger.Adjust(rs[i].awardee, symbol, rs[i].total);
      if !ok {
        return;
      }
      i := i + 1;
    }
    ok := true;
  }

  // Crediting the fee is never refused.
  lemma FeeIsNotNegative(op: AwardOp)
    requires op.amount >= 0
    ensures Fee(op.amount, op.overhead) >= 0
    ensures forall book, a, symbol :: CanAdjust(book, a, symbol, Fee(op.amount, op.overhead))
  {
    assert op.amount * op.overhead >= 0;
  }

  lemma {:induction false} SumWithout(rs: seq<Recipient>, i: nat)
    requires i < |rs|
    ensures SumFromFront(rs) == rs[i].total + SumFromFront(rs[..i] + rs[i + 1..])
    ensures forall a :: OwedTo(rs, a) == (if rs[i].awardee == a then rs[i].total else 0) + OwedTo(rs[..i] + rs[i + 1..], a)
  {
    if i == 0 {
      assert rs[..0] + rs[1..] == rs[1..];
    } else {
      var less := rs[..i] + rs[i + 1..];
      SumWithout(rs[1..], i - 1);
      assert less[1..] == rs[1..][..i - 1] + rs[1..][i..];
    }
  }

  // Sums do not depend on the order.
  lemma {:induction false} SameRecipientsSameSums(a: seq<Recipient>, b: seq<Recipient>)
    requires multiset(a) == multiset(b)
    ensures SumFromFront(a) == SumFromFront(b)
    ensures forall account :: OwedTo(a, account) == OwedTo(b, account)
    decreases |a|
  {
    assert |multiset(a)| == |a| && |multiset(b)| == |b|;
    if a == [] {
      assert |multiset(b)| == 0;
    } else {
      var i := RestIsSame(a, b);
      SumWithout(b, i);
      SameRecipientsSameSums(a[1..], b[..i] + b[i + 1..]);
    }
  }

  lemma RestIsSame(a: seq<Recipient>, b: seq<Recipient>) returns (i: nat)
    requires a != [] && multiset(a) == multiset(b)
    ensures i < |b| && b[i] == a[0] && multiset(a[1..]) == multiset(b[..i] + b[i + 1..])
  {
    i := PositionOf(a[0], a, b);
    WithoutFirst(a);
    WithoutOne(b, i);
  }

  lemma PositionOf(r: Recipient, a: seq<Recipient>, b: seq<Recipient>) returns (i: nat)
    requires r in a && multiset(a) == multiset(b)
    ensures i < |b| && b[i] == r
  {
    assert r in multiset(b);
    i :| 0 <= i < |b| && b[i] == r;
  }

  lemma WithoutFirst(rs: seq<Recipient>)
    requires rs != []
    ensures multiset(rs[1..]) == multiset(rs) - multiset{rs[0]}
  {
    assert rs == [rs[0]] + rs[1..];
  }

  lemma WithoutOne(rs: seq<Recipient>, i: nat)
    requires i < |rs|
    ensures multiset(rs[..i] + rs[i + 1..]) == multiset(rs) - multiset{rs[i]}
  {
    assert rs == rs[..i] + [rs[i]] + rs[i + 1..];
  }

  // ---------- Who gets what ----------

  // What the award is meant to give an account: a sub-awardee its sub-award less what it passes
  // on, the awardee the rest of the award after the fee, everybody else nothing.
  ghost predicate IsShareOf(op: AwardOp, account: Account, share: int)
    requires op.amount >= 0
  {
    && (account == op.awardee ==> share == op.amount - Fee(op.amount, op.overhead) - SourcedFrom(op.subs, account))
    && (forall s :: s in op.subs && s.subawardee == account ==> share == s.amount - SourcedFrom(op.subs, account))
    && (account != op.awardee && !IsSubawardee(op.subs, account) ==> share == 0)
  }

  lemma {:induction false} OwedToConcat(a: seq<Recipient>, b: seq<Recipient>, account: Account)
    ensures OwedTo(a + b, account) == OwedTo(a, account) + OwedTo(b, account)
  {
    if a == [] {
      assert a + b == b;
    } else {
      assert (a + b)[1..] == a[1..] + b;
      OwedToConcat(a[1..], b, account);
    }
  }

  // The recipients up to that of the first n sub-awards owe the account its share once its
  // sub-award is among them.
  lemma {:induction false} OwedByFirst(op: AwardOp, n: nat, account: Account)
    requires op.amount >= 0 && n <= |op.subs| && DistinctSubawardees(op.subs) && !IsSubawardee(op.subs, op.awardee)
    ensures var owed := OwedTo(RecipientsOf(op)[..n + 1], account);
            && (account == op.awardee ==> owed == op.amount - Fee(op.amount, op.overhead) - SourcedFrom(op.subs, account))
            && (forall i :: 0 <= i < n && op.subs[i].subawardee == account ==> owed == op.subs[i].amount - SourcedFrom(op.subs, account))
            && (account != op.awardee && (forall i :: 0 <= i < n ==> op.subs[i].subawardee != account) ==> owed == 0)
  {
    hide SourcedFrom, Fee;
    var rs := RecipientsOf(op);
    if n == 0 {
      assert rs[..1] == [rs[0]] && [rs[0]][1..] == [];
    } else {
      OwedByFirst(op, n - 1, account);
      assert rs[..n + 1] == rs[..n] + [rs[n]];
      OwedToConcat(rs[..n], [rs[n]], account);
      assert [rs[n]][1..] == [];
      assert op.subs[n - 1] in op.subs;
    }
  }

  // Over the recipients of a validated award every account is owed exactly its share.
  lemma EveryShareIsOwed(op: AwardOp, account: Account)
    requires ValidAwardees(op)
    ensures IsShareOf(op, account, OwedTo(RecipientsOf(op), account))
  {
    hide SourcedFrom, Fee, OwedTo, ValidSubAward, RecipientsOf;
    var owed := OwedTo(RecipientsOf(op), account);
    OwedByFirst(op, |op.subs|, account);
    assert RecipientsOf(op)[..|op.subs| + 1] == RecipientsOf(op);
    forall s | s in op.subs && s.subawardee == account ensures owed == s.amount - SourcedFrom(op.subs, account) {
      var i :| 0 <= i < |op.subs| && op.subs[i] == s;
    }
    if account != op.awardee && !IsSubawardee(op.subs, account) {
      forall i | 0 <= i < |op.subs| ensures op.subs[i].subawardee != account {
        assert op.subs[i] in op.subs;
      }
    }
  }

  // In whatever order the recipients come, approval moves exactly the award from the funding
  // opportunity's supply to accounts, and each account gets its share, the university the fee.
  lemma ApprovalConserves(record: AwardRecord, book: Book, order: seq<Recipient>)
    requires ValidAwardees(record.op) && multiset(order) == multiset(RecipientsOf(record.op))
    ensures var after := record.BookAfter(book, order);
            && Total(Column(after, record.symbol)) == Total(Column(book, record.symbol)) + record.op.amount
            && (forall other :: other != record.symbol ==> Column(after, other) == Column(book, other))
            && forall a :: IsShareOf(record.op, a,
                 BalanceIn(after, a, record.symbol) - BalanceIn(book, a, record.symbol)
                 - (if a == record.universityCreator then Fee(record.op.amount, record.op.overhead) else 0))
  {
    hide OwedTo, Total, RecipientsOf, Fee, IsShareOf, ValidAwardees, AwardRecord.BookAfter;
    var op := record.op;
    AmountIsPositive(op);
    CreditsWhatIsOwed(record, book, order);
    forall a ensures IsShareOf(op, a,
                       BalanceIn(record.BookAfter(book, order), a, record.symbol) - BalanceIn(book, a, record.symbol)
                       - (if a == record.universityCreator then Fee(op.amount, op.overhead) else 0))
    {
      EveryShareIsOwed(op, a);
    }
  }

  lemma AmountIsPositive(op: AwardOp)
    requires ValidAwardees(op)
    ensures op.amount > 0
  {
  }

  lemma CreditsWhatIsOwed(record: AwardRecord, book: Book, order: seq<Recipient>)
    requires ValidAwardees(record.op) && multiset(order) == multiset(RecipientsOf(record.op))
    ensures var after := record.BookAfter(book, order);
            && Total(Column(after, record.symbol)) == Total(Column(book, record.symbol)) + record.op.amount
            && (forall other :: other != record.symbol ==> Column(after, other) == Column(book, other))
            && forall a :: BalanceIn(after, a, record.symbol) ==
                 BalanceIn(book, a, record.symbol) + OwedTo(RecipientsOf(record.op), a)
                 + (if a == record.universityCreator then Fee(record.op.amount, record.op.overhead) else 0)
  {
    hide Credited, OwedTo, Total, SumTotals, SumFromFront, RecipientsOf, Fee;
    var op := record.op;
    var rs, fee := RecipientsOf(op), Fee(op.amount, op.overhead);
    FeeIsNotNegative(op);
    AdjustedTotals(book, record.universityCreator, record.symbol, fee);
    CreditedTotals(Adjusted(book, record.universityCreator, record.symbol, fee), record.symbol, order);
    SameRecipientsSameSums(order, rs);
    SumsAgree(order);
    SumsAgree(rs);
    AwardIsConserved(op);
  }

  // An award of the whole supply, which creating it allows, can never be approved.
  method WholeSupplyIsRefused(op: AwardOp, symbol: Symbol, university: Account, officers: set<Account>,
      approver: Account, ledger: AccountBalances) returns (error: Option<AwardError>)
    requires ValidAwardees(op)
    modifies ledger
    ensures error.Some? && ledger.book == old(ledger.book)
  {
    var record := new AwardRecord(op, symbol, university, officers, op.amount);
    error := record.Approve(approver, ledger, RecipientsOf(op));
  }

  ghost predicate NonNegativeAfter(book: Book, symbol: Symbol, rs: seq<Recipient>, k: nat)
    requires k <= |rs|
  {
    NonNegative(Credited(book, symbol, rs[..k]))
  }

  // Crediting is allowed exactly when it takes no balance below zero on the way.
  lemma {:induction false} CreditingKeepsBalances(book: Book, symbol: Symbol, rs: seq<Recipient>)
    requires NonNegative(book)
    ensures CanCredit(book, symbol, rs) <==> forall k :: 0 <= k <= |rs| ==> NonNegativeAfter(book, symbol, rs, k)
    decreases |rs|
  {
    hide NonNegative, Credited, Adjusted, CanAdjust;
    NoCreditYet(book, symbol, rs);
    if rs != [] {
      var next := Adjusted(book, rs[0].awardee, symbol, rs[0].total);
      AdjustedTotals(book, rs[0].awardee, symbol, rs[0].total);
      CreditedTails(book, symbol, rs);
      FirstCredit(book, symbol, rs);
      if CanAdjust(book, rs[0].awardee, symbol, rs[0].total) {
        CreditingKeepsBalances(next, symbol, rs[1..]);
        forall j | 0 <= j <= |rs[1..]| ensures NonNegativeAfter(next, symbol, rs[1..], j) <==> NonNegativeAfter(book, symbol, rs, j + 1) {
        }
        forall k | 1 <= k <= |rs| ensures NonNegativeAfter(book, symbol, rs, k) <==> NonNegativeAfter(next, symbol, rs[1..], k - 1) {
        }
      }
    }
  }

  lemma NoCreditYet(book: Book, symbol: Symbol, rs: seq<Recipient>)
    requires NonNegative(book)
    ensures NonNegativeAfter(book, symbol, rs, 0)
  {
    assert rs[..0] == [];
  }

  lemma CreditedTails(book: Book, symbol: Symbol, rs: seq<Recipient>)
    requires rs != []
    ensures Credited(book, symbol, rs[..0]) == book
    ensures forall k :: 0 <= k <= |rs[1..]| ==>
              Credited(book, symbol, rs[..k + 1]) == Credited(Adjusted(book, rs[0].awardee, symbol, rs[0].total), symbol, rs[1..][..k])
  {
    forall k | 0 <= k <= |rs[1..]|
      ensures Credited(book, symbol, rs[..k + 1]) == Credited(Adjusted(book, rs[0].awardee, symbol, rs[0].total), symbol, rs[1..][..k])
    {
      assert rs[..k + 1][1..] == rs[1..][..k];
    }
  }

  lemma FirstCredit(book: Book, symbol: Symbol, rs: seq<Recipient>)
    requires NonNegative(book) && rs != []
    ensures NonNegativeAfter(book, symbol, rs, 1) <==> CanAdjust(book, rs[0].awardee, symbol, rs[0].total)
  {
    assert rs[..1][1..] == [];
    AdjustedTotals(book, rs[0].awardee, symbol, rs[0].total);
    var after := Adjusted(book, rs[0].awardee, symbol, rs[0].total);
    assert rs[..1] == [rs[0]] && Credited(after, symbol, []) == after;
    assert Credited(book, symbol, rs[..1]) == after;
    assert symbol in after && rs[0].awardee in after[symbol];
    assert after[symbol][rs[0].awardee] == BalanceIn(after, rs[0].awardee, symbol);
  }

  // With positive totals no credit is ever refused.
  lemma {:induction false} PositiveTotalsAreCredited(book: Book, symbol: Symbol, rs: seq<Recipient>)
    requires forall r :: r in rs ==> r.total > 0
    ensures CanCredit(book, symbol, rs)
    decreases |rs|
  {
    if rs != [] {
      PositiveTotalsAreCredited(Adjusted(book, rs[0].awardee, symbol, rs[0].total), symbol, rs[1..]);
    }
  }
}
