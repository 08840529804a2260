/** Payments out of an approved award: requests that are certified, approved and paid, many of
    them open at once, charged to recipients whose totals they must not exceed. */
module AwardPayments {
  import opened Wrappers
  import opened Ledger

  const USD: Symbol := "USD"

  datatype Status = Pending | Certified | Approved | Paid | Rejected

  datatype Request = Request(subaward: string, requester: Account, amount: int, status: Status)

  datatype Recipient = Recipient(awardee: Account, total: int, expenses: int)

  // One award's recipients by sub-award number and requests by payment number, the supply of
  // the granted asset, and all account balances.
  datatype State = State(
    awardApproved: bool,
    recipients: map<string, Recipient>,
    requests: map<string, Request>,
    supply: int,
    book: Book)

  datatype Event =
    | Create(payment: string, subaward: string, requester: Account, amount: int)
    | Certify(payment: string, subaward: string)
    | Approve(payment: string, subaward: string)
    | Reject(payment: string, subaward: string)
    | Pay(payment: string, subaward: string)

  // What the four later operations share: the request and the named recipient exist, and the
  // recipient is the requester.
  predicate Addressed(s: State, payment: string, subaward: string) {
    && payment in s.requests && subaward in s.recipients
    && s.recipients[subaward].awardee == s.requests[payment].requester
  }

  function WithStatus(s: State, payment: string, status: Status): State
    requires payment in s.requests
  {
    s.(requests := s.requests[payment := s.requests[payment].(status := status)])
  }

  function PaidOutBook(book: Book, requester: Account, treasury: Account, amount: int): Book {
    Adjusted(Adjusted(book, requester, USD, amount), treasury, USD, -amount)
  }

  predicate CanPay(s: State, payment: string, subaward: string, treasury: Account) {
    && Addressed(s, payment, subaward) && s.requests[payment].status == Approved
    && (var w := s.requests[payment];
        && s.recipients[subaward].total - s.recipients[subaward].expenses >= w.amount
        && s.supply - w.amount >= 0
        && CanAdjust(s.book, w.requester, USD, w.amount)
        && CanAdjust(Adjusted(s.book, w.requester, USD, w.amount), treasury, USD, -w.amount))
  }

  function AfterPayment(s: State, payment: string, subaward: string, treasury: Account): State
    requires Addressed(s, payment, subaward)
  {
    var w := s.requests[payment];
    var r := s.recipients[subaward];
    WithStatus(s, payment, Paid).(
      recipients := s.recipients[subaward := r.(expenses := r.expenses + w.amount)],
      supply := s.supply - w.amount,
      book := PaidOutBook(s.book, w.requester, treasury, w.amount))
  }

  // One operation; None when it is refused, which leaves everything as it was.
  function Apply(s: State, e: Event, treasury: Account): Option<State> {
    match e
    case Create(payment, subaward, requester, amount) =>
      if amount > 0 && s.awardApproved && subaward in s.recipients && s.recipients[subaward].awardee == requester
         && s.recipients[subaward].total - s.recipients[subaward].expenses >= amount && payment !in s.requests
      then Some(s.(requests := s.requests[payment := Request(subaward, requester, amount, Pending)]))
      else None
    case Certify(payment, subaward) =>
      if Addressed(s, payment, subaward) && s.requests[payment].status == Pending
      then Some(WithStatus(s, payment, Certified)) else None
    case Approve(payment, subaward) =>
      if Addressed(s, payment, subaward) && s.requests[payment].status == Certified
      then Some(WithStatus(s, payment, Approved)) else None
    case Reject(payment, subaward) =>
      if Addressed(s, payment, subaward) && s.requests[payment].status in {Pending, Certified}
      then Some(WithStatus(s, payment, Rejected)) else None
    case Pay(payment, subaward) =>
      if CanPay(s, payment, subaward, treasury) then Some(AfterPayment(s, payment, subaward, treasury)) else None
  }

  // The steps a request may take.
  predicate MayFollow(from: Status, to: Status) {
    from == to
    || (from == Pending && to in {Certified, Rejected})
    || (from == Certified && to in {Approved, Rejected})
    || (from == Approved && to == Paid)
  }

  // No request is lost or rewritten, and each status is one that may follow.
  ghost predicate RequestsMoveOn(before: map<string, Request>, after: map<string, Request>) {
    forall p :: p in before ==>
      && p in after && after[p] == before[p].(status := after[p].status)
      && MayFollow(before[p].status, after[p].status)
  }

  // ---------- The evaluators ----------

  class PaymentDesk {
    const treasury: Account
    const ledger: AccountBalances
    var awardApproved: bool
    var recipients: map<string, Recipient>
    var requests: map<string, Request>
    var supply: int

    constructor (s: State, treasury: Account)
      ensures View() == s && this.treasury == treasury && fresh(ledger)
    {
      this.treasury := treasury;
      ledger := new AccountBalances(s.book);
      awardApproved, recipients, requests, supply := s.awardApproved, s.recipients, s.requests, s.supply;
    }

    ghost function View(): State
      reads this, ledger
    {
      State(awardApproved, recipients, requests, supply, ledger.book)
    }

    ghost predicate Applied(before: State, e: Event, ok: bool)
      reads this, ledger
    {
      match Apply(before, e, treasury)
      case None => !ok && View() == before
      case Some(after) => ok && View() == after
    }

    method CreateRequest(payment: string, subaward: string, requester: Account, amount: int) returns (ok: bool)
      modifies this`requests
      ensures Applied(old(View()), Create(payment, subaward, requester, amount), ok)
    {
      if amount <= 0 || !awardApproved || subaward !in recipients {
        return false;
      }
      var recipient := recipients[subaward];
      if recipient.awardee != requester || recipient.total - recipient.expenses < amount || payment in requests {
        return false;
      }
      requests := requests[payment := Request(subaward, requester, amount, Pending)];
      ok := true;
    }

    method CertifyRequest(payment: string, subaward: string) returns (ok: bool)
      modifies this`requests
      ensures Applied(old(View()), Certify(payment, subaward), ok)
      ensures RequestsMoveOn(old(requests), requests)
    {
      if payment !in requests || subaward !in recipients || recipients[subaward].awardee != requests[payment].requester {
        return false;
      }
      if requests[payment].status != Pending {
        return false;
      }
      requests := requests[payment := requests[payment].(status := Certified)];
      ok := true;
    }

    method ApproveRequest(payment: string, subaward: string) returns (ok: bool)
      modifies this`requests
      ensures Applied(old(View()), Approve(payment, subaward), ok)
      ensures RequestsMoveOn(old(requests), requests)
    {
      if payment !in requests || subaward !in recipients || recipients[subaward].awardee != requests[payment].requester {
        return false;
      }
      if requests[payment].status != Certified {
        return false;
      }
      requests := requests[payment := requests[payment].(status := Approved)];
      ok := true;
    }

    method RejectRequest(payment: string, subaward: string) returns (ok: bool)
      modifies this`requests
      ensures Applied(old(View()), Reject(payment, subaward), ok)
      ensures RequestsMoveOn(old(requests), requests)
    {
      if payment !in requests || subaward !in recipients || recipients[subaward].awardee != requests[payment].requester {
        return false;
      }
      if requests[payment].status != Pending && requests[payment].status != Certified {
        return false;
      }
      requests := requests[payment := requests[payment].(status := Rejected)];
      ok := true;
    }

    // pay_award_withdrawal_request. One granted unit pays out one unit of USD.
    method PayRequest(payment: string, subaward: string) returns (ok: bool)
      modifies this`requests, this`recipients, this`supply, ledger
      ensures Applied(old(View()), Pay(payment, subaward), ok)
      ensures ok ==>
                && payment in old(requests)
                && forall a :: BalanceIn(ledger.book, a, USD) == BalanceIn(old(ledger.book), a, USD)
                     + (if a == old(requests)[payment].requester then old(requests)[payment].amount else 0)
                     - (if a == treasury then old(requests)[payment].amount else 0)
    {
      hide Adjusted, CanAdjust, BalanceIn;
      if payment !in requests || subaward !in recipients || recipients[subaward].awardee != requests[payment].requester {
        return false;
      }
      var withdrawal := requests[payment];
      var recipient := recipients[subaward];
      if withdrawal.status != Approved || recipient.total - recipient.expenses < withdrawal.amount {
        return false;
      }
      if supply - withdrawal.amount < 0 {
        return false;
      }
      var before := ledger.book;
      var payout := withdrawal.amount;
      ok := ledger.Adjust(withdrawal.requester, USD, payout);
      if !ok {
        return;
      }
      ok := ledger.Adjust(treasury, USD, -payout);
      if !ok {
        ledger.book := before;
        return;
      }
      recipients := recipients[subaward := recipient.(expenses := recipient.expenses + withdrawal.amount)];
      supply := supply - withdrawal.amount;
      requests := requests[payment := withdrawal.(status := Paid)];
      PaymentMoves(before, withdrawal.requester, treasury, payout);
    }
  }

  // ---------- Runs ----------

  // A payment that was made: for which request, charged to which recipient.
  datatype Payment = Payment(payment: string, subaward: string, amount: int)

  function PaymentsOf(s: State, e: Event, treasury: Account): seq<Payment> {
    if e.Pay? && CanPay(s, e.payment, e.subaward, treasury)
    then [Payment(e.payment, e.subaward, s.requests[e.payment].amount)] else []
  }

  datatype History = History(state: State, made: seq<Payment>)

  // The history after one more operation.
  function Extended(h: History, e: Event, treasury: Account): History {
    History(match Apply(h.state, e, treasury) case None => h.state case Some(s) => s,
            h.made + PaymentsOf(h.state, e, treasury))
  }

  // The state and the payments made after any operations, refused ones included.
  function Run(start: State, events: seq<Event>, treasury: Account): History {
    if events == [] then History(start, [])
    else
      Extended(Run(start, events[..|events| - 1], treasury), events[|events| - 1], treasury)
  }

  function ChargedTo(made: seq<Payment>, subaward: string): int {
    if made == [] then 0
    else ChargedTo(made[..|made| - 1], subaward)
         + (if made[|made| - 1].subaward == subaward then made[|made| - 1].amount else 0)
  }

  function AllPaid(made: seq<Payment>): int {
    if made == [] then 0 else AllPaid(made[..|made| - 1]) + made[|made| - 1].amount
  }

  // An award just created: nothing requested, nothing spent.
  predicate Untouched(s: State) {
    s.requests == map[] && forall r :: r in s.recipients ==> s.recipients[r].expenses == 0
  }

  ghost predicate Accounted(start: State, h: History) {
    && h.state.recipients.Keys == start.recipients.Keys
    && (forall r :: r in start.recipients ==>
          && h.state.recipients[r].awardee == start.recipients[r].awardee
          && h.state.recipients[r].total == start.recipients[r].total
          && h.state.recipients[r].expenses == ChargedTo(h.made, r)
          && (ChargedTo(h.made, r) == 0 || 0 < ChargedTo(h.made, r) <= start.recipients[r].total))
    && (forall p :: p in h.state.requests ==> h.state.requests[p].amount > 0)
    && h.state.supply + AllPaid(h.made) == start.supply
    && Total(Column(h.state.book, USD)) == Total(Column(start.book, USD))
  }

  ghost predicate PaidOnce(h: History) {
    && (forall i, j :: 0 <= i < j < |h.made| ==> h.made[i].payment != h.made[j].payment)
    && (forall i :: 0 <= i < |h.made| ==>
          && h.made[i].payment in h.state.requests
          && h.state.requests[h.made[i].payment].status == Paid
          && h.state.requests[h.made[i].payment].amount == h.made[i].amount)
    && (forall p :: p in h.state.requests && h.state.requests[p].status == Paid ==>
          exists i :: 0 <= i < |h.made| && h.made[i].payment == p)
  }

  lemma ChargeOneMore(made: seq<Payment>, p: Payment)
    ensures forall r :: ChargedTo(made + [p], r) == ChargedTo(made, r) + (if p.subaward == r then p.amount else 0)
    ensures AllPaid(made + [p]) == AllPaid(made) + p.amount
  {
    assert (made + [p])[..|made|] == made;
  }

  lemma PaymentNetsToZero(book: Book, requester: Account, treasury: Account, amount: int)
    ensures Total(Column(PaidOutBook(book, requester, treasury, amount), USD)) == Total(Column(book, USD))
  {
    AdjustedTotals(book, requester, USD, amount);
    AdjustedTotals(Adjusted(book, requester, USD, amount), treasury, USD, -amount);
  }

  lemma PaymentIsAccounted(start: State, h: History, payment: string, subaward: string, treasury: Account)
    requires Accounted(start, h) && CanPay(h.state, payment, subaward, treasury)
    ensures Accounted(start, Extended(h, Pay(payment, subaward), treasury))
  {
    hide Total, Adjusted, CanAdjust, ChargedTo, AllPaid, PaidOutBook;
    var w := h.state.requests[payment];
    ChargeOneMore(h.made, Payment(payment, subaward, w.amount));
    PaymentNetsToZero(h.state.book, w.requester, treasury, w.amount);
  }

  lemma OtherStepIsAccounted(start: State, h: History, e: Event, treasury: Account)
    requires Accounted(start, h) && !(e.Pay? && CanPay(h.state, e.payment, e.subaward, treasury))
    ensures Accounted(start, Extended(h, e, treasury))
  {
    hide Total, CanPay, ChargedTo, AllPaid, PaidOutBook;
    assert h.made + [] == h.made;
  }

  lemma StepIsAccounted(start: State, h: History, e: Event, treasury: Account)
    requires Accounted(start, h)
    ensures Accounted(start, Extended(h, e, treasury))
  {
    hide Accounted, Extended, CanPay;
    if e.Pay? && CanPay(h.state, e.payment, e.subaward, treasury) {
      PaymentIsAccounted(start, h, e.payment, e.subaward, treasury);
    } else {
      OtherStepIsAccounted(start, h, e, treasury);
    }
  }

  lemma PaymentPaysOnce(h: History, payment: string, subaward: string, treasury: Account)
    requires PaidOnce(h) && CanPay(h.state, payment, subaward, treasury)
    ensures PaidOnce(Extended(h, Pay(payment, subaward), treasury))
  {
    hide Adjusted, CanAdjust, PaidOutBook;
    var s := AfterPayment(h.state, payment, subaward, treasury);
    var made := h.made + [Payment(payment, subaward, h.state.requests[payment].amount)];
    forall p | p in s.requests && s.requests[p].status == Paid
      ensures exists i :: 0 <= i < |made| && made[i].payment == p
    {
      if p == payment {
        assert made[|h.made|].payment == p;
      } else {
        var i :| 0 <= i < |h.made| && h.made[i].payment == p;
        assert made[i].payment == p;
      }
    }
  }

  lemma OtherStepPaysOnce(h: History, e: Event, treasury: Account)
    requires PaidOnce(h) && !(e.Pay? && CanPay(h.state, e.payment, e.subaward, treasury))
    ensures PaidOnce(Extended(h, e, treasury))
  {
    hide CanPay, PaidOutBook;
    assert h.made + [] == h.made;
  }

  lemma StepPaysOnce(h: History, e: Event, treasury: Account)
    requires PaidOnce(h)
    ensures PaidOnce(Extended(h, e, treasury))
  {
    hide PaidOnce, Extended, CanPay;
    if e.Pay? && CanPay(h.state, e.payment, e.subaward, treasury) {
      PaymentPaysOnce(h, e.payment, e.subaward, treasury);
    } else {
      OtherStepPaysOnce(h, e, treasury);
    }
  }

  // Over every run: each recipient's expenses are the payments charged to it and never
  // exceed its total, requests are paid at most once, payments lower the granted asset's
  // supply by what they pay and leave the USD total as it is.
  lemma {:induction false} EveryRunIsAccounted(start: State, events: seq<Event>, treasury: Account)
    requires Untouched(start)
    ensures Accounted(start, Run(start, events, treasury)) && PaidOnce(Run(start, events, treasury))
  {
    if events != [] {
      var init := events[..|events| - 1];
      EveryRunIsAccounted(start, init, treasury);
      StepIsAccounted(start, Run(start, init, treasury), events[|events| - 1], treasury);
      StepPaysOnce(Run(start, init, treasury), events[|events| - 1], treasury);
    }
  }

  // ---------- Who is paid and who pays ----------

  // The payments made on an account's own requests.
  function PaidTo(made: seq<Payment>, requests: map<string, Request>, account: Account): int {
    if made == [] then 0
    else
      var last := made[|made| - 1];
      PaidTo(made[..|made| - 1], requests, account)
      + (if last.payment in requests && requests[last.payment].requester == account then last.amount else 0)
  }

  // Every account has what it had, and what its requests were paid; the treasury has paid it.
  // Nothing moved in other assets.
  ghost predicate BalancesFollow(start: State, h: History, treasury: Account) {
    && (forall s :: s != USD ==> Column(h.state.book, s) == Column(start.book, s))
    && (forall a :: BalanceIn(h.state.book, a, USD) ==
          BalanceIn(start.book, a, USD) + PaidTo(h.made, h.state.requests, a) - (if a == treasury then AllPaid(h.made) else 0))
  }

  // The same requesters for every payment made.
  ghost predicate SameRequesters(made: seq<Payment>, before: map<string, Request>, after: map<string, Request>) {
    forall i :: 0 <= i < |made| ==>
      && made[i].payment in before && made[i].payment in after
      && before[made[i].payment].requester == after[made[i].payment].requester
  }

  lemma {:induction false} PaidToStays(made: seq<Payment>, before: map<string, Request>, after: map<string, Request>, account: Account)
    requires SameRequesters(made, before, after)
    ensures PaidTo(made, after, account) == PaidTo(made, before, account)
  {
    if made != [] {
      var init := made[..|made| - 1];
      assert forall i :: 0 <= i < |init| ==> init[i] == made[i];
      PaidToStays(init, before, after, account);
    }
  }

  lemma PaidToOneMore(made: seq<Payment>, p: Payment, requests: map<string, Request>, account: Account)
    requires p.payment in requests
    ensures PaidTo(made + [p], requests, account) ==
            PaidTo(made, requests, account) + (if requests[p.payment].requester == account then p.amount else 0)
  {
    assert (made + [p])[..|made|] == made;
  }

  lemma PaymentMoves(book: Book, requester: Account, treasury: Account, amount: int)
    ensures var after := PaidOutBook(book, requester, treasury, amount);
            && (forall s :: s != USD ==> Column(after, s) == Column(book, s))
            && forall a :: BalanceIn(after, a, USD) ==
                 BalanceIn(book, a, USD) + (if a == requester then amount else 0) - (if a == treasury then amount else 0)
  {
    AdjustedTotals(book, requester, USD, amount);
    AdjustedTotals(Adjusted(book, requester, USD, amount), treasury, USD, -amount);
  }

  lemma RequestersStay(h: History, e: Event, treasury: Account)
    requires PaidOnce(h)
    ensures SameRequesters(h.made, h.state.requests, Extended(h, e, treasury).state.requests)
  {
    hide CanPay, PaidOutBook;
  }

  lemma PaymentKeepsBalances(start: State, h: History, payment: string, subaward: string, treasury: Account)
    requires PaidOnce(h) && BalancesFollow(start, h, treasury) && CanPay(h.state, payment, subaward, treasury)
    ensures BalancesFollow(start, Extended(h, Pay(payment, subaward), treasury), treasury)
  {
    hide PaidTo, AllPaid, PaidOutBook, PaidOnce, Adjusted, CanAdjust, SameRequesters, BalanceIn;
    var w := h.state.requests[payment];
    var more := Payment(payment, subaward, w.amount);
    var next := Extended(h, Pay(payment, subaward), treasury);
    RequestersStay(h, Pay(payment, subaward), treasury);
    PaymentMoves(h.state.book, w.requester, treasury, w.amount);
    ChargeOneMore(h.made, more);
    forall a ensures BalanceIn(next.state.book, a, USD) ==
                     BalanceIn(start.book, a, USD) + PaidTo(next.made, next.state.requests, a) - (if a == treasury then AllPaid(next.made) else 0)
    {
      PaidToStays(h.made, h.state.requests, next.state.requests, a);
      PaidToOneMore(h.made, more, next.state.requests, a);
    }
  }

  lemma OtherStepKeepsBalances(start: State, h: History, e: Event, treasury: Account)
    requires PaidOnce(h) && BalancesFollow(start, h, treasury) && !(e.Pay? && CanPay(h.state, e.payment, e.subaward, treasury))
    ensures BalancesFollow(start, Extended(h, e, treasury), treasury)
  {
    hide PaidTo, AllPaid, PaidOutBook, PaidOnce, CanPay, SameRequesters;
    var next := Extended(h, e, treasury);
    RequestersStay(h, e, treasury);
    assert h.made + [] == h.made;
    forall a ensures PaidTo(next.made, next.state.requests, a) == PaidTo(h.made, h.state.requests, a) {
      PaidToStays(h.made, h.state.requests, next.state.requests, a);
    }
  }

  // Over every run the balances follow the payments.
  lemma {:induction false} EveryRunMovesMoney(start: State, events: seq<Event>, treasury: Account)
    requires Untouched(start)
    ensures BalancesFollow(start, Run(start, events, treasury), treasury)
  {
    hide BalancesFollow, CanPay, Extended;
    if events == [] {
      NothingMoved(start, treasury);
    } else {
      var init, e := events[..|events| - 1], events[|events| - 1];
      var h := Run(start, init, treasury);
      EveryRunMovesMoney(start, init, treasury);
      EveryRunIsAccounted(start, init, treasury);
      if e.Pay? && CanPay(h.state, e.payment, e.subaward, treasury) {
        PaymentKeepsBalances(start, h, e.payment, e.subaward, treasury);
      } else {
        OtherStepKeepsBalances(start, h, e, treasury);
      }
    }
  }

  lemma NothingMoved(start: State, treasury: Account)
    ensures BalancesFollow(start, History(start, []), treasury)
  {
  }

  // Requests are made only of an approved award, each by the recipient it names and for no more
  // than that recipient's total, and are paid only out of a recipient with the same awardee.
  ghost predicate RequestsAreOwn(start: State, h: History) {
    && (forall p :: p in h.state.requests ==> IsOwn(start, h.state.requests[p]))
    && (forall i :: 0 <= i < |h.made| ==> IsChargedToOwn(start, h.state.requests, h.made[i]))
  }

  ghost predicate IsOwn(start: State, w: Request) {
    && start.awardApproved && w.subaward in start.recipients
    && start.recipients[w.subaward].awardee == w.requester && 0 < w.amount <= start.recipients[w.subaward].total
  }

  ghost predicate IsChargedToOwn(start: State, requests: map<string, Request>, p: Payment) {
    && p.payment in requests && p.subaward in start.recipients
    && start.recipients[p.subaward].awardee == requests[p.payment].requester
  }

  lemma StepKeepsRequestsOwn(start: State, h: History, e: Event, treasury: Account)
    requires RequestsAreOwn(start, h) && Accounted(start, h) && h.state.awardApproved == start.awardApproved
    ensures RequestsAreOwn(start, Extended(h, e, treasury))
    ensures Extended(h, e, treasury).state.awardApproved == start.awardApproved
  {
    hide IsOwn, IsChargedToOwn, Accounted, Extended;
    var next := Extended(h, e, treasury);
    forall p | p in next.state.requests ensures IsOwn(start, next.state.requests[p]) {
      OneRequestStaysOwn(start, h, e, treasury, p);
    }
    forall i | 0 <= i < |next.made| ensures IsChargedToOwn(start, next.state.requests, next.made[i]) {
      OnePaymentStaysOwn(start, h, e, treasury, i);
    }
    ApprovalStays(h, e, treasury);
  }

  lemma ApprovalStays(h: History, e: Event, treasury: Account)
    ensures Extended(h, e, treasury).state.awardApproved == h.state.awardApproved
  {
    hide PaidOutBook, CanPay;
  }

  lemma OneRequestStaysOwn(start: State, h: History, e: Event, treasury: Account, p: string)
    requires RequestsAreOwn(start, h) && Accounted(start, h) && h.state.awardApproved == start.awardApproved
    requires p in Extended(h, e, treasury).state.requests
    ensures IsOwn(start, Extended(h, e, treasury).state.requests[p])
  {
    hide PaidOutBook, Total, CanAdjust, AllPaid, ChargedTo, Column, CanPay, IsChargedToOwn, Apply, Accounted;
    if p in h.state.requests {
      assert IsOwn(start, h.state.requests[p]);
      if Apply(h.state, e, treasury).Some? {
        StepFollowsLifecycle(h.state, e, treasury, p);
      }
    } else {
      NewRequestIsOwn(start, h, e, treasury, p);
    }
  }

  lemma NewRequestIsOwn(start: State, h: History, e: Event, treasury: Account, p: string)
    requires Accounted(start, h) && h.state.awardApproved == start.awardApproved && p !in h.state.requests
    requires Apply(h.state, e, treasury).Some? && p in Apply(h.state, e, treasury).value.requests
    ensures IsOwn(start, Apply(h.state, e, treasury).value.requests[p])
  {
    hide PaidOutBook, Total, CanAdjust, AllPaid, ChargedTo, Column;
  }

  lemma OnePaymentStaysOwn(start: State, h: History, e: Event, treasury: Account, i: nat)
    requires RequestsAreOwn(start, h) && Accounted(start, h)
    requires i < |Extended(h, e, treasury).made|
    ensures IsChargedToOwn(start, Extended(h, e, treasury).state.requests, Extended(h, e, treasury).made[i])
  {
    hide PaidOutBook, Total, CanAdjust, AllPaid, ChargedTo, Column, IsOwn;
    if i < |h.made| {
      assert IsChargedToOwn(start, h.state.requests, h.made[i]);
    }
  }

  lemma {:induction false} EveryRunKeepsRequestsOwn(start: State, events: seq<Event>, treasury: Account)
    requires Untouched(start)
    ensures RequestsAreOwn(start, Run(start, events, treasury))
    ensures Run(start, events, treasury).state.awardApproved == start.awardApproved
  {
    hide RequestsAreOwn, Extended;
    if events == [] {
      NoRequestsYet(start);
    } else {
      var init := events[..|events| - 1];
      EveryRunKeepsRequestsOwn(start, init, treasury);
      EveryRunIsAccounted(start, init, treasury);
      StepKeepsRequestsOwn(start, Run(start, init, treasury), events[|events| - 1], treasury);
    }
  }

  lemma NoRequestsYet(start: State)
    requires Untouched(start)
    ensures RequestsAreOwn(start, History(start, []))
  {
  }

  // ---------- When a request gets paid ----------

  // Requested, certified, approved and paid in that order, a first payment is made exactly when
  // the award is approved, the requester is the recipient named, and recipient, supply and
  // treasury all cover a positive amount.
  lemma FirstPaymentIff(start: State, payment: string, subaward: string, requester: Account, amount: int, treasury: Account)
    requires Untouched(start)
    ensures var h := Run(start, [Create(payment, subaward, requester, amount), Certify(payment, subaward),
                                 Approve(payment, subaward), Pay(payment, subaward)], treasury);
            h.made != [] <==>
            && amount > 0 && start.awardApproved && subaward in start.recipients
            && start.recipients[subaward].awardee == requester && start.recipients[subaward].total >= amount
            && start.supply >= amount
            && BalanceIn(start.book, treasury, USD) + (if treasury == requester then amount else 0) >= amount
  {
    hide Run, Extended, PaidOutBook, BalanceIn;
    var events := [Create(payment, subaward, requester, amount), Certify(payment, subaward), Approve(payment, subaward), Pay(payment, subaward)];
    RunStep(start, events, 0);
    RunStep(start, events, 1);
    RunStep(start, events, 2);
    RunStep(start, events, 3);
    assert events[..4] == events;
    EmptyRun(start, events, treasury);
    UpToApproval(start, payment, subaward, requester, amount, treasury);
    PaidIff(start, payment, subaward, requester, amount, treasury);
  }

  lemma EmptyRun(start: State, events: seq<Event>, treasury: Account)
    ensures Run(start, events[..0], treasury) == History(start, [])
  {
  }

  lemma RunStep(start: State, events: seq<Event>, n: nat)
    requires n < |events|
    ensures forall treasury :: Run(start, events[..n + 1], treasury) == Extended(Run(start, events[..n], treasury), events[n], treasury)
  {
    assert events[..n + 1][..n] == events[..n];
  }

  predicate CanAsk(s: State, subaward: string, requester: Account, amount: int) {
    && amount > 0 && s.awardApproved && subaward in s.recipients
    && s.recipients[subaward].awardee == requester && s.recipients[subaward].total >= amount
  }

  // The state after the first three steps.
  function Asked(s: State, payment: string, subaward: string, requester: Account, amount: int): State {
    if CanAsk(s, subaward, requester, amount)
    then s.(requests := map[payment := Request(subaward, requester, amount, Approved)]) else s
  }

  lemma UpToApproval(start: State, payment: string, subaward: string, requester: Account, amount: int, treasury: Account)
    requires Untouched(start)
    ensures Extended(Extended(Extended(History(start, []), Create(payment, subaward, requester, amount), treasury),
                              Certify(payment, subaward), treasury),
                     Approve(payment, subaward), treasury) ==
            History(Asked(start, payment, subaward, requester, amount), [])
  {
    hide CanPay, PaidOutBook;
  }

  lemma PaidIff(start: State, payment: string, subaward: string, requester: Account, amount: int, treasury: Account)
    requires Untouched(start)
    ensures Extended(History(Asked(start, payment, subaward, requester, amount), []), Pay(payment, subaward), treasury).made != [] <==>
            && CanAsk(start, subaward, requester, amount) && start.supply >= amount
            && BalanceIn(start.book, treasury, USD) + (if treasury == requester then amount else 0) >= amount
  {
    hide Adjusted, PaidOutBook, BalanceIn;
    AdjustedTotals(start.book, requester, USD, amount);
  }

  // ---------- The life of a request ----------

  // Each operation moves a request at most one step on its way and never rewrites it.
  lemma StepFollowsLifecycle(s: State, e: Event, treasury: Account, p: string)
    requires p in s.requests && Apply(s, e, treasury).Some?
    ensures var s' := Apply(s, e, treasury).value;
            && p in s'.requests
            && s'.requests[p] == s.requests[p].(status := s'.requests[p].status)
            && MayFollow(s.requests[p].status, s'.requests[p].status)
            && (s'.requests[p].status == Paid && s.requests[p].status != Paid ==> e.Pay? && e.payment == p)
  {
  }

  // How far a request has come; rejected and paid are final.
  function Rank(status: Status): nat {
    match status
    case Pending => 0
    case Certified => 1
    case Approved => 2
    case Paid => 3
    case Rejected => 3
  }

  lemma {:induction false} LaterStatus(start: State, events: seq<Event>, more: seq<Event>, treasury: Account, p: string)
    requires p in Run(start, events, treasury).state.requests
    ensures var before := Run(start, events, treasury).state.requests[p];
            var s := Run(start, events + more, treasury).state;
            && p in s.requests
            && s.requests[p] == before.(status := s.requests[p].status)
            && Rank(before.status) <= Rank(s.requests[p].status)
            && (before.status in {Paid, Rejected} ==> s.requests[p].status == before.status)
    decreases |more|
  {
    hide Apply, PaymentsOf;
    if more == [] {
      assert events + more == events;
    } else {
      var all := events + more;
      assert all[..|all| - 1] == events + more[..|more| - 1];
      LaterStatus(start, events, more[..|more| - 1], treasury, p);
      var s := Run(start, all[..|all| - 1], treasury).state;
      if Apply(s, all[|all| - 1], treasury).Some? {
        StepFollowsLifecycle(s, all[|all| - 1], treasury, p);
      }
    }
  }
}
