/** Vesting contracts: a deposit becomes available period by period and is withdrawn in
    pieces. The schedule is computed from the balance that is left, which each withdrawal
    lowers, so it meets the intended schedule only under a condition proved here. */
module Vesting {
  import opened Quotients

  datatype Terms = Terms(start: nat, cliff: nat, duration: nat, period: nat) {
    // True of every stored contract: the operation checks it with a cliff below the duration,
    // and genesis stores the duration as the cliff.
    predicate WellFormed() {
      duration > 0 && cliff <= duration && period > 0 && duration % period == 0
    }

    // Whole periods that have passed, out of how many.
    function Passed(elapsed: nat): (p: nat)
      requires WellFormed()
      ensures p <= Total()
    {
      if elapsed < duration then
        DivMonotone(elapsed, duration, period);
        elapsed / period
      else Total()
    }

    function Total(): (q: nat)
      requires WellFormed()
      ensures q >= 1
    {
      DivAtLeastOne(duration, period);
      duration / period
    }
  }

  lemma DivAtLeastOne(a: nat, b: nat)
    requires b > 0 && a > 0 && a % b == 0
    ensures a / b >= 1
  {
    assert a == b * (a / b) + a % b;
  }

  // ---------- The amount vested ----------

  // Of amount, what has vested after the cliff.
  function Vested(t: Terms, amount: nat, elapsed: nat): (v: nat)
    requires t.WellFormed()
  {
    if elapsed < t.duration then Part(amount, t.Passed(elapsed), t.Total()) else amount
  }

  // The schedule as one fraction, also after the end.
  lemma VestedAsFraction(t: Terms, amount: nat, elapsed: nat)
    requires t.WellFormed()
    ensures Vested(t, amount, elapsed) == Part(amount, t.Passed(elapsed), t.Total())
  {
    WholePart(amount, t.Total());
  }

  lemma PassedGrows(t: Terms, e1: nat, e2: nat)
    requires t.WellFormed() && e1 <= e2
    ensures t.Passed(e1) <= t.Passed(e2)
  {
    if e2 < t.duration {
      DivMonotone(e1, e2, t.period);
    }
  }

  // Never more than the amount, growing with the amount and with time.
  lemma VestedGrows(t: Terms, a: nat, b: nat, e1: nat, e2: nat)
    requires t.WellFormed() && a <= b && e1 <= e2
    ensures Vested(t, a, e1) <= Vested(t, b, e2) <= b
  {
    hide Terms.Passed, Terms.Total, Part, Vested;
    VestedAsFraction(t, a, e1);
    VestedAsFraction(t, b, e2);
    PassedGrows(t, e1, e2);
    PartGrows(a, b, t.Passed(e1), t.Passed(e2), t.Total());
    PartAtMost(b, t.Passed(e2), t.Total());
  }

  // ---------- Withdrawing ----------

  datatype Outcome = Paid | NoEffect | NegativeAllowance | OverAllowance | InsufficientBalance

  datatype State = State(balance: nat, withdrawn: nat, credited: nat)

  // withdraw_vesting_balance on the contract and the owner's account.
  function Withdrawal(t: Terms, s: State, now: nat, amount: nat): (r: (State, Outcome))
    requires t.WellFormed()
  {
    if now < t.start || now - t.start < t.cliff then (s, NoEffect)
    else
      var vested := Vested(t, s.balance, now - t.start);
      if vested < s.withdrawn then (s, NegativeAllowance)
      else if vested - s.withdrawn < amount then (s, OverAllowance)
      else
        VestedGrows(t, s.balance, s.balance, now - t.start, now - t.start);
        (State(s.balance - amount, s.withdrawn + amount, s.credited + amount), Paid)
  }

  class VestingBalance {
    const terms: Terms
    var balance: nat
    var withdrawn: nat
    // What the owner's account has received from this contract.
    var credited: nat

    ghost function View(): State
      reads this
    {
      State(balance, withdrawn, credited)
    }

    constructor (terms: Terms, deposit: nat)
      ensures this.terms == terms && View() == State(deposit, 0, 0)
    {
      this.terms := terms;
      balance, withdrawn, credited := deposit, 0, 0;
    }

    // The service's own check for sufficient balance never fails.
    method Withdraw(now: nat, amount: nat) returns (r: Outcome)
      requires terms.WellFormed()
      modifies this
      ensures (View(), r) == Withdrawal(terms, old(View()), now, amount)
      ensures r != InsufficientBalance
    {
      var allowedWithdraw: int := 0;
      if now >= terms.start {
        var elapsed := now - terms.start;
        if elapsed >= terms.cliff {
          var totalVested;
          if elapsed < terms.duration {
            var withdrawPeriod := elapsed / terms.period;
            var totalPeriods := terms.Total();
            totalVested := balance * withdrawPeriod / totalPeriods;
          } else {
            totalVested := balance;
          }
          VestedGrows(terms, balance, balance, elapsed, elapsed);
          allowedWithdraw := totalVested - withdrawn;
          if allowedWithdraw < 0 {
            return NegativeAllowance;
          }
          if allowedWithdraw < amount {
            return OverAllowance;
          }
          if balance < amount {
            return InsufficientBalance;
          }
          balance := balance - amount;
          withdrawn := withdrawn + amount;
          credited := credited + amount;
          return Paid;
        }
      }
      r := NoEffect;
    }
  }

  // ---------- What the schedule grants ----------

  // k whole periods of n have passed.
  ghost predicate PeriodsPassed(t: Terms, elapsed: nat, k: nat, n: nat) {
    n * t.period == t.duration && k * t.period <= elapsed < k * t.period + t.period
  }

  // Before the end the amount's k parts of n have vested, less than a unit short; then all of it.
  lemma VestedIs(t: Terms, amount: nat, elapsed: nat, k: nat, n: nat)
    requires t.WellFormed() && PeriodsPassed(t, elapsed, k, n)
    ensures var v := Vested(t, amount, elapsed);
            if elapsed >= t.duration then v == amount else n > 0 && IsFloor(v, amount * k, n)
  {
    QuotientIs(elapsed, k, t.period);
    QuotientIs(t.duration, n, t.period);
    FloorIs(amount * k, t.Total());
  }

  // A withdrawal goes through exactly when the cliff is over and what is taken in all stays
  // within what has vested of the balance; then it moves the amount, and otherwise nothing.
  lemma PaidIff(t: Terms, s: State, now: nat, amount: nat, k: nat, n: nat)
    requires t.WellFormed() && (now >= t.start ==> PeriodsPassed(t, now - t.start, k, n))
    ensures var r := Withdrawal(t, s, now, amount);
            && (r.1 == Paid <==>
                  && now >= t.start + t.cliff
                  && (if now >= t.start + t.duration then s.withdrawn + amount <= s.balance
                      else n * (s.withdrawn + amount) <= s.balance * k))
            && (r.1 == Paid ==> amount <= s.balance && r.0 == State(s.balance - amount, s.withdrawn + amount, s.credited + amount))
            && (r.1 != Paid ==> r.0 == s)
  {
    hide Vested;
    if now >= t.start + t.cliff {
      VestedIs(t, s.balance, now - t.start, k, n);
      VestedGrows(t, s.balance, s.balance, now - t.start, now - t.start);
      if now < t.start + t.duration {
        AtMostFloor(Vested(t, s.balance, now - t.start), s.balance * k, n, s.withdrawn + amount);
      }
    }
  }

  // ---------- Over whole runs ----------

  datatype Request = Request(now: nat, amount: nat)

  function RunOf(t: Terms, deposit: nat, requests: seq<Request>): State
    requires t.WellFormed()
  {
    if requests == [] then State(deposit, 0, 0)
    else
      var last := requests[|requests| - 1];
      Withdrawal(t, RunOf(t, deposit, requests[..|requests| - 1]), last.now, last.amount).0
  }

  ghost predicate InTimeOrder(requests: seq<Request>) {
    forall i, j :: 0 <= i < j < |requests| ==> requests[i].now <= requests[j].now
  }

  // What the schedule promises of the original deposit at a time.
  function Promised(t: Terms, deposit: nat, now: nat): nat
    requires t.WellFormed()
  {
    if now < t.start || now - t.start < t.cliff then 0 else Vested(t, deposit, now - t.start)
  }

  lemma PromisedGrows(t: Terms, deposit: nat, now: nat, later: nat)
    requires t.WellFormed() && now <= later
    ensures Promised(t, deposit, now) <= Promised(t, deposit, later) <= deposit
  {
    if later >= t.start + t.cliff {
      VestedGrows(t, deposit, deposit, if now < t.start then 0 else now - t.start, later - t.start);
    }
  }

  // A genesis contract grants nothing before its end and everything from then on.
  lemma GenesisContractsVestAtOnce(t: Terms, deposit: nat, now: nat)
    requires t.WellFormed() && t.cliff == t.duration
    ensures Promised(t, deposit, now) == if now < t.start + t.duration then 0 else deposit
  {
  }

  // Over any run nothing is created or lost, and never more than the schedule promises of
  // the original deposit has been taken out.
  lemma {:induction false} RunNeverOverpays(t: Terms, deposit: nat, requests: seq<Request>, now: nat)
    requires t.WellFormed() && InTimeOrder(requests)
    requires requests != [] ==> requests[|requests| - 1].now <= now
    ensures var s := RunOf(t, deposit, requests);
            && s.balance + s.withdrawn == deposit
            && s.credited == s.withdrawn
            && s.withdrawn <= Promised(t, deposit, now)
  {
    if requests != [] {
      var last := requests[|requests| - 1];
      var before := requests[..|requests| - 1];
      RunNeverOverpays(t, deposit, before, last.now);
      PromisedGrows(t, deposit, last.now, now);
      var s := RunOf(t, deposit, before);
      if last.now >= t.start + t.cliff {
        VestedGrows(t, s.balance, deposit, last.now - t.start, last.now - t.start);
      }
    }
  }

  // ---------- When the schedule is met ----------

  // What may still be taken out equals what the schedule promises of the original deposit,
  // less what was taken, exactly when the withdrawn part is too small to cost a unit.
  lemma AllowanceIsAsPromisedIff(t: Terms, deposit: nat, s: State, elapsed: nat)
    requires t.WellFormed() && s.balance + s.withdrawn == deposit
    ensures Vested(t, s.balance, elapsed) == Vested(t, deposit, elapsed) <==>
            s.withdrawn * t.Passed(elapsed) <= deposit * t.Passed(elapsed) % t.Total()
  {
    var p, q := t.Passed(elapsed), t.Total();
    hide Terms.Passed, Terms.Total, Vested;
    VestedAsFraction(t, s.balance, elapsed);
    VestedAsFraction(t, deposit, elapsed);
    assert deposit * p == s.balance * p + s.withdrawn * p by {
      Distribute(p, s.balance, s.withdrawn);
    }
    SameQuotientIff(deposit * p, s.withdrawn * p, q);
  }

  lemma PartReachesIff(b: nat, p: nat, q: nat, w: nat)
    requires q > 0
    ensures Part(b, p, q) >= w <==> q * w <= b * p
  {
    DivBounds(b * p, q);
    if Part(b, p, q) >= w {
      MulMonotone(w, Part(b, p, q), q);
    } else {
      MulMonotone(Part(b, p, q) + 1, w, q);
    }
  }

  // After the cliff the allowance is computed without going negative exactly when the
  // withdrawn part, times all periods and those passed, is within the deposit times those
  // passed; after the end that means at most half the deposit.
  lemma AllowanceNonNegativeIff(t: Terms, deposit: nat, s: State, now: nat, amount: nat)
    requires t.WellFormed() && s.balance + s.withdrawn == deposit && now >= t.start + t.cliff
    ensures var p, q := t.Passed(now - t.start), t.Total();
            Withdrawal(t, s, now, amount).1 != NegativeAllowance <==> s.withdrawn * (q + p) <= deposit * p
    ensures now >= t.start + t.duration ==>
              (Withdrawal(t, s, now, amount).1 != NegativeAllowance <==> 2 * s.withdrawn <= deposit)
  {
    var elapsed := now - t.start;
    var p, q := t.Passed(elapsed), t.Total();
    NegativeMeans(t, s, now, amount);
    VestedAsFraction(t, s.balance, elapsed);
    PartReachesIff(s.balance, p, q, s.withdrawn);
    Distribute(s.withdrawn, q, p);
    assert deposit * p == s.balance * p + s.withdrawn * p by {
      Distribute(p, s.balance, s.withdrawn);
    }
  }

  lemma NegativeMeans(t: Terms, s: State, now: nat, amount: nat)
    requires t.WellFormed() && now >= t.start + t.cliff
    ensures Withdrawal(t, s, now, amount).1 != NegativeAllowance <==> Vested(t, s.balance, now - t.start) >= s.withdrawn
    ensures now >= t.start + t.duration ==> Vested(t, s.balance, now - t.start) == s.balance
  {
  }

  lemma Distribute(a: int, b: int, c: int)
    ensures a * (b + c) == a * b + a * c
  {
  }

  // Once more than half the deposit has been withdrawn, no later request changes anything:
  // the rest can never be taken out.
  lemma {:induction false} RestIsLocked(t: Terms, deposit: nat, requests: seq<Request>, more: seq<Request>)
    requires t.WellFormed() && InTimeOrder(requests + more)
    requires 2 * RunOf(t, deposit, requests).withdrawn > deposit
    ensures RunOf(t, deposit, requests + more) == RunOf(t, deposit, requests)
    decreases |more|
  {
    if more == [] {
      assert requests + more == requests;
    } else {
      var init := more[..|more| - 1];
      var all := requests + more;
      var last := all[|all| - 1];
      assert all[..|all| - 1] == requests + init;
      assert forall i :: 0 <= i < |requests + init| ==> (requests + init)[i] == all[i];
      RestIsLocked(t, deposit, requests, init);
      assert InTimeOrder(requests) by {
        assert forall i :: 0 <= i < |requests| ==> requests[i] == all[i];
      }
      RunNeverOverpays(t, deposit, requests, if requests == [] then 0 else requests[|requests| - 1].now);
      var s := RunOf(t, deposit, requests);
      if last.now >= t.start + t.cliff {
        VestedGrows(t, s.balance, s.balance, last.now - t.start, last.now - t.start);
      }
    }
  }

  // After the end, taking x and then y out of an untouched deposit works exactly when
  // 2x + y is at most the deposit; taking x + y at once works when x + y is.
  lemma SplittingMatters(t: Terms, deposit: nat, x: nat, y: nat, now: nat, later: nat)
    requires t.WellFormed() && t.start + t.duration <= now <= later
    ensures var one := Withdrawal(t, State(deposit, 0, 0), now, x + y);
            one.1 == Paid <==> x + y <= deposit
    ensures var first := Withdrawal(t, State(deposit, 0, 0), now, x);
            var second := Withdrawal(t, first.0, later, y);
            first.1 == Paid && second.1 == Paid <==> 2 * x + y <= deposit
  {
  }

  // Sixty of a hundred taken after the end: the other forty stay in the contract.
  lemma SixtyOfAHundred(now: nat)
    requires now >= 20
    ensures var t := Terms(10, 0, 10, 1);
            var s := Withdrawal(t, State(100, 0, 0), 20, 60).0;
            s == State(40, 60, 60) && Withdrawal(t, s, now, 1).1 == NegativeAllowance
  {
  }
}
