/** Licence fees: the holders of a research's security tokens share in the fee, the research
    group gets the rest, the licensee pays it. Every share is rounded down. */
module Licensing {
  import opened Wrappers
  import opened Ledger
  import opened Quotients
  import opened Sequences

  // A percentage with its number of decimals; None counts as zero.
  datatype Percent = Percent(amount: nat, decimals: nat)

  // A beneficiary token: its symbol, its holders' part of licence fees, its supply.
  datatype Token = Token(symbol: Symbol, share: Option<Percent>, supply: nat)

  function Pow10(n: nat): (p: nat)
    ensures p > 0
  {
    if n == 0 then 1 else 10 * Pow10(n - 1)
  }

  function FullShare(p: Percent): (f: nat)
    ensures f > 0
  {
    100 * Pow10(p.decimals)
  }

  function ShareOf(fee: nat, share: Option<Percent>): nat {
    match share
    case None => 0
    case Some(p) => Part(fee, p.amount, FullShare(p))
  }

  // The percentage of the fee that share is, less than a unit short.
  ghost predicate IsShareOf(fee: nat, percent: Option<Percent>, share: nat) {
    match percent
    case None => share == 0
    case Some(p) => IsFloor(share, fee * p.amount, 100 * Pow10(p.decimals))
  }

  lemma ShareOfIsShare(fee: nat, percent: Option<Percent>)
    ensures IsShareOf(fee, percent, ShareOf(fee, percent))
  {
    match percent
    case None =>
    case Some(p) =>
      FloorIs(fee * p.amount, FullShare(p));
  }

  // A decimal more with a zero behind is the same percentage, and a hundred is everything.
  lemma DecimalsScale(fee: nat, p: Percent)
    ensures ShareOf(fee, Some(Percent(10 * p.amount, p.decimals + 1))) == ShareOf(fee, Some(p))
    ensures ShareOf(fee, Some(Percent(100, 0))) == fee
  {
    hide Pow10;
    NextPower(p.decimals);
    ScaledQuotient(fee * p.amount, FullShare(p), 10);
    assert fee * (10 * p.amount) == 10 * (fee * p.amount);
    WholePart(fee, 100);
  }

  lemma NextPower(n: nat)
    ensures Pow10(n + 1) == 10 * Pow10(n) && Pow10(0) == 1
  {
  }

  // ---------- One token ----------

  function Revenue(share: nat, balance: int, supply: nat): nat
    requires supply > 0
  {
    if balance < 0 then 0 else Part(share, balance, supply)
  }

  ghost function RevenueColumn(column: map<Account, int>, share: nat, supply: nat): map<Account, int>
    requires supply > 0
  {
    map a | a in column :: Revenue(share, column[a], supply)
  }

  // Every holder of the token has received, in the fee's asset, the part of the share that its
  // balance is of the supply, less than a unit short; nobody else has.
  ghost predicate Distributed(before: Book, after: Book, fee: Symbol, token: Symbol, share: nat, supply: nat) {
    && (forall s :: s != fee ==> Column(after, s) == Column(before, s))
    && (forall a :: a in Column(before, token) ==> HasReceived(before, after, fee, token, share, supply, a))
    && (forall a :: a !in Column(before, token) ==> BalanceIn(after, a, fee) == BalanceIn(before, a, fee))
  }

  ghost predicate HasReceived(before: Book, after: Book, fee: Symbol, token: Symbol, share: nat, supply: nat, a: Account)
    requires a in Column(before, token)
  {
    var revenue, balance := BalanceIn(after, a, fee) - BalanceIn(before, a, fee), Column(before, token)[a];
    if balance < 0 then revenue == 0 else IsFloor(revenue, share * balance, supply)
  }

  predicate Enumerates(owners: seq<Account>, column: map<Account, int>) {
    && (forall i, j :: 0 <= i < j < |owners| ==> owners[i] != owners[j])
    && (forall a :: a in owners ==> a in column)
    && (forall a :: a in column ==> a in owners)
  }

  lemma {:induction false} CanEnumerate(column: map<Account, int>) returns (owners: seq<Account>)
    ensures Enumerates(owners, column)
    decreases |column|
  {
    if column == map[] {
      owners := [];
    } else {
      var a :| a in column;
      var rest := CanEnumerate(column - {a});
      owners := rest + [a];
    }
  }

  ghost function Restricted(column: map<Account, int>, owners: seq<Account>): map<Account, int> {
    map a | a in column && a in owners :: column[a]
  }

  lemma RevenueRoundsDown(share: nat, balance: int, supply: nat)
    requires supply > 0 && balance >= 0
    ensures IsFloor(Revenue(share, balance, supply), share * balance, supply)
  {
    FloorIs(share * balance, supply);
  }

  // The holders' revenues and their balances, related holder by holder.
  lemma {:induction false} RevenueBound(column: map<Account, int>, share: nat, supply: nat)
    requires supply > 0 && forall a :: a in column ==> column[a] >= 0
    ensures Total(RevenueColumn(column, share, supply)) >= 0
    ensures supply * Total(RevenueColumn(column, share, supply)) <= share * Total(column)
    decreases |column|
  {
    hide Revenue, Total, RevenueColumn;
    var revenues := RevenueColumn(column, share, supply);
    if column == map[] {
      EmptyTotal();
      NoRevenue(share, supply);
    } else {
      var a :| a in column;
      RevenueWithout(column, share, supply, a);
      TotalSplit(column, a);
      TotalSplit(revenues, a);
      RevenueBound(column - {a}, share, supply);
      RevenueRoundsDown(share, column[a], supply);
      BoundAdds(supply, share, revenues[a], Total(revenues - {a}), column[a], Total(column - {a}));
    }
  }

  lemma RevenueWithout(column: map<Account, int>, share: nat, supply: nat, a: Account)
    requires supply > 0 && a in column
    ensures a in RevenueColumn(column, share, supply)
    ensures RevenueColumn(column, share, supply)[a] == Revenue(share, column[a], supply)
    ensures RevenueColumn(column, share, supply) - {a} == RevenueColumn(column - {a}, share, supply)
  {
    hide Revenue;
  }

  lemma NoRevenue(share: nat, supply: nat)
    requires supply > 0
    ensures RevenueColumn(map[], share, supply) == map[]
  {
  }

  lemma EmptyTotal()
    ensures Total(map[]) == 0
  {
  }

  lemma BoundAdds(supply: nat, share: nat, r: int, rs: int, b: int, bs: int)
    requires supply * r <= share * b && supply * rs <= share * bs
    ensures supply * (r + rs) <= share * (b + bs)
  {
  }

  lemma Cancel(q: nat, r: int, s: int)
    requires q > 0 && q * r <= q * s
    ensures r <= s
  {
    var d := r - s;
    assert q * r == q * s + q * d;
    if d >= 1 {
      MulMonotone(1, d, q);
    }
  }

  // Holders whose balances are within the supply get at most the token's share.
  lemma RevenueWithinShare(column: map<Account, int>, share: nat, supply: nat)
    requires supply > 0 && (forall a :: a in column ==> column[a] >= 0) && Total(column) <= supply
    ensures 0 <= Total(RevenueColumn(column, share, supply)) <= share
  {
    RevenueBound(column, share, supply);
    TotalOfNonNegative(column);
    MulMonotone(Total(column), supply, share);
    Cancel(supply, Total(RevenueColumn(column, share, supply)), share);
  }

  lemma {:induction false} TotalOfNonNegative(column: map<Account, int>)
    requires forall a :: a in column ==> column[a] >= 0
    ensures Total(column) >= 0
    decreases |column|
  {
    if column != map[] {
      var a :| a in column;
      TotalSplit(column, a);
      TotalOfNonNegative(column - {a});
    }
  }

  // Pays every holder of one token. The holders' rows are the ones found at the start; their
  // amounts are read as the loop comes to them.
  method DistributeToken(ledger: AccountBalances, fee: Symbol, token: Symbol, share: nat, supply: nat) returns (revenue: int)
    requires supply > 0 && NonNegative(ledger.book)
    modifies ledger
    ensures Distributed(old(ledger.book), ledger.book, fee, token, share, supply) && NonNegative(ledger.book)
    ensures revenue == Total(RevenueColumn(Column(old(ledger.book), token), share, supply))
    ensures Total(Column(ledger.book, fee)) == Total(Column(old(ledger.book), fee)) + revenue
  {
    hide Total, Adjusted, RevenueColumn, Restricted, Revenue;
    ghost var before := ledger.book;
    ghost var column := Column(before, token);
    ghost var enumeration := CanEnumerate(column);
    var owners: seq<Account> :| Enumerates(owners, Column(ledger.book, token));
    revenue := 0;
    var i := 0;
    NobodyPaidYet(column, share, supply);
    while i < |owners|
      invariant i <= |owners| && NonNegative(ledger.book)
      invariant PaidSoFar(before, ledger.book, fee, token, share, supply, owners[..i])
      invariant revenue == Total(RevenueColumn(Restricted(column, owners[..i]), share, supply))
      invariant Total(Column(ledger.book, fee)) == Total(Column(before, fee)) + revenue
    {
      var owner := owners[i];
      assert owner in owners;
      var part := Revenue(share, BalanceIn(ledger.book, owner, token), supply);
      AdjustedTotals(ledger.book, owner, fee, part);
      OneMoreHolder(before, ledger.book, fee, token, share, supply, owners, i);
      var ok := ledger.Adjust(owner, fee, part);
      revenue := revenue + part;
      i := i + 1;
    }
    assert owners[..i] == owners;
    AllRestricted(column, owners);
    AllPaid(before, ledger.book, fee, token, share, supply, owners);
  }

  lemma AllPaid(before: Book, after: Book, fee: Symbol, token: Symbol, share: nat, supply: nat, owners: seq<Account>)
    requires supply > 0 && PaidSoFar(before, after, fee, token, share, supply, owners) && Enumerates(owners, Column(before, token))
    ensures Distributed(before, after, fee, token, share, supply)
  {
    hide Revenue, IsFloor;
    forall a | a in Column(before, token) ensures HasReceived(before, after, fee, token, share, supply, a) {
      RevenueOf(share, Column(before, token)[a], supply);
    }
  }

  lemma RevenueOf(share: nat, balance: int, supply: nat)
    requires supply > 0
    ensures if balance < 0 then Revenue(share, balance, supply) == 0
            else IsFloor(Revenue(share, balance, supply), share * balance, supply)
  {
    if balance >= 0 {
      RevenueRoundsDown(share, balance, supply);
    }
  }

  lemma NobodyPaidYet(column: map<Account, int>, share: nat, supply: nat)
    requires supply > 0
    ensures Total(RevenueColumn(Restricted(column, []), share, supply)) == 0
  {
    assert RevenueColumn(Restricted(column, []), share, supply) == map[];
  }

  lemma AllRestricted(column: map<Account, int>, owners: seq<Account>)
    requires Enumerates(owners, column)
    ensures Restricted(column, owners) == column
  {
  }

  ghost predicate PaidSoFar(before: Book, after: Book, fee: Symbol, token: Symbol, share: nat, supply: nat, done: seq<Account>)
    requires supply > 0
  {
    && (forall s :: s != fee ==> Column(after, s) == Column(before, s))
    && (forall a :: BalanceIn(after, a, fee) ==
          BalanceIn(before, a, fee) + (if a in done && a in Column(before, token) then Revenue(share, Column(before, token)[a], supply) else 0))
  }

  lemma OneMoreHolder(before: Book, now: Book, fee: Symbol, token: Symbol, share: nat, supply: nat, owners: seq<Account>, i: nat)
    requires supply > 0 && i < |owners| && Enumerates(owners, Column(before, token))
    requires PaidSoFar(before, now, fee, token, share, supply, owners[..i])
    ensures owners[i] in Column(before, token) && BalanceIn(now, owners[i], token) == Column(before, token)[owners[i]]
    ensures var part := Revenue(share, BalanceIn(now, owners[i], token), supply);
            && PaidSoFar(before, Adjusted(now, owners[i], fee, part), fee, token, share, supply, owners[..i + 1])
            && Total(RevenueColumn(Restricted(Column(before, token), owners[..i + 1]), share, supply)) ==
               Total(RevenueColumn(Restricted(Column(before, token), owners[..i]), share, supply)) + part
  {
    hide Revenue, Total, Adjusted, RevenueColumn, Restricted;
    var owner, column := owners[i], Column(before, token);
    assert owner in owners;
    NotYetSeen(owners, i);
    assert BalanceIn(now, owner, token) == column[owner] by {
      if token == fee {
        assert BalanceIn(now, owner, fee) == BalanceIn(before, owner, fee);
      }
    }
    var part := Revenue(share, column[owner], supply);
    AdjustedTotals(now, owner, fee, part);
    OneMoreRevenue(column, share, supply, owners, i);
  }

  lemma OneMoreRevenue(column: map<Account, int>, share: nat, supply: nat, owners: seq<Account>, i: nat)
    requires supply > 0 && i < |owners| && Enumerates(owners, column) && owners[i] in column
    ensures Total(RevenueColumn(Restricted(column, owners[..i + 1]), share, supply)) ==
            Total(RevenueColumn(Restricted(column, owners[..i]), share, supply)) + Revenue(share, column[owners[i]], supply)
  {
    hide Revenue, Total;
    NotYetSeen(owners, i);
    var less := RevenueColumn(Restricted(column, owners[..i]), share, supply);
    var part := Revenue(share, column[owners[i]], supply);
    assert RevenueColumn(Restricted(column, owners[..i + 1]), share, supply) == less[owners[i] := part];
    TotalUpdate(less, owners[i], part);
  }

  // ---------- The percentages ----------

  function Fraction(share: Option<Percent>): real {
    match share
    case None => 0.0
    case Some(p) => p.amount as real / FullShare(p) as real
  }

  function SumFractions(tokens: seq<Token>): real {
    if tokens == [] then 0.0 else SumFractions(tokens[..|tokens| - 1]) + Fraction(tokens[|tokens| - 1].share)
  }

  function SumShares(fee: nat, tokens: seq<Token>): nat {
    if tokens == [] then 0 else SumShares(fee, tokens[..|tokens| - 1]) + ShareOf(fee, tokens[|tokens| - 1].share)
  }

  lemma RealQuotient(x: nat, y: nat, fee: nat, a: nat, f: nat)
    requires f > 0 && f * x <= y && y == fee * a
    ensures x as real <= fee as real * (a as real / f as real)
  {
    var q := a as real / f as real;
    assert q * f as real == a as real;
    assert (f * x) as real == f as real * x as real;
    assert y as real == fee as real * a as real;
    assert f as real * (fee as real * q) == fee as real * (q * f as real) by {
      Reorder(f as real, fee as real, q);
    }
    RealCancel(f as real, x as real, fee as real * q);
  }

  lemma Reorder(a: real, b: real, c: real)
    ensures a * (b * c) == b * (c * a)
  {
  }

  lemma RealCancel(f: real, x: real, y: real)
    requires f > 0.0 && f * x <= f * y
    ensures x <= y
  {
    var d := x - y;
    RealDistribute(f, y, d);
    if d > 0.0 {
      RealPositive(f, d);
    }
  }

  lemma RealPositive(f: real, d: real)
    requires f > 0.0 && d > 0.0
    ensures f * d > 0.0
  {
  }

  lemma RealDistribute(f: real, a: real, b: real)
    ensures f * (a + b) == f * a + f * b
  {
  }

  lemma ShareWithinFraction(fee: nat, share: Option<Percent>)
    ensures ShareOf(fee, share) as real <= fee as real * Fraction(share)
  {
    match share
    case None =>
    case Some(p) =>
      DivBounds(fee * p.amount, FullShare(p));
      RealQuotient(ShareOf(fee, share), fee * p.amount, fee, p.amount, FullShare(p));
  }

  lemma {:induction false} SharesWithinFractions(fee: nat, tokens: seq<Token>)
    ensures SumShares(fee, tokens) as real <= fee as real * SumFractions(tokens)
  {
    hide ShareOf, Fraction;
    if tokens != [] {
      var init, last := tokens[..|tokens| - 1], tokens[|tokens| - 1];
      SharesWithinFractions(fee, init);
      ShareWithinFraction(fee, last.share);
      RealDistribute(fee as real, SumFractions(init), Fraction(last.share));
    }
  }

  // Percentages of at most 100 in all give shares of at most the fee, despite the rounding.
  lemma SharesWithinFee(fee: nat, tokens: seq<Token>)
    requires SumFractions(tokens) <= 1.0
    ensures SumShares(fee, tokens) <= fee
  {
    hide SumFractions, SumShares;
    SharesWithinFractions(fee, tokens);
    RealScale(fee as real, SumFractions(tokens));
    assert SumShares(fee, tokens) as real <= fee as real;
  }

  lemma RealScale(f: real, x: real)
    requires f >= 0.0 && x <= 1.0
    ensures f * x <= f
  {
  }

  // ---------- The whole operation ----------

  datatype LicenseError = NoBalance | NotEnoughBalance | ZeroSupply | RevenueExceedsFee

  // Tokens whose percentages add up to at most 100, none of them the fee's own asset, with
  // holdings within their supplies.
  ghost predicate WellIssued(book: Book, feeSymbol: Symbol, tokens: seq<Token>) {
    && SumFractions(tokens) <= 1.0
    && forall t :: t in tokens ==> t.symbol != feeSymbol && Total(Column(book, t.symbol)) <= t.supply
  }

  // The balances before the first token, after each token.
  ghost predicate IsDistribution(books: seq<Book>, fee: nat, feeSymbol: Symbol, tokens: seq<Token>) {
    && |books| == |tokens| + 1
    && forall k :: 0 <= k < |tokens| ==> TokenStep(books, k, fee, feeSymbol, tokens[k])
  }

  ghost predicate TokenStep(books: seq<Book>, k: nat, fee: nat, feeSymbol: Symbol, token: Token)
    requires k + 1 < |books|
  {
    if Column(books[k], token.symbol) == map[] then books[k + 1] == books[k]
    else
      && token.supply > 0
      && exists share: nat :: IsShareOf(fee, token.share, share) &&
                              Distributed(books[k], books[k + 1], feeSymbol, token.symbol, share, token.supply)
  }

  // The rest went to the research group, the fee came from the licensee.
  ghost predicate Settled(before: Book, after: Book, feeSymbol: Symbol, group: Account, rest: int, licensee: Account, fee: int) {
    forall a :: BalanceIn(after, a, feeSymbol) ==
      BalanceIn(before, a, feeSymbol) + (if a == group then rest else 0) - (if a == licensee then fee else 0)
  }

  // Pays the holders of all tokens; false when a token with holders has no supply.
  method DistributeAll(ledger: AccountBalances, fee: nat, feeSymbol: Symbol, tokens: seq<Token>)
    returns (ok: bool, totalRevenue: int, ghost books: seq<Book>)
    requires NonNegative(ledger.book)
    modifies ledger
    ensures (forall t :: t in tokens ==> t.supply > 0) ==> ok
    ensures ok ==>
              && NonNegative(ledger.book)
              && IsDistribution(books, fee, feeSymbol, tokens) && |books| == |tokens| + 1
              && books[0] == old(ledger.book) && books[|tokens|] == ledger.book
              && Total(Column(ledger.book, feeSymbol)) == Total(Column(old(ledger.book), feeSymbol)) + totalRevenue
              && (forall a :: BalanceIn(ledger.book, a, feeSymbol) >= BalanceIn(old(ledger.book), a, feeSymbol))
              && (forall s :: s != feeSymbol ==> Column(ledger.book, s) == Column(old(ledger.book), s))
              && (WellIssued(old(ledger.book), feeSymbol, tokens) ==> totalRevenue <= fee)
  {
    hide Total, RevenueColumn, ShareOf, SumFractions, SumShares, IsDistribution, Revenue, Distributed, TokenStep;
    NoTokenYet(ledger.book, fee, feeSymbol);
    assert SumShares(fee, tokens[..0]) == 0 by {
      NoShares(fee, tokens);
    }
    ghost var start := ledger.book;
    totalRevenue := 0;
    books := [ledger.book];
    var i := 0;
    while i < |tokens|
      invariant i <= |tokens| && NonNegative(ledger.book)
      invariant |books| == i + 1 && IsDistribution(books, fee, feeSymbol, tokens[..i]) && books[0] == start && books[i] == ledger.book
      invariant Total(Column(ledger.book, feeSymbol)) == Total(Column(start, feeSymbol)) + totalRevenue
      invariant forall a :: BalanceIn(ledger.book, a, feeSymbol) >= BalanceIn(start, a, feeSymbol)
      invariant forall s :: s != feeSymbol ==> Column(ledger.book, s) == Column(start, s)
      invariant WellIssued(start, feeSymbol, tokens) ==> totalRevenue <= SumShares(fee, tokens[..i])
    {
      var token := tokens[i];
      var share := ShareOf(fee, token.share);
      ghost var now := ledger.book;
      assert token in tokens;
      SharesSoFar(fee, tokens, i);
      if Column(ledger.book, token.symbol) != map[] {
        if token.supply == 0 {
          ok := false;
          return;
        }
        var revenue := DistributeToken(ledger, feeSymbol, token.symbol, share, token.supply);
        totalRevenue := totalRevenue + revenue;
        if WellIssued(start, feeSymbol, tokens) {
          ColumnIsNonNegative(now, token.symbol);
          RevenueWithinShare(Column(now, token.symbol), share, token.supply);
        }
      }
      TokenStepMeans(now, ledger.book, fee, feeSymbol, token);
      TokenStepKeeps(now, ledger.book, fee, feeSymbol, token);
      OneMoreToken(books, ledger.book, fee, feeSymbol, tokens, i);
      books := books + [ledger.book];
      i := i + 1;
    }
    assert tokens[..i] == tokens;
    if WellIssued(start, feeSymbol, tokens) {
      SharesWithinFee(fee, tokens);
    }
    ok := true;
  }

  lemma ColumnIsNonNegative(book: Book, symbol: Symbol)
    requires NonNegative(book)
    ensures forall a :: a in Column(book, symbol) ==> Column(book, symbol)[a] >= 0
  {
  }

  lemma TokenStepMeans(before: Book, after: Book, fee: nat, feeSymbol: Symbol, token: Token)
    requires if Column(before, token.symbol) == map[] then after == before
             else token.supply > 0 && Distributed(before, after, feeSymbol, token.symbol, ShareOf(fee, token.share), token.supply)
    ensures TokenStep([before, after], 0, fee, feeSymbol, token)
  {
    hide Distributed, ShareOf, IsShareOf;
    ShareOfIsShare(fee, token.share);
  }

  // Distribution takes nothing from anybody and leaves other assets alone.
  lemma TokenStepKeeps(before: Book, after: Book, fee: nat, feeSymbol: Symbol, token: Token)
    requires TokenStep([before, after], 0, fee, feeSymbol, token)
    ensures forall a :: BalanceIn(after, a, feeSymbol) >= BalanceIn(before, a, feeSymbol)
    ensures forall s :: s != feeSymbol ==> Column(after, s) == Column(before, s)
  {
    hide IsShareOf, IsFloor, HasReceived;
    if Column(before, token.symbol) != map[] {
      var share: nat :| Distributed(before, after, feeSymbol, token.symbol, share, token.supply);
      forall a ensures BalanceIn(after, a, feeSymbol) >= BalanceIn(before, a, feeSymbol) {
        if a in Column(before, token.symbol) {
          ReceivesNothingLess(before, after, feeSymbol, token.symbol, share, token.supply, a);
        }
      }
    }
  }

  lemma ReceivesNothingLess(before: Book, after: Book, fee: Symbol, token: Symbol, share: nat, supply: nat, a: Account)
    requires Distributed(before, after, fee, token, share, supply) && a in Column(before, token)
    ensures BalanceIn(after, a, fee) >= BalanceIn(before, a, fee)
  {
    hide IsFloor;
    var balance := Column(before, token)[a];
    if balance >= 0 {
      assert share * balance >= 0;
      FloorIsNatural(BalanceIn(after, a, fee) - BalanceIn(before, a, fee), share * balance, supply);
    }
  }

  lemma SharesSoFar(fee: nat, tokens: seq<Token>, i: nat)
    requires i < |tokens|
    ensures SumShares(fee, tokens[..i + 1]) == SumShares(fee, tokens[..i]) + ShareOf(fee, tokens[i].share)
  {
    assert tokens[..i + 1][..i] == tokens[..i];
  }

  lemma NoShares(fee: nat, tokens: seq<Token>)
    ensures SumShares(fee, tokens[..0]) == 0
  {
  }

  lemma NoTokenYet(book: Book, fee: nat, feeSymbol: Symbol)
    ensures IsDistribution([book], fee, feeSymbol, [])
  {
  }

  lemma OneMoreToken(books: seq<Book>, after: Book, fee: nat, feeSymbol: Symbol, tokens: seq<Token>, i: nat)
    requires i < |tokens| && |books| == i + 1 && IsDistribution(books, fee, feeSymbol, tokens[..i])
    requires TokenStep([books[i], after], 0, fee, feeSymbol, tokens[i])
    ensures IsDistribution(books + [after], fee, feeSymbol, tokens[..i + 1])
  {
    var more := books + [after];
    var upTo := tokens[..i + 1];
    forall k | 0 <= k < |upTo| ensures TokenStep(more, k, fee, feeSymbol, upTo[k]) {
      if k < i {
        assert TokenStep(books, k, fee, feeSymbol, tokens[..i][k]);
      }
    }
  }

  // create_research_license for a fee: all or nothing. The total of the fee's asset stays as
  // it was, no balance falls below zero, the final charge is never refused, and the check on
  // the total revenue cannot fail for well issued tokens.
  method CreateResearchLicense(ledger: AccountBalances, licensee: Account, group: Account, fee: nat, feeSymbol: Symbol, tokens: seq<Token>)
    returns (error: Option<LicenseError>, ghost books: seq<Book>)
    requires fee > 0 && NonNegative(ledger.book)
    modifies ledger
    ensures error.Some? ==> ledger.book == old(ledger.book)
    ensures error.None? ==>
              && NonNegative(ledger.book)
              && Total(Column(ledger.book, feeSymbol)) == Total(Column(old(ledger.book), feeSymbol))
              && (forall s :: s != feeSymbol ==> Column(ledger.book, s) == Column(old(ledger.book), s))
              && IsDistribution(books, fee, feeSymbol, tokens) && books[0] == old(ledger.book)
              && (var rest := fee - (Total(Column(books[|tokens|], feeSymbol)) - Total(Column(books[0], feeSymbol)));
                  rest >= 0 && Settled(books[|tokens|], ledger.book, feeSymbol, group, rest, licensee, fee))
              && BalanceIn(old(ledger.book), licensee, feeSymbol) >= fee
    ensures BalanceIn(old(ledger.book), licensee, feeSymbol) >= fee ==> error !in {Some(NoBalance), Some(NotEnoughBalance)}
    ensures (forall t :: t in tokens ==> t.supply > 0) ==> error != Some(ZeroSupply)
    ensures WellIssued(old(ledger.book), feeSymbol, tokens) ==> error != Some(RevenueExceedsFee)
  {
    hide Total, WellIssued, IsDistribution, Adjusted;
    var before := ledger.book;
    books := [];
    if licensee !in Column(ledger.book, feeSymbol) {
      return Some(NoBalance), books;
    }
    if BalanceIn(ledger.book, licensee, feeSymbol) < fee {
      return Some(NotEnoughBalance), books;
    }
    var ok, totalRevenue;
    ok, totalRevenue, books := DistributeAll(ledger, fee, feeSymbol, tokens);
    if !ok {
      ledger.book := before;
      return Some(ZeroSupply), books;
    }
    if totalRevenue > fee {
      ledger.book := before;
      return Some(RevenueExceedsFee), books;
    }
    ghost var distributed := ledger.book;
    var rest := fee - totalRevenue;
    if totalRevenue < fee {
      AdjustedTotals(ledger.book, group, feeSymbol, rest);
      ok := ledger.Adjust(group, feeSymbol, rest);
    }
    AdjustedTotals(ledger.book, licensee, feeSymbol, 0 - fee);
    ok := ledger.Adjust(licensee, feeSymbol, 0 - fee);
    error := None;
  }
}
