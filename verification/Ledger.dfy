/** Account balances by asset, as the balance service keeps them, and their totals. */
module Ledger {
  type Account = string
  type Symbol = string
  type Book = map<Symbol, map<Account, int>>

  // The sum of all balances of one asset.
  ghost function Total(column: map<Account, int>): int {
    if column == map[] then 0
    else
      var a :| a in column;
      column[a] + Total(column - {a})
  }

  lemma {:induction false} TotalSplit(column: map<Account, int>, a: Account)
    requires a in column
    ensures Total(column) == column[a] + Total(column - {a})
    decreases |column|
  {
    var b :| b in column && Total(column) == column[b] + Total(column - {b});
    if a != b {
      TotalSplit(column - {b}, a);
      TotalSplit(column - {a}, b);
      assert column - {b} - {a} == column - {a} - {b};
    }
  }

  lemma TotalUpdate(column: map<Account, int>, a: Account, v: int)
    ensures Total(column[a := v]) == Total(column) + v - (if a in column then column[a] else 0)
  {
    TotalSplit(column[a := v], a);
    assert column[a := v] - {a} == column - {a};
    if a in column {
      TotalSplit(column, a);
    } else {
      assert column - {a} == column;
    }
  }

  function Column(book: Book, symbol: Symbol): map<Account, int> {
    if symbol in book then book[symbol] else map[]
  }

  function BalanceIn(book: Book, owner: Account, symbol: Symbol): int {
    if owner in Column(book, symbol) then Column(book, symbol)[owner] else 0
  }

  // The book after adding delta to one balance, which is created if missing.
  function Adjusted(book: Book, owner: Account, symbol: Symbol, delta: int): Book {
    book[symbol := Column(book, symbol)[owner := BalanceIn(book, owner, symbol) + delta]]
  }

  predicate CanAdjust(book: Book, owner: Account, symbol: Symbol, delta: int) {
    delta < 0 ==> BalanceIn(book, owner, symbol) >= -delta
  }

  ghost predicate NonNegative(book: Book) {
    forall s, a :: s in book && a in book[s] ==> book[s][a] >= 0
  }

  // One adjustment moves the asset's total by delta and touches nothing else.
  lemma AdjustedTotals(book: Book, owner: Account, symbol: Symbol, delta: int)
    ensures var after := Adjusted(book, owner, symbol, delta);
            && Total(Column(after, symbol)) == Total(Column(book, symbol)) + delta
            && (forall s :: s != symbol ==> Column(after, s) == Column(book, s))
            && (forall a, s :: a != owner || s != symbol ==> BalanceIn(after, a, s) == BalanceIn(book, a, s))
            && BalanceIn(after, owner, symbol) == BalanceIn(book, owner, symbol) + delta
            && (NonNegative(book) && CanAdjust(book, owner, symbol, delta) ==> NonNegative(after))
            && (CanAdjust(book, owner, symbol, delta) <==> delta >= 0 || BalanceIn(after, owner, symbol) >= 0)
  {
    TotalUpdate(Column(book, symbol), owner, BalanceIn(book, owner, symbol) + delta);
  }

  // dbs_account_balance.
  class AccountBalances {
    var book: Book

    constructor (book: Book)
      ensures this.book == book
    {
      this.book := book;
    }

    // adjust_account_balance. A refused adjustment throws, and the transaction's changes are
    // undone with it.
    method Adjust(owner: Account, symbol: Symbol, delta: int) returns (ok: bool)
      modifies this
      ensures ok <==> CanAdjust(old(book), owner, symbol, delta)
      ensures book == if ok then Adjusted(old(book), owner, symbol, delta) else old(book)
    {
      var column := Column(book, symbol);
      if owner !in column {
        column := column[owner := 0];
      }
      if delta < 0 {
        if column[owner] < -delta {
          return false;
        }
      }
      book := book[symbol := column[owner := column[owner] + delta]];
      assert column[owner := BalanceIn(old(book), owner, symbol) + delta] ==
             Column(old(book), symbol)[owner := BalanceIn(old(book), owner, symbol) + delta];
      ok := true;
    }
  }
}
