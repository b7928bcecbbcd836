/**
 Money transfers between bank accounts: the entities with their guards, and `transactInAccounts`.
 Amounts are whole cents.  The table of accounts is a map keyed by account number.
 */
module Transfers {
  import opened Dom

  type Number = string

  /** A row of the table. */
  datatype Row = Row(balance: int, status: int, currency: string)

  type Table = map<Number, Row>

  /** A transaction as it is read by the service. */
  datatype Order = Order(amount: Option<int>, kind: int, currency: string, from: Number, to: Number)

  const CREDIT := 1
  const DEBIT := -1

  // ----- the entities -----

  class BankTransaction {
    var transactionAmount: Option<int>
    var transactionType: int
    var currencyUnit: string
    var transactionFrom: Number
    var transactionTo: Number

    function Value(): Order
      reads this
    {
      Order(transactionAmount, transactionType, currencyUnit, transactionFrom, transactionTo)
    }

    predicate Valid()
      reads this
    {
      transactionAmount.Some? ==> transactionAmount.value >= 0
    }

    constructor (currency: string, from: Number, to: Number)
      ensures Valid() && Value() == Order(None, DEBIT, currency, from, to)
    {
      transactionAmount, currencyUnit, transactionFrom, transactionTo := None, currency, from, to;
      transactionType := DEBIT;
    }

    /** A missing amount counts as zero; a negative one is refused. */
    method SetTransactionAmount(amount: Option<int>) returns (threw: bool)
      requires Valid()
      modifies this`transactionAmount
      ensures Valid() && (threw <==> amount.Some? && amount.value < 0)
      ensures transactionAmount == if threw then old(transactionAmount)
                                   else Some(if amount.Some? then amount.value else 0)
    {
      var value := if amount.Some? then amount.value else 0;
      if value < 0 {
        return true;
      }
      transactionAmount := Some(value);
      threw := false;
    }

    /** A missing type means debit. */
    method SetTransactionType(kind: Option<int>)
      modifies this`transactionType
      ensures transactionType == if kind.Some? then kind.value else DEBIT
    {
      if kind.None? {
        transactionType := DEBIT;
      } else {
        transactionType := kind.value;
      }
    }
  }

  class BankAccount {
    const accountNumber: Number
    const currencyUnit: string
    var currentBalance: int
    var accountStatus: int

    constructor (number: Number, row: Row)
      ensures accountNumber == number && Value() == row
    {
      accountNumber, currencyUnit, currentBalance, accountStatus := number, row.currency, row.balance, row.status;
    }

    function Value(): Row
      reads this
    {
      Row(currentBalance, accountStatus, currencyUnit)
    }

    method SetCurrentBalance(balance: int) returns (threw: bool)
      modifies this`currentBalance
      ensures threw <==> balance < 0
      ensures currentBalance == if threw then old(currentBalance) else balance
    {
      if balance < 0 {
        return true;
      }
      currentBalance := balance;
      threw := false;
    }
  }

  // ----- what a pass of the loop does -----

  datatype Outcome = Fine(table: Table, from: (Number, string), to: (Number, string)) | Refused(table: Table)

  /** Whether the pass for this account is the one that moves the money. */
  predicate Acts(o: Order, account: Number) {
    (o.kind == CREDIT && o.from == account) || (o.kind == DEBIT && o.to == account)
  }

  /** The move itself; both rows are read before either is written. */
  function Move(t: Table, o: Order): Outcome {
    if o.from !in t || o.to !in t || o.amount.None? then Refused(t)
    else
      var a, f, g := o.amount.value, t[o.from], t[o.to];
      if f.balance - a < 0 || g.balance + a < 0 then Refused(t)
      else Fine(t[o.from := Row(f.balance - a, 10, f.currency)][o.to := Row(g.balance + a, 20, g.currency)],
                (o.from, f.currency), (o.to, g.currency))
  }

  function Pass(t: Table, o: Order, account: Number, from: (Number, string), to: (Number, string)): Outcome {
    if account !in t then Refused(t)
    else if from.1 != to.1 || from.1 != o.currency then Refused(t)
    else if Acts(o, account) then Move(t, o)
    else if o.from == o.to then Refused(t)
    else Fine(t, from, to)
  }

  /** The first `n` passes; `from` and `to` are the number and currency of the accounts in hand. */
  function Passes(t: Table, o: Order, collection: seq<(Number, string)>, n: nat): Outcome
    requires n <= |collection|
  {
    if |collection| < 2 then Refused(t)
    else if n == 0 then Fine(t, collection[0], collection[1])
    else
      var before := Passes(t, o, collection, n - 1);
      if before.Refused? then before else Pass(before.table, o, collection[n - 1].0, before.from, before.to)
  }

  /** The whole call. */
  function Transact(t: Table, o: Order, collection: seq<(Number, string)>): Outcome {
    Passes(t, o, collection, |collection|)
  }

  // ----- the service -----

  class AccountService {
    var rows: Table

    constructor (table: Table)
      ensures rows == table
    {
      rows := table;
    }

    /** A fresh object with what the table holds; `null` when the call throws. */
    method GetAccountByNumber(number: Number) returns (account: BankAccount?)
      ensures account == null <==> number !in rows
      ensures account != null ==> fresh(account) && account.accountNumber == number && account.Value() == rows[number]
    {
      if number in rows {
        account := new BankAccount(number, rows[number]);
      } else {
        account := null;
      }
    }

    method UpdateAccount(account: BankAccount)
      requires account.accountNumber in rows && account.currencyUnit == rows[account.accountNumber].currency
      modifies this`rows
      ensures rows == old(rows)[account.accountNumber := account.Value()]
    {
      rows := rows[account.accountNumber := account.Value()];
    }

    /** The credit branch and the debit branch, which differ in the sign of the factor only. */
    method MoveMoney(tx: BankTransaction, account: Number)
      returns (threw: bool, balanceFrom: BankAccount?, balanceTo: BankAccount?)
      requires Acts(tx.Value(), account)
      modifies this`rows
      ensures var r := Move(old(rows), tx.Value());
              rows == r.table && (threw <==> r.Refused?) &&
              (r.Fine? ==> balanceFrom != null && balanceTo != null &&
                           (balanceFrom.accountNumber, balanceFrom.currencyUnit) == r.from &&
                           (balanceTo.accountNumber, balanceTo.currencyUnit) == r.to)
    {
      var credit := tx.transactionType == CREDIT;
      balanceFrom, balanceTo := null, null;
      balanceFrom := GetAccountByNumber(tx.transactionFrom);
      if balanceFrom == null {
        return true, null, null;
      }
      balanceFrom.accountStatus := 10;
      if tx.transactionAmount.None? {
        return true, null, null;
      }
      var newBalance := balanceFrom.currentBalance +
                        tx.transactionAmount.value * (if credit then -tx.transactionType else tx.transactionType);
      if newBalance < 0 {
        return true, null, null;
      }
      var _ := balanceFrom.SetCurrentBalance(newBalance);
      balanceTo := GetAccountByNumber(tx.transactionTo);
      if balanceTo == null {
        return true, null, null;
      }
      balanceTo.accountStatus := 20;
      newBalance := balanceTo.currentBalance +
                    tx.transactionAmount.value * (if credit then tx.transactionType else -tx.transactionType);
      if newBalance < 0 {
        return true, null, null;
      }
      var _ := balanceTo.SetCurrentBalance(newBalance);
      UpdateAccount(balanceFrom);
      UpdateAccount(balanceTo);
      threw := false;
    }

    method TransactInAccounts(tx: BankTransaction, collection: seq<BankAccount>) returns (threw: bool)
      modifies this`rows
      ensures var o := Transact(old(rows), tx.Value(), Keys(collection));
              rows == o.table && (threw <==> o.Refused?)
    {
      if |collection| < 2 {
        return true;
      }
      ghost var keys, order := Keys(collection), tx.Value();
      var balanceFrom: BankAccount, balanceTo: BankAccount := collection[0], collection[1];
      var i := 0;
      while i < |collection|
        invariant 0 <= i <= |collection|
        invariant Passes(old(rows), order, keys, i) ==
                  Fine(rows, (balanceFrom.accountNumber, balanceFrom.currencyUnit),
                      (balanceTo.accountNumber, balanceTo.currencyUnit))
      {
        var number := collection[i].accountNumber;
        assert keys[i].0 == number;
        RefusedLater(old(rows), order, keys, i + 1);
        var account := GetAccountByNumber(number);
        if account == null {
          return true;
        }
        if balanceFrom.currencyUnit != balanceTo.currencyUnit || balanceFrom.currencyUnit != tx.currencyUnit {
          return true;
        }
        if (tx.transactionType == CREDIT && tx.transactionFrom == number) ||
           (tx.transactionType == DEBIT && tx.transactionTo == number) {
          var from, to;
          threw, from, to := MoveMoney(tx, number);
          if threw {
            return;
          }
          balanceFrom, balanceTo := from, to;
        } else if tx.transactionFrom == tx.transactionTo {
          return true;
        }
        i := i + 1;
      }
      threw := false;
    }
  }

  function Keys(collection: seq<BankAccount>): (r: seq<(Number, string)>)
    ensures |r| == |collection|
  {
    seq(|collection|, i requires 0 <= i < |collection| => (collection[i].accountNumber, collection[i].currencyUnit))
  }

  lemma {:induction false} RefusedLater(t: Table, o: Order, collection: seq<(Number, string)>, n: nat)
    requires n <= |collection|
    ensures Passes(t, o, collection, n).Refused? ==> Transact(t, o, collection) == Passes(t, o, collection, n)
    decreases |collection| - n
  {
    if n < |collection| {
      RefusedLater(t, o, collection, n + 1);
    }
  }

  // ----- conservation -----

  ghost function Total(t: Table): int {
    if t == map[] then 0
    else
      var k :| k in t;
      t[k].balance + Total(t - {k})
  }

  /** The order of summing does not matter. */
  lemma {:induction false} TotalWithout(t: Table, k: Number)
    requires k in t
    ensures Total(t) == t[k].balance + Total(t - {k})
    decreases |t|
  {
    var first :| first in t && Total(t) == t[first].balance + Total(t - {first});
    if first != k {
      TotalWithout(t - {first}, k);
      TotalWithout(t - {k}, first);
      assert t - {first} - {k} == t - {k} - {first};
    }
  }

  lemma TotalUpdate(t: Table, k: Number, r: Row)
    requires k in t
    ensures Total(t[k := r]) == Total(t) - t[k].balance + r.balance
  {
    TotalWithout(t, k);
    TotalWithout(t[k := r], k);
    assert t[k := r] - {k} == t - {k};
  }

  ghost predicate NoneNegative(t: Table) {
    forall k :: k in t ==> t[k].balance >= 0
  }

  ghost predicate SameAccounts(t: Table, u: Table) {
    t.Keys == u.Keys && forall k :: k in t ==> t[k].currency == u[k].currency
  }

  /** A move between two different accounts takes the amount from one and gives it to the other. */
  lemma MoveConserves(t: Table, o: Order)
    requires Move(t, o).Fine? && o.from != o.to
    ensures var u := Move(t, o).table;
            Total(u) == Total(t) && SameAccounts(t, u) && (NoneNegative(t) ==> NoneNegative(u)) &&
            u[o.from].balance == t[o.from].balance - o.amount.value &&
            u[o.to].balance == t[o.to].balance + o.amount.value &&
            forall k :: k in t && k != o.from && k != o.to ==> u[k] == t[k]
  {
    var a, f, g := o.amount.value, t[o.from], t[o.to];
    var mid := t[o.from := Row(f.balance - a, 10, f.currency)];
    TotalUpdate(t, o.from, Row(f.balance - a, 10, f.currency));
    TotalUpdate(mid, o.to, Row(g.balance + a, 20, g.currency));
  }

  // ----- whole calls -----

  /** The two accounts of the order, each once. */
  predicate TheTwo(o: Order, c: seq<(Number, string)>) {
    |c| == 2 && o.from != o.to &&
    ((c[0].0 == o.from && c[1].0 == o.to) || (c[0].0 == o.to && c[1].0 == o.from))
  }

  /** The accounts handed in say the currency that the table says. */
  predicate Current(t: Table, c: seq<(Number, string)>) {
    forall i :: 0 <= i < |c| ==> c[i].0 in t && c[i].1 == t[c[i].0].currency
  }

  lemma TwoPasses(t: Table, o: Order, c: seq<(Number, string)>)
    requires TheTwo(o, c)
    ensures var first := Pass(t, o, c[0].0, c[0], c[1]);
            Transact(t, o, c) == if first.Refused? then first else Pass(first.table, o, c[1].0, first.from, first.to)
  {
    assert Passes(t, o, c, 0) == Fine(t, c[0], c[1]);
    assert Passes(t, o, c, 1) == Pass(t, o, c[0].0, c[0], c[1]);
  }

  predicate Affordable(t: Table, o: Order)
    requires o.from in t && o.to in t
  {
    t[o.from].currency == t[o.to].currency == o.currency &&
    o.amount.Some? && t[o.from].balance - o.amount.value >= 0 && t[o.to].balance + o.amount.value >= 0
  }

  /** Despite the two passes the amount is moved once; the call is accepted exactly when the currencies agree
      and no balance would become negative; a refused call changes nothing. */
  lemma TransferOnce(t: Table, o: Order, c: seq<(Number, string)>)
    requires TheTwo(o, c) && Current(t, c) && o.kind in {CREDIT, DEBIT}
    ensures o.from in t && o.to in t
    ensures Transact(t, o, c).Fine? <==> Affordable(t, o)
    ensures Affordable(t, o) ==>
              Transact(t, o, c).table ==
                t[o.from := Row(t[o.from].balance - o.amount.value, 10, t[o.from].currency)]
                 [o.to := Row(t[o.to].balance + o.amount.value, 20, t[o.to].currency)] == Move(t, o).table
    ensures !Affordable(t, o) ==> Transact(t, o, c).table == t
  {
    assert c[0].0 in t && c[1].0 in t;
    TwoPasses(t, o, c);
  }

  /** Credit and debit have the same effect. */
  lemma CreditIsDebit(t: Table, o: Order, c: seq<(Number, string)>)
    requires TheTwo(o, c) && Current(t, c)
    ensures var credit, debit := Transact(t, o.(kind := CREDIT), c), Transact(t, o.(kind := DEBIT), c);
            credit.table == debit.table && (credit.Fine? <==> debit.Fine?)
  {
    TransferOnce(t, o.(kind := CREDIT), c);
    TransferOnce(t, o.(kind := DEBIT), c);
  }

  /** Any other type moves nothing. */
  lemma OtherKinds(t: Table, o: Order, c: seq<(Number, string)>)
    requires TheTwo(o, c) && Current(t, c) && o.kind !in {CREDIT, DEBIT}
    ensures Transact(t, o, c).table == t
  {
    assert c[0].0 in t && c[1].0 in t;
    TwoPasses(t, o, c);
  }

  /** When the accounts handed in may be stale, a refused call leaves a changed table exactly when the first
      pass moved the money and the currencies then read from the table do not agree. */
  lemma RefusedUnchangedExactly(t: Table, o: Order, c: seq<(Number, string)>)
    requires TheTwo(o, c) && o.from in t && o.to in t && o.kind in {CREDIT, DEBIT}
    ensures Transact(t, o, c).Refused? && Transact(t, o, c).table != t <==>
            Acts(o, c[0].0) && c[0].1 == c[1].1 == o.currency && Move(t, o).Fine? && Move(t, o).table != t &&
            !(t[o.from].currency == t[o.to].currency == o.currency)
  {
    TwoPasses(t, o, c);
  }

  /** A transfer from an account to itself: the guard against it is reached only by a pass that does not move
      money.  The call keeps the total exactly if the first pass moves nothing or the amount is zero; and when the other
      account handed in is a different one, a call that has changed the table is refused all the same. */
  lemma SelfTransfer(t: Table, o: Order, c: seq<(Number, string)>)
    requires |c| == 2 && o.from == o.to
    ensures var moves := Acts(o, c[0].0) && c[0].1 == c[1].1 == o.currency && Move(t, o).Fine?;
            (Total(Transact(t, o, c).table) == Total(t) <==> !moves || o.amount.value == 0) &&
            (moves && c[1].0 != o.from ==>
               Transact(t, o, c).Refused? && Total(Transact(t, o, c).table) == Total(t) + o.amount.value)
  {
    var first := Pass(t, o, c[0].0, c[0], c[1]);
    assert Passes(t, o, c, 0) == Fine(t, c[0], c[1]);
    assert Passes(t, o, c, 1) == first;
    if first.Fine? {
      MoveGains(t, o);
      var second := Pass(first.table, o, c[1].0, first.from, first.to);
      if second.table != first.table {
        MoveGains(first.table, o);
      }
    }
  }

  lemma MoveGains(t: Table, o: Order)
    requires o.from == o.to && Move(t, o).Fine?
    ensures Total(Move(t, o).table) == Total(t) + o.amount.value
  {
    var a, f := o.amount.value, t[o.from];
    assert Move(t, o).table == t[o.from := Row(f.balance + a, 20, f.currency)];
    TotalUpdate(t, o.from, Row(f.balance + a, 20, f.currency));
  }

  // ----- whole runs -----

  datatype CallOf = CallOf(order: Order, collection: seq<(Number, string)>)

  function RunAll(t: Table, calls: seq<CallOf>): Table {
    if calls == [] then t
    else
      var n := |calls| - 1;
      Transact(RunAll(t, calls[..n]), calls[n].order, calls[n].collection).table
  }

  /** Over any sequence of calls between two different existing accounts the total is constant and no balance
      is ever negative. */
  lemma {:induction false} RunsConserve(t: Table, calls: seq<CallOf>)
    requires NoneNegative(t)
    requires forall i :: 0 <= i < |calls| ==>
             TheTwo(calls[i].order, calls[i].collection) && Current(t, calls[i].collection)
    ensures var u := RunAll(t, calls);
            Total(u) == Total(t) && NoneNegative(u) && SameAccounts(t, u)
    decreases |calls|
  {
    if calls != [] {
      var n := |calls| - 1;
      RunsConserve(t, calls[..n]);
      var u, o, c := RunAll(t, calls[..n]), calls[n].order, calls[n].collection;
      assert Current(u, c);
      if o.kind in {CREDIT, DEBIT} {
        TransferOnce(u, o, c);
        if Affordable(u, o) {
          MoveConserves(u, o);
        }
      } else {
        OtherKinds(u, o, c);
      }
    }
  }
}
