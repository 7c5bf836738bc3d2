/** The guest's money: one balance in grosz and the journal that explains it.
    Every change goes through one door, which refuses to let the balance fall
    below zero. */
module Wallet {
  import opened Basics

  datatype Kind = Deposit | SessionSpend | KitchenSpend | Refund | Adjust | PackageSpend

  /** An operation: a signed amount and the id of what it pays for. */
  datatype Op = Op(kind: Kind, amount: int, ref: nat)

  datatype Entry = Entry(kind: Kind, amount: int, balanceAfter: int, ref: nat)

  datatype Account = Account(balance: int, journal: seq<Entry>)

  datatype Applied = Applied(account: Account) | Insufficient

  const NewAccount := Account(0, [])

  function WalletApply(a: Account, op: Op): (r: Applied)
    ensures r.Insufficient? <==> a.balance + op.amount < 0
  {
    var next := a.balance + op.amount;
    if next < 0 then Insufficient
    else Applied(Account(next, a.journal + [Entry(op.kind, op.amount, next, op.ref)]))
  }

  /** What an operation writes: one row that says what, how much and for what, with the
      balance after it; or nothing. */
  lemma ApplyWritesOneRow(a: Account, op: Op)
    ensures WalletApply(a, op) ==
      if a.balance + op.amount >= 0
      then Applied(Account(a.balance + op.amount,
                           a.journal + [Entry(op.kind, op.amount, a.balance + op.amount, op.ref)]))
      else Insufficient
  {
  }

  /** The account after an operation; a refused one leaves it as it was. */
  function Pay(a: Account, op: Op): Account {
    var r := WalletApply(a, op);
    if r.Applied? then r.account else a
  }

  function AmountOf(e: Entry): int {
    e.amount
  }

  /** The journal explains the balance, row by row, and there is no debt. */
  ghost predicate Explained(a: Account) {
    && a.balance >= 0
    && a.balance == SumBy(AmountOf, a.journal)
    && forall i :: 0 <= i < |a.journal| ==>
         a.journal[i].balanceAfter == SumBy(AmountOf, a.journal[..i + 1]) >= 0
  }

  lemma ApplyKeepsExplained(a: Account, op: Op)
    requires Explained(a)
    ensures var r := WalletApply(a, op); r.Applied? ==> Explained(r.account)
  {
    var r := WalletApply(a, op);
    if r.Applied? {
      var entry := r.account.journal[|a.journal|];
      SumByAppend(AmountOf, a.journal, entry);
      forall i | 0 <= i < |r.account.journal|
        ensures r.account.journal[i].balanceAfter == SumBy(AmountOf, r.account.journal[..i + 1]) >= 0
      {
        if i < |a.journal| {
          assert r.account.journal[..i + 1] == a.journal[..i + 1];
        } else {
          assert r.account.journal[..i + 1] == r.account.journal;
        }
      }
    }
  }

  /** Any interleaving of deposits, charges, purchases, payments and refunds. */
  function RunOps(a: Account, ops: seq<Op>): Account
    decreases |ops|
  {
    if ops == [] then a else RunOps(Pay(a, ops[0]), ops[1..])
  }

  /** After any run the balance is the sum of the journal, every row records the
      balance at its time, and the balance was never negative. */
  lemma {:induction false} OpsKeepExplained(a: Account, ops: seq<Op>)
    requires Explained(a)
    ensures Explained(RunOps(a, ops))
    ensures a.journal <= RunOps(a, ops).journal
    decreases |ops|
  {
    if ops != [] {
      ApplyKeepsExplained(a, ops[0]);
      OpsKeepExplained(Pay(a, ops[0]), ops[1..]);
    }
  }

  lemma FreshAccountIsExplained()
    ensures Explained(NewAccount)
  {
  }

  /** The guest's row: wallet with its journal, and the stock of coin minutes. */
  class GuestRow {
    const id: nat
    var balance: int
    var journal: seq<Entry>
    var coinMinutes: nat

    constructor (id: nat)
      ensures this.id == id && AccountView() == NewAccount && coinMinutes == 0
    {
      this.id := id;
      balance, journal, coinMinutes := 0, [], 0;
    }

    ghost function AccountView(): Account
      reads this
    {
      Account(balance, journal)
    }

    /** The only method that changes the balance. */
    method Apply(op: Op) returns (ok: bool)
      modifies this`balance, this`journal
      ensures var r := WalletApply(old(AccountView()), op);
        ok == r.Applied? && AccountView() == if ok then r.account else old(AccountView())
      ensures ok <==> old(balance) + op.amount >= 0
      ensures balance == old(balance) + if ok then op.amount else 0
      ensures journal == old(journal) + if ok then [Entry(op.kind, op.amount, balance, op.ref)] else []
    {
      var next := balance + op.amount;
      if next < 0 {
        return false;
      }
      balance := next;
      journal := journal + [Entry(op.kind, op.amount, next, op.ref)];
      ok := true;
    }
  }
}
