/** The Kusama side of the escrow: paying the registered withdrawals from the market's account. */
module KusamaWithdraw {
  import opened Common

  /** The transfer rows in creation order, and the free balances of the accounts on Kusama. */
  datatype Books = Books(rows: seq<MoneyTransfer>, balances: map<Address, nat>)

  predicate IsPendingWithdraw(t: MoneyTransfer) {
    t.kind == Withdraw && t.status == PendingTransfer
  }

  function BalanceOf(balances: map<Address, nat>, x: Address): nat {
    if x in balances then balances[x] else 0
  }

  /** A balance transfer; the chain may refuse it for reasons of its own. */
  function Transferred(balances: map<Address, nat>, sender: Address, recipient: Address, amount: int,
                       accepted: bool): Option<map<Address, nat>>
  {
    if !accepted || amount < 0 || BalanceOf(balances, sender) < amount then None
    else
      var debited := balances[sender := BalanceOf(balances, sender) - amount];
      Some(debited[recipient := BalanceOf(debited, recipient) + amount])
  }

  /** Handling row `i`: paid or failed if it was a pending withdrawal, else left alone. */
  function Handled(b: Books, admin: Address, i: nat, accepted: bool): Books
    requires i < |b.rows|
  {
    var row := b.rows[i];
    if !IsPendingWithdraw(row) then b
    else match Transferred(b.balances, admin, row.address, row.amount, accepted)
      case Some(balances) => Books(b.rows[i := row.(status := Completed)], balances)
      case None => Books(b.rows[i := row.(status := FailedTransfer)], b.balances)
  }

  /** The books after the first `n` rows, in creation order, have had their turn. */
  function Drained(b: Books, admin: Address, accepted: nat -> bool, n: nat): (r: Books)
    requires n <= |b.rows|
    ensures |r.rows| == |b.rows|
    ensures forall i :: n <= i < |b.rows| ==> r.rows[i] == b.rows[i]
  {
    if n == 0 then b else Handled(Drained(b, admin, accepted, n - 1), admin, n - 1, accepted(n - 1))
  }

  // ---------- what draining the queue achieves ----------

  /** The amount row `i` moved: it was pending in `before` and is completed in `after`. */
  function PaidByRow(before: seq<MoneyTransfer>, after: seq<MoneyTransfer>, i: nat): int
    requires i < |before| == |after|
  {
    if IsPendingWithdraw(before[i]) && after[i].status == Completed then before[i].amount else 0
  }

  /** What the first `n` rows paid in all. */
  function Paid(before: seq<MoneyTransfer>, after: seq<MoneyTransfer>, n: nat): int
    requires n <= |before| == |after|
  {
    if n == 0 then 0 else Paid(before, after, n - 1) + PaidByRow(before, after, n - 1)
  }

  /** What the first `n` rows paid to `x`. */
  function PaidTo(before: seq<MoneyTransfer>, after: seq<MoneyTransfer>, x: Address, n: nat): int
    requires n <= |before| == |after|
  {
    if n == 0 then 0
    else PaidTo(before, after, x, n - 1) + if before[n - 1].address == x then PaidByRow(before, after, n - 1) else 0
  }

  lemma {:induction false} PaidSame(before: seq<MoneyTransfer>, after: seq<MoneyTransfer>,
      after': seq<MoneyTransfer>, x: Address, n: nat)
    requires n <= |before| == |after| == |after'| && forall i :: 0 <= i < n ==> after[i] == after'[i]
    ensures Paid(before, after, n) == Paid(before, after', n)
    ensures PaidTo(before, after, x, n) == PaidTo(before, after', x, n)
  {
    if n > 0 {
      PaidSame(before, after, after', x, n - 1);
    }
  }

  /** Every account ends with what it had plus what was paid to it, and the market's account less all that was paid. */
  lemma {:induction false} EveryPaymentArrives(b: Books, admin: Address, accepted: nat -> bool, x: Address, n: nat)
    requires n <= |b.rows|
    ensures var r := Drained(b, admin, accepted, n);
      BalanceOf(r.balances, x) == BalanceOf(b.balances, x) + PaidTo(b.rows, r.rows, x, n)
        - if x == admin then Paid(b.rows, r.rows, n) else 0
  {
    if n > 0 {
      var before, r := Drained(b, admin, accepted, n - 1), Drained(b, admin, accepted, n);
      EveryPaymentArrives(b, admin, accepted, x, n - 1);
      PaidSame(b.rows, before.rows, r.rows, x, n - 1);
      assert r == Handled(before, admin, n - 1, accepted(n - 1)) && before.rows[n - 1] == b.rows[n - 1];
    }
  }

  /** Draining settles every pending withdrawal, once, and changes nothing else about any row. */
  lemma {:induction false} EveryRowSettled(b: Books, admin: Address, accepted: nat -> bool, n: nat)
    requires n <= |b.rows|
    ensures var rows := Drained(b, admin, accepted, n).rows;
      forall i :: 0 <= i < n ==>
        if IsPendingWithdraw(b.rows[i])
        then rows[i] == b.rows[i].(status := Completed) || rows[i] == b.rows[i].(status := FailedTransfer)
        else rows[i] == b.rows[i]
  {
    if n > 0 {
      EveryRowSettled(b, admin, accepted, n - 1);
    }
  }

  /**
   * Exactly which withdrawals are paid: those the chain accepts and that the account, with what the earlier turns left
   * of it, covers.
   */
  lemma {:induction false} PaidIff(b: Books, admin: Address, accepted: nat -> bool, i: nat, n: nat)
    requires i < n <= |b.rows| && IsPendingWithdraw(b.rows[i])
    ensures var rows := Drained(b, admin, accepted, n).rows;
      rows[i].status == Completed <==>
        && accepted(i) && b.rows[i].amount >= 0
        && b.rows[i].amount <= BalanceOf(b.balances, admin) + PaidTo(b.rows, rows, admin, i) - Paid(b.rows, rows, i)
  {
    if i == n - 1 {
      var before, r := Drained(b, admin, accepted, i), Drained(b, admin, accepted, n);
      EveryPaymentArrives(b, admin, accepted, admin, i);
      PaidSame(b.rows, before.rows, r.rows, admin, i);
      assert r == Handled(before, admin, i, accepted(i)) && before.rows[i] == b.rows[i];
    } else {
      var before, r := Drained(b, admin, accepted, n - 1), Drained(b, admin, accepted, n);
      PaidIff(b, admin, accepted, i, n - 1);
      EveryRowSettled(b, admin, accepted, n - 1);
      assert r == Handled(before, admin, n - 1, accepted(n - 1));
      PaidSame(b.rows, before.rows, r.rows, admin, i);
    }
  }

  /** The sum of the first `n` pending amounts. */
  function Owed(rows: seq<MoneyTransfer>, n: nat): int
    requires n <= |rows|
  {
    if n == 0 then 0 else Owed(rows, n - 1) + if IsPendingWithdraw(rows[n - 1]) then rows[n - 1].amount else 0
  }

  lemma {:induction false} OwedGrows(rows: seq<MoneyTransfer>, m: nat, n: nat)
    requires m <= n <= |rows| && forall i :: 0 <= i < |rows| && IsPendingWithdraw(rows[i]) ==> rows[i].amount >= 0
    ensures Owed(rows, m) <= Owed(rows, n)
    decreases n
  {
    if m < n {
      OwedGrows(rows, m, n - 1);
    }
  }

  /** If the chain refuses nothing and the account covers all that is owed, every pending withdrawal is paid. */
  lemma {:induction false} CoveredQueueIsPaid(b: Books, admin: Address, accepted: nat -> bool, n: nat)
    requires n <= |b.rows| && forall i :: 0 <= i < |b.rows| ==> accepted(i)
    requires forall i :: 0 <= i < |b.rows| && IsPendingWithdraw(b.rows[i]) ==> b.rows[i].amount >= 0
    requires BalanceOf(b.balances, admin) >= Owed(b.rows, |b.rows|)
    ensures var r := Drained(b, admin, accepted, n);
      && (forall i :: 0 <= i < n && IsPendingWithdraw(b.rows[i]) ==> r.rows[i].status == Completed)
      && BalanceOf(r.balances, admin) >= BalanceOf(b.balances, admin) - Owed(b.rows, n)
  {
    if n > 0 {
      CoveredQueueIsPaid(b, admin, accepted, n - 1);
      OwedGrows(b.rows, n, |b.rows|);
    }
  }

  class KusamaEscrow {
    const admin: Address
    var rows: seq<MoneyTransfer>
    var balances: map<Address, nat>

    function View(): Books
      reads this
    {
      Books(rows, balances)
    }

    constructor (admin: Address, rows: seq<MoneyTransfer>, balances: map<Address, nat>)
      ensures this.admin == admin && View() == Books(rows, balances)
    {
      this.admin, this.rows, this.balances := admin, rows, balances;
    }

    /** `getPendingKusamaWithdraw`: the earliest pending withdrawal. */
    method GetPendingKusamaWithdraw() returns (row: Option<nat>)
      ensures row.Some? ==>
        && row.value < |rows| && IsPendingWithdraw(rows[row.value])
        && forall i :: 0 <= i < row.value ==> !IsPendingWithdraw(rows[i])
      ensures row.None? ==> forall i :: 0 <= i < |rows| ==> !IsPendingWithdraw(rows[i])
    {
      for i := 0 to |rows|
        invariant forall j :: 0 <= j < i ==> !IsPendingWithdraw(rows[j])
      {
        if IsPendingWithdraw(rows[i]) {
          return Some(i);
        }
      }
      row := None;
    }

    /** `transfer`: throws, without effect, on too small a balance or a refused transaction. */
    method Transfer(sender: Address, recipient: Address, amount: int, accepted: bool) returns (ok: bool)
      modifies this`balances
      ensures var r := Transferred(old(balances), sender, recipient, amount, accepted);
        (ok <==> r.Some?) && balances == match r case Some(m) => m case None => old(balances)
    {
      var senderBalance := BalanceOf(balances, sender);
      if senderBalance < amount {
        return false;
      }
      ok := accepted && amount >= 0;
      if ok {
        balances := balances[sender := senderBalance - amount];
        balances := balances[recipient := BalanceOf(balances, recipient) + amount];
      }
    }

    /** One turn of the loop in `processWithdraw`. */
    method Withdraw(id: nat, accepted: bool)
      requires id < |rows| && IsPendingWithdraw(rows[id])
      modifies this
      ensures View() == Handled(old(View()), admin, id, accepted)
    {
      var amountReturned := rows[id].amount;
      rows := rows[id := rows[id].(status := InProgress)];
      var ok := Transfer(admin, rows[id].address, amountReturned, accepted);
      rows := rows[id := rows[id].(status := if ok then Completed else FailedTransfer)];
    }

    /**
     * `processWithdraw`: takes pending withdrawals in creation order until none is left. `accepted` tells for
     * each row whether the chain would take its transfer; `handled` lists the rows in the order of their turns.
     */
    method ProcessWithdraw(accepted: nat -> bool) returns (handled: seq<nat>)
      modifies this
      ensures View() == Drained(old(View()), admin, accepted, |old(rows)|)
      ensures handled == PendingIds(old(rows), |old(rows)|)
      ensures forall i :: 0 <= i < |rows| ==> !IsPendingWithdraw(rows[i])
    {
      handled := [];
      ghost var n := 0;
      while true
        invariant n <= |rows| == |old(rows)| && View() == Drained(old(View()), admin, accepted, n)
        invariant handled == PendingIds(old(rows), n)
        decreases |rows| - n
      {
        EveryRowSettled(old(View()), admin, accepted, n);
        var withdraw := GetPendingKusamaWithdraw();
        ghost var next := match withdraw case Some(i) => i case None => |rows|;
        SkipSettled(old(View()), admin, accepted, n, next);
        if withdraw.None? {
          break;
        }
        Withdraw(withdraw.value, accepted(withdraw.value));
        handled := handled + [withdraw.value];
        n := withdraw.value + 1;
      }
    }
  }

  /** The pending withdrawals among the first `n` rows, in creation order. */
  function PendingIds(rows: seq<MoneyTransfer>, n: nat): seq<nat>
    requires n <= |rows|
  {
    if n == 0 then [] else PendingIds(rows, n - 1) + if IsPendingWithdraw(rows[n - 1]) then [n - 1] else []
  }

  /** `PendingIds` lists each pending withdrawal exactly once, earlier ones first. */
  lemma {:induction false} PendingIdsExact(rows: seq<MoneyTransfer>, n: nat)
    requires n <= |rows|
    ensures var ids := PendingIds(rows, n);
      && (forall j, k :: 0 <= j < k < |ids| ==> ids[j] < ids[k])
      && (forall j :: 0 <= j < |ids| ==> ids[j] < n)
      && (forall i: nat :: i in ids <==> i < n && IsPendingWithdraw(rows[i]))
  {
    if n > 0 {
      PendingIdsExact(rows, n - 1);
    }
  }

  /** Rows that are not pending withdrawals are passed over. */
  lemma {:induction false} SkipSettled(b: Books, admin: Address, accepted: nat -> bool, n: nat, next: nat)
    requires n <= |b.rows| && next <= |b.rows|
    requires forall i :: 0 <= i < next ==> !IsPendingWithdraw(Drained(b, admin, accepted, n).rows[i])
    ensures next >= n ==>
      && Drained(b, admin, accepted, next) == Drained(b, admin, accepted, n)
      && PendingIds(b.rows, next) == PendingIds(b.rows, n)
    decreases next
  {
    if next > n {
      SkipSettled(b, admin, accepted, n, next - 1);
    }
  }
}
