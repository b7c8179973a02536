/** Energy stocks: 8-bit quantities spent and accrued within a policy. */
module Inventory {
  /** Unsigned 8-bit quantities. */
  type Energy = n: nat | n < 0x100

  datatype Policy = Policy(minimum: Energy, maximum: Energy)

  datatype AccrueResult = AccrueSuccess | Oversupply

  datatype SpendResult = SpendSuccess | Understock

  /** The comparison is made in wide signed arithmetic, so that it can neither overflow nor underflow. */
  function Accrued(policy: Policy, stock: Energy, amount: Energy): (Energy, AccrueResult) {
    if amount <= policy.maximum as int - stock as int then (stock + amount, AccrueSuccess) else (stock, Oversupply)
  }

  function Spent(policy: Policy, stock: Energy, amount: Energy): (Energy, SpendResult) {
    if amount <= stock as int - policy.minimum as int then (stock - amount, SpendSuccess) else (stock, Understock)
  }

  /** A successful spending is undone by accruing the same amount exactly when the stock was within the maximum. */
  lemma AccrueUndoesSpendIff(policy: Policy, stock: Energy, amount: Energy)
    requires Spent(policy, stock, amount).1.SpendSuccess?
    ensures Accrued(policy, Spent(policy, stock, amount).0, amount) == (stock, AccrueSuccess)
            <==> stock <= policy.maximum
  {
  }

  lemma SpendUndoesAccrueIff(policy: Policy, stock: Energy, amount: Energy)
    requires Accrued(policy, stock, amount).1.AccrueSuccess?
    ensures Spent(policy, Accrued(policy, stock, amount).0, amount) == (stock, SpendSuccess)
            <==> policy.minimum <= stock
  {
  }

  // ----- any sequence of movements -----

  datatype Movement = Accruing(amount: Energy) | Spending(amount: Energy)

  /** The stock afterwards, and whether the movement was carried out. */
  function Moved(policy: Policy, stock: Energy, m: Movement): (Energy, bool) {
    match m
    case Accruing(amount) => (Accrued(policy, stock, amount).0, Accrued(policy, stock, amount).1.AccrueSuccess?)
    case Spending(amount) => (Spent(policy, stock, amount).0, Spent(policy, stock, amount).1.SpendSuccess?)
  }

  function StockAfter(policy: Policy, stock: Energy, movements: seq<Movement>): Energy {
    if movements == [] then stock else
      var n := |movements| - 1;
      Moved(policy, StockAfter(policy, stock, movements[..n]), movements[n]).0
  }

  /** What the movement would add to the stock. */
  function Change(m: Movement): int { if m.Accruing? then m.amount else 0 - m.amount }

  /** Accruing must not lead above the maximum, nor spending below the minimum. */
  predicate Allowed(policy: Policy, stock: int, m: Movement) {
    if m.Accruing? then stock + m.amount <= policy.maximum else stock - m.amount >= policy.minimum
  }

  /** The sum of all changes that were allowed when their turn came. */
  function NetChange(policy: Policy, stock: Energy, movements: seq<Movement>): int {
    if movements == [] then 0 else
      var n := |movements| - 1;
      var before := NetChange(policy, stock, movements[..n]);
      before + if Allowed(policy, stock + before, movements[n]) then Change(movements[n]) else 0
  }

  /** Conservation: a stock is what it was plus the changes that were allowed, and the next movement is carried out
      exactly if it is allowed, and otherwise changes nothing; a stock within the policy stays within it. */
  lemma {:induction false} StockIsAccounted(
      policy: Policy, stock: Energy, movements: seq<Movement>, next: Movement)
    ensures var now := StockAfter(policy, stock, movements);
            && now == stock + NetChange(policy, stock, movements)
            && (Moved(policy, now, next).1 <==> Allowed(policy, now, next))
            && Moved(policy, now, next).0 == now + (if Allowed(policy, now, next) then Change(next) else 0)
            && (policy.minimum <= stock <= policy.maximum ==> policy.minimum <= now <= policy.maximum)
  {
    if movements != [] {
      var n := |movements| - 1;
      StockIsAccounted(policy, stock, movements[..n], movements[n]);
    }
  }

  class Inventory {
    const policy: Policy

    constructor (policy: Policy)
      ensures this.policy == policy
    {
      this.policy := policy;
    }

    method Accrue(stock: array<Energy>, i: nat, amount: Energy) returns (result: AccrueResult)
      requires i < stock.Length
      modifies stock
      ensures stock[..] == old(stock[..])[i := Accrued(policy, old(stock[i]), amount).0]
      ensures result == Accrued(policy, old(stock[i]), amount).1
    {
      if amount <= policy.maximum as int - stock[i] as int {
        stock[i] := stock[i] + amount;
        result := AccrueSuccess;
      } else {
        result := Oversupply;
      }
    }

    method Spend(stock: array<Energy>, i: nat, amount: Energy) returns (result: SpendResult)
      requires i < stock.Length
      modifies stock
      ensures stock[..] == old(stock[..])[i := Spent(policy, old(stock[i]), amount).0]
      ensures result == Spent(policy, old(stock[i]), amount).1
    {
      if amount <= stock[i] as int - policy.minimum as int {
        stock[i] := stock[i] - amount;
        result := SpendSuccess;
      } else {
        result := Understock;
      }
    }

    /** The amounts may be the stock itself. */
    method AccrueAll(stock: array<Energy>, amount: array<Energy>) returns (result: array<AccrueResult>)
      requires stock.Length == amount.Length
      modifies stock
      ensures fresh(result) && result.Length == stock.Length
      ensures forall i | 0 <= i < stock.Length ::
                (stock[i], result[i]) == Accrued(policy, old(stock[i]), old(amount[i]))
    {
      result := new AccrueResult[stock.Length](_ => Oversupply);
      for i := 0 to stock.Length
        invariant forall k | 0 <= k < i :: (stock[k], result[k]) == Accrued(policy, old(stock[k]), old(amount[k]))
        invariant forall k | i <= k < stock.Length :: stock[k] == old(stock[k]) && amount[k] == old(amount[k])
      {
        var r := Accrue(stock, i, amount[i]);
        result[i] := r;
      }
    }

    method SpendAll(stock: array<Energy>, amount: array<Energy>) returns (result: array<SpendResult>)
      requires stock.Length == amount.Length
      modifies stock
      ensures fresh(result) && result.Length == stock.Length
      ensures forall i | 0 <= i < stock.Length ::
                (stock[i], result[i]) == Spent(policy, old(stock[i]), old(amount[i]))
    {
      result := new SpendResult[stock.Length](_ => Understock);
      for i := 0 to stock.Length
        invariant forall k | 0 <= k < i :: (stock[k], result[k]) == Spent(policy, old(stock[k]), old(amount[k]))
        invariant forall k | i <= k < stock.Length :: stock[k] == old(stock[k]) && amount[k] == old(amount[k])
      {
        var r := Spend(stock, i, amount[i]);
        result[i] := r;
      }
    }
  }
}
