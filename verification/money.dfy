/** Deposits, withdrawals and transfers (the primary-account handlers;
    the joint-account handlers run the same statements). */
module Money {
  import opened Tables
  import opened Ledger

  /** Nothing but the account table and the log differs. */
  predicate OnlyMoneyMoved(s: State, t: State) {
    t.users == s.users && t.otps == s.otps && t.members == s.members && t.loans == s.loans
  }

  /** Handle a deposit: the amount is validated first, then the account is
      credited and one `DEPOSIT` record without a source is logged. For an
      id with no account row the update matches nothing and the log
      record's reference to the account is refused, a server error. */
  function Deposit(s: State, account: AccountId, amount: Amount, now: Time): (r: Result<State>)
    ensures !Positive(amount) ==> r == Err(InvalidAmount)
    ensures r.Ok? <==> Positive(amount) && account < |s.accounts|
    ensures r.Ok? ==>
      && OnlyMoneyMoved(s, r.value)
      && Adjusted(s.accounts, r.value.accounts, account, amount.value)
      && r.value.log == s.log + [TxRecord(None, Some(account), amount.value, DepositTx, now)]
  {
    if !Positive(amount) then Err(InvalidAmount)
    else if account >= |s.accounts| then Err(ServerError)
    else
      Ok(s.(accounts := Credit(s.accounts, account, amount.value),
            log := s.log + [TxRecord(None, Some(account), amount.value, DepositTx, now)]))
  }

  /** Handle a withdrawal: validate the amount, read the balance (a missing
      row is a server error), refuse an overdraft, otherwise debit the
      account and log one `WITHDRAWAL` record without a destination. */
  function Withdraw(s: State, account: AccountId, amount: Amount, now: Time): (r: Result<State>)
    ensures !Positive(amount) ==> r == Err(InvalidAmount)
    ensures Positive(amount) && account < |s.accounts| && s.accounts[account].balance < amount.value
      ==> r == Err(InsufficientFunds)
    ensures r.Ok? <==> Positive(amount) && account < |s.accounts| && s.accounts[account].balance >= amount.value
    ensures r.Ok? ==>
      && OnlyMoneyMoved(s, r.value)
      && Adjusted(s.accounts, r.value.accounts, account, -amount.value)
      && r.value.accounts[account].balance >= 0
      && r.value.log == s.log + [TxRecord(Some(account), None, amount.value, WithdrawalTx, now)]
  {
    if !Positive(amount) then Err(InvalidAmount)
    else if account >= |s.accounts| then Err(ServerError)
    else if s.accounts[account].balance < amount.value then Err(InsufficientFunds)
    else
      Ok(s.(accounts := Credit(s.accounts, account, -amount.value),
            log := s.log + [TxRecord(Some(account), None, amount.value, WithdrawalTx, now)]))
  }

  /** Handle a transfer to an account given by its public number. The
      checks run in the source's order: amount, sender row, sender funds,
      recipient lookup, and only then whether the recipient is the sender. */
  function Transfer(s: State, from: AccountId, toNumber: int, amount: Amount, now: Time): (r: Result<State>)
    ensures !Positive(amount) ==> r == Err(InvalidAmount)
    ensures Positive(amount) && from < |s.accounts| && s.accounts[from].balance < amount.value
      ==> r == Err(InsufficientFunds)
    ensures (Positive(amount) && from < |s.accounts| && s.accounts[from].balance >= amount.value
             && FindAccount(s.accounts, toNumber).None?) ==> r == Err(RecipientNotFound)
    ensures (Positive(amount) && from < |s.accounts| && s.accounts[from].balance >= amount.value
             && FindAccount(s.accounts, toNumber) == Some(from)) ==> r == Err(SameAccount)
    ensures r.Ok? <==>
      && Positive(amount) && from < |s.accounts| && s.accounts[from].balance >= amount.value
      && FindAccount(s.accounts, toNumber).Some? && FindAccount(s.accounts, toNumber).value != from
    ensures r.Ok? ==>
      && Positive(amount) && from < |s.accounts|
      && FindAccount(s.accounts, toNumber).Some?
      && var to := FindAccount(s.accounts, toNumber).value;
      && to != from
      && OnlyMoneyMoved(s, r.value)
      && |r.value.accounts| == |s.accounts|
      && r.value.accounts[from] == s.accounts[from].(balance := s.accounts[from].balance - amount.value)
      && r.value.accounts[from].balance >= 0
      && r.value.accounts[to] == s.accounts[to].(balance := s.accounts[to].balance + amount.value)
      && (forall i :: 0 <= i < |s.accounts| && i != from && i != to ==> r.value.accounts[i] == s.accounts[i])
      && TotalBalance(r.value.accounts) == TotalBalance(s.accounts)
      && r.value.log == s.log + [TxRecord(Some(from), Some(to), amount.value, TransferTx, now)]
  {
    if !Positive(amount) then Err(InvalidAmount)
    else if from >= |s.accounts| then Err(ServerError)
    else if s.accounts[from].balance < amount.value then Err(InsufficientFunds)
    else match FindAccount(s.accounts, toNumber)
      case None => Err(RecipientNotFound)
      case Some(to) =>
        if from == to then Err(SameAccount)
        else
          var debited := Credit(s.accounts, from, -amount.value);
          var credited := Credit(debited, to, amount.value);
          AdjustedTotal(s.accounts, debited, from, -amount.value);
          AdjustedTotal(debited, credited, to, amount.value);
          Ok(s.(accounts := credited,
                log := s.log + [TxRecord(Some(from), Some(to), amount.value, TransferTx, now)]))
  }

  // ---------------------------------------------------------------------
  // Properties relating several calls

  /** A deposit raises the bank's total holdings by exactly its amount. */
  lemma DepositRaisesTotal(s: State, account: AccountId, amount: Amount, now: Time)
    requires Deposit(s, account, amount, now).Ok?
    ensures TotalBalance(Deposit(s, account, amount, now).value.accounts) == TotalBalance(s.accounts) + amount.value
  {
    var t := Deposit(s, account, amount, now).value;
    AdjustedTotal(s.accounts, t.accounts, account, amount.value);
  }

  /** A withdrawal lowers the bank's total holdings by exactly its amount. */
  lemma WithdrawLowersTotal(s: State, account: AccountId, amount: Amount, now: Time)
    requires Withdraw(s, account, amount, now).Ok?
    ensures TotalBalance(Withdraw(s, account, amount, now).value.accounts) == TotalBalance(s.accounts) - amount.value
  {
    var t := Withdraw(s, account, amount, now).value;
    AdjustedTotal(s.accounts, t.accounts, account, -amount.value);
  }

  /** Depositing what was just withdrawn restores every balance; the log
      keeps both records. */
  lemma DepositUndoesWithdraw(s: State, account: AccountId, amount: Amount, t1: Time, t2: Time)
    requires Withdraw(s, account, amount, t1).Ok?
    ensures Deposit(Withdraw(s, account, amount, t1).value, account, amount, t2).Ok?
    ensures Deposit(Withdraw(s, account, amount, t1).value, account, amount, t2).value.accounts == s.accounts
    ensures |Deposit(Withdraw(s, account, amount, t1).value, account, amount, t2).value.log| == |s.log| + 2
  {
    var s1 := Withdraw(s, account, amount, t1).value;
    var s2 := Deposit(s1, account, amount, t2).value;
    assert s2.accounts == s.accounts;
  }

  /** Any withdrawal that is accepted leaves every balance non-negative,
      so a run of withdrawals can never take more than the account held. */
  lemma WithdrawKeepsBalancesNonNegative(s: State, account: AccountId, amount: Amount, now: Time)
    requires BalancesNonNegative(s.accounts)
    requires Withdraw(s, account, amount, now).Ok?
    ensures BalancesNonNegative(Withdraw(s, account, amount, now).value.accounts)
  {
  }

  /** Transferring to one's own account number never succeeds: it fails on
      funds if they are short, and otherwise on the same-account check,
      after the recipient lookup. No record is logged either way. */
  lemma SelfTransferFails(s: State, from: AccountId, amount: Amount, now: Time)
    requires NumbersDistinct(s.accounts) && from < |s.accounts| && Positive(amount)
    ensures var r := Transfer(s, from, s.accounts[from].number, amount, now);
      r == (if s.accounts[from].balance < amount.value then Err(InsufficientFunds) else Err(SameAccount))
  {
    FindAccountUnique(s.accounts, from);
  }

  /** Sending the same amount back by the sender's number restores every
      balance. */
  lemma TransferBackRestores(s: State, from: AccountId, toNumber: int, amount: Amount, t1: Time, t2: Time)
    requires NumbersDistinct(s.accounts) && BalancesNonNegative(s.accounts)
    requires Transfer(s, from, toNumber, amount, t1).Ok?
    ensures var s1 := Transfer(s, from, toNumber, amount, t1).value;
      var to := FindAccount(s.accounts, toNumber).value;
      && Transfer(s1, to, s.accounts[from].number, amount, t2).Ok?
      && Transfer(s1, to, s.accounts[from].number, amount, t2).value.accounts == s.accounts
  {
    var s1 := Transfer(s, from, toNumber, amount, t1).value;
    var to := FindAccount(s.accounts, toNumber).value;
    assert NumbersDistinct(s1.accounts) by {
      forall i | 0 <= i < |s1.accounts| ensures s1.accounts[i].number == s.accounts[i].number {}
    }
    FindAccountUnique(s1.accounts, from);
    var s2 := Transfer(s1, to, s.accounts[from].number, amount, t2).value;
    assert s2.accounts == s.accounts;
  }

  // ---------------------------------------------------------------------
  // The state invariant

  lemma MoneyMovePreservesValid(s: State, t: State, rec: TxRecord)
    requires Valid(s) && OnlyMoneyMoved(s, t)
    requires |t.accounts| == |s.accounts| && BalancesNonNegative(t.accounts)
    requires forall i :: 0 <= i < |s.accounts| ==>
      t.accounts[i].number == s.accounts[i].number && t.accounts[i].kind == s.accounts[i].kind
    requires t.log == s.log + [rec]
    requires rec.amount > 0 && Refers(rec.from, |s.accounts|) && Refers(rec.to, |s.accounts|)
    ensures Valid(t)
  {
    assert forall i :: 0 <= i < |s.accounts| ==> IsPrimary(t.accounts, i) == IsPrimary(s.accounts, i);
  }

  lemma DepositPreservesValid(s: State, account: AccountId, amount: Amount, now: Time)
    requires Valid(s) && Deposit(s, account, amount, now).Ok?
    ensures Valid(Deposit(s, account, amount, now).value)
  {
    var t := Deposit(s, account, amount, now).value;
    MoneyMovePreservesValid(s, t, t.log[|s.log|]);
  }

  lemma WithdrawPreservesValid(s: State, account: AccountId, amount: Amount, now: Time)
    requires Valid(s) && Withdraw(s, account, amount, now).Ok?
    ensures Valid(Withdraw(s, account, amount, now).value)
  {
    var t := Withdraw(s, account, amount, now).value;
    MoneyMovePreservesValid(s, t, t.log[|s.log|]);
  }

  lemma TransferPreservesValid(s: State, from: AccountId, toNumber: int, amount: Amount, now: Time)
    requires Valid(s) && Transfer(s, from, toNumber, amount, now).Ok?
    ensures Valid(Transfer(s, from, toNumber, amount, now).value)
  {
    var t := Transfer(s, from, toNumber, amount, now).value;
    MoneyMovePreservesValid(s, t, t.log[|s.log|]);
  }
}
