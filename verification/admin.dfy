/** The administrator's loan decisions and dashboard statistics. */
module Admin {
  import opened Tables
  import opened Ledger
  import Loans

  /** Approve a loan: only a pending loan is touched; it becomes
      `APPROVED` with a decision time, its amount is credited to its
      account and one `LOAN` record without a source is logged, all in one
      transaction. The notification afterwards cannot undo the commit. */
  function Approve(s: State, loan: LoanId, now: Time): (r: Result<State>)
    ensures loan >= |s.loans| || s.loans[loan].status != Pending ==> r == Err(LoanNotPending)
    ensures r.Ok? <==> loan < |s.loans| && s.loans[loan].status == Pending && s.loans[loan].account < |s.accounts|
    ensures r.Ok? ==>
      && var l := s.loans[loan];
      && |r.value.loans| == |s.loans|
      && r.value.loans[loan] == l.(status := Approved, decidedAt := Some(now))
      && (forall k :: 0 <= k < |s.loans| && k != loan ==> r.value.loans[k] == s.loans[k])
      && Adjusted(s.accounts, r.value.accounts, l.account, l.amount)
      && r.value.log == s.log + [TxRecord(None, Some(l.account), l.amount, LoanTx, now)]
      && r.value.users == s.users && r.value.otps == s.otps && r.value.members == s.members
  {
    if loan >= |s.loans| || s.loans[loan].status != Pending then Err(LoanNotPending)
    else
      var l := s.loans[loan];
      if l.account >= |s.accounts| then Err(ServerError)
      else
        Ok(s.(loans := s.loans[loan := l.(status := Approved, decidedAt := Some(now))],
              accounts := Credit(s.accounts, l.account, l.amount),
              log := s.log + [TxRecord(None, Some(l.account), l.amount, LoanTx, now)]))
  }

  /** Reject a loan. The update has no status filter, so a loan in any
      status, an approved one included, becomes `REJECTED`; balances and
      the log are untouched. An unknown id updates nothing and the lookup
      that follows fails. */
  function Reject(s: State, loan: LoanId, now: Time): (r: Result<State>)
    ensures r.Ok? <==> loan < |s.loans|
    ensures r.Err? ==> r.error == LoanNotFound
    ensures r.Ok? ==>
      && OnlyLoansChanged(s, r.value)
      && |r.value.loans| == |s.loans|
      && r.value.loans[loan] == s.loans[loan].(status := Rejected, decidedAt := Some(now))
      && (forall k :: 0 <= k < |s.loans| && k != loan ==> r.value.loans[k] == s.loans[k])
  {
    if loan >= |s.loans| then Err(LoanNotFound)
    else Ok(s.(loans := s.loans[loan := s.loans[loan].(status := Rejected, decidedAt := Some(now))]))
  }

  // ---------------------------------------------------------------------
  // Decisions over several calls

  /** Approving the same loan twice credits it once: the second call
      finds it no longer pending. */
  lemma ApproveTwiceCreditsOnce(s: State, loan: LoanId, t1: Time, t2: Time)
    requires Approve(s, loan, t1).Ok?
    ensures Approve(Approve(s, loan, t1).value, loan, t2) == Err(LoanNotPending)
    ensures TotalBalance(Approve(s, loan, t1).value.accounts) == TotalBalance(s.accounts) + s.loans[loan].amount
  {
    var s1 := Approve(s, loan, t1).value;
    AdjustedTotal(s.accounts, s1.accounts, s.loans[loan].account, s.loans[loan].amount);
  }

  /** Rejecting after approving is accepted: the loan ends `REJECTED`
      while the credit and its `LOAN` record stay. */
  lemma RejectAfterApproveKeepsCredit(s: State, loan: LoanId, t1: Time, t2: Time)
    requires Approve(s, loan, t1).Ok?
    ensures var s1 := Approve(s, loan, t1).value;
      && Reject(s1, loan, t2).Ok?
      && Reject(s1, loan, t2).value.loans[loan].status == Rejected
      && Reject(s1, loan, t2).value.accounts == s1.accounts
      && Reject(s1, loan, t2).value.log == s.log + [TxRecord(None, Some(s.loans[loan].account), s.loans[loan].amount, LoanTx, t1)]
  {
  }

  /** A pending loan blocks a new application of its type on its account;
      once it is approved, the same application goes through. */
  lemma ApprovalUnblocksApplication(s: State, loan: LoanId, user: UserId, amount: int, year: int, t1: Time, t2: Time)
    requires Approve(s, loan, t1).Ok?
    requires user < |s.users| && Loans.Age(s.users[user].birthYear, year) >= ADULT_AGE && amount > 0
    requires forall k :: 0 <= k < |s.loans| && k != loan ==>
               (s.loans[k].account == s.loans[loan].account && s.loans[k].loanType == s.loans[loan].loanType
                ==> s.loans[k].status != Pending)
    ensures Loans.ApplyLoan(s, user, s.loans[loan].account, s.loans[loan].loanType, amount, year, t2)
      == Err(DuplicatePendingLoan)
    ensures Loans.ApplyLoan(Approve(s, loan, t1).value, user, s.loans[loan].account, s.loans[loan].loanType, amount, year, t2).Ok?
  {
  }

  lemma ApprovePreservesValid(s: State, loan: LoanId, now: Time)
    requires Valid(s) && Approve(s, loan, now).Ok?
    ensures Valid(Approve(s, loan, now).value)
  {
    var t := Approve(s, loan, now).value;
    assert forall i :: 0 <= i < |s.accounts| ==> IsPrimary(t.accounts, i) == IsPrimary(s.accounts, i);
    assert s.loans[loan].amount > 0;
  }

  lemma RejectPreservesValid(s: State, loan: LoanId, now: Time)
    requires Valid(s) && Reject(s, loan, now).Ok?
    ensures Valid(Reject(s, loan, now).value)
  {
  }

  // ---------------------------------------------------------------------
  // Dashboard statistics

  datatype Stats = Stats(totalUsers: nat, totalAccounts: nat, totalAssets: Option<int>, pendingLoans: nat)

  /** The statistics query. SQL's `SUM` over no rows is NULL, so the total
      of an empty account table is absent rather than zero. */
  function Dashboard(s: State): (r: Stats)
    ensures r.totalUsers == |s.users| && r.totalAccounts == |s.accounts|
    ensures r.totalAssets.None? <==> |s.accounts| == 0
    ensures r.totalAssets.Some? ==> r.totalAssets.value == TotalBalance(s.accounts)
    ensures BalancesNonNegative(s.accounts) && r.totalAssets.Some? ==> r.totalAssets.value >= 0
    ensures r.pendingLoans == |PendingIds(s.loans)|
  {
    TotalBalanceNonNegative(s.accounts);
    CountPendingIsCard(s.loans);
    Stats(|s.users|, |s.accounts|,
          if |s.accounts| == 0 then None else Some(TotalBalance(s.accounts)),
          CountPending(s.loans))
  }

  /** An application adds one pending loan to the dashboard. */
  lemma ApplyAddsPending(s: State, user: UserId, account: AccountId, loanType: string,
                         amount: int, year: int, now: Time)
    requires Loans.ApplyLoan(s, user, account, loanType, amount, year, now).Ok?
    ensures Dashboard(Loans.ApplyLoan(s, user, account, loanType, amount, year, now).value).pendingLoans
      == Dashboard(s).pendingLoans + 1
  {
    CountPendingAppend(s.loans, Loans.NewLoan(account, loanType, amount, now));
    CountPendingIsCard(s.loans);
    CountPendingIsCard(Loans.ApplyLoan(s, user, account, loanType, amount, year, now).value.loans);
  }

  /** An approval takes one loan off the pending count and adds its amount
      to the total assets. */
  lemma ApproveMovesDashboard(s: State, loan: LoanId, now: Time)
    requires Approve(s, loan, now).Ok?
    ensures var d := Dashboard(s);
      var d1 := Dashboard(Approve(s, loan, now).value);
      && d1.pendingLoans == d.pendingLoans - 1
      && d1.totalAssets == Some(d.totalAssets.value + s.loans[loan].amount)
  {
    var t := Approve(s, loan, now).value;
    CountPendingUpdate(s.loans, loan, t.loans[loan]);
    assert t.loans == s.loans[loan := t.loans[loan]];
    CountPendingIsCard(s.loans);
    CountPendingIsCard(t.loans);
    AdjustedTotal(s.accounts, t.accounts, s.loans[loan].account, s.loans[loan].amount);
  }

  /** A rejection lowers the pending count only when the loan was pending,
      and never moves the total assets. */
  lemma RejectMovesDashboard(s: State, loan: LoanId, now: Time)
    requires Reject(s, loan, now).Ok?
    ensures var d := Dashboard(s);
      var d1 := Dashboard(Reject(s, loan, now).value);
      && d1.pendingLoans == d.pendingLoans - (if s.loans[loan].status == Pending then 1 else 0)
      && d1.totalAssets == d.totalAssets
  {
    var t := Reject(s, loan, now).value;
    CountPendingUpdate(s.loans, loan, t.loans[loan]);
    assert t.loans == s.loans[loan := t.loans[loan]];
    CountPendingIsCard(s.loans);
    CountPendingIsCard(t.loans);
  }

  // ---------------------------------------------------------------------
  // The unchecked loan amount

  /** One verified user with an empty primary account. */
  const Sample: State := State(
    [User("owner@example.com", "hash", 1990, ["5550100"], true, false)],
    {},
    [Account(NUMBER_BASE, Primary, 0, None)],
    {Member(0, 0)},
    [],
    [])

  /** As written, a primary application for a negative amount is stored,
      and approving it drives the account's balance below zero. */
  lemma UncheckedLoanOverdraws()
    ensures Valid(Sample)
    ensures Loans.ApplyLoanAsWritten(Sample, 0, 0, "Home", -500, 2025, 0).Ok?
    ensures var s1 := Loans.ApplyLoanAsWritten(Sample, 0, 0, "Home", -500, 2025, 0).value;
      && Approve(s1, 0, 1).Ok?
      && Approve(s1, 0, 1).value.accounts[0].balance == -500
      && !Valid(Approve(s1, 0, 1).value)
  {
    var s1 := Loans.ApplyLoanAsWritten(Sample, 0, 0, "Home", -500, 2025, 0).value;
    assert !Loans.HasPendingOfType(Sample.loans, 0, "Home");
    var s2 := Approve(s1, 0, 1).value;
    assert !BalancesNonNegative(s2.accounts);
  }

  /** One joint account with no loan yet. */
  const JointSample: State := State(
    [User("a@example.com", "h1", 1980, ["5550101"], true, false),
     User("b@example.com", "h2", 1985, ["5550102"], true, false)],
    {},
    [Account(NUMBER_BASE, Joint, 0, Some("shared"))],
    {Member(0, 0), Member(0, 1)},
    [],
    [])

  /** As written, a joint application for a negative business loan is
      stored, and approving it overdraws the joint account. */
  lemma UncheckedJointLoanOverdraws()
    ensures Valid(JointSample)
    ensures Loans.ApplyJointLoanAsWritten(JointSample, 0, JOINT_LOAN_TYPE, -700, 0).Ok?
    ensures var s1 := Loans.ApplyJointLoanAsWritten(JointSample, 0, JOINT_LOAN_TYPE, -700, 0).value;
      && Approve(s1, 0, 1).Ok?
      && Approve(s1, 0, 1).value.accounts[0].balance == -700
      && !Valid(Approve(s1, 0, 1).value)
  {
    var s1 := Loans.ApplyJointLoanAsWritten(JointSample, 0, JOINT_LOAN_TYPE, -700, 0).value;
    assert !Loans.HasAnyLoan(JointSample.loans, 0);
    var s2 := Approve(s1, 0, 1).value;
    assert !BalancesNonNegative(s2.accounts);
  }

  /** With the amount checked, an application followed by its approval
      keeps every balance non-negative. */
  lemma CheckedLoanKeepsBalances(s: State, user: UserId, account: AccountId, loanType: string,
                                 amount: int, year: int, t1: Time, t2: Time)
    requires Valid(s) && Loans.ApplyLoan(s, user, account, loanType, amount, year, t1).Ok?
    ensures var s1 := Loans.ApplyLoan(s, user, account, loanType, amount, year, t1).value;
      Approve(s1, |s.loans|, t2).Ok? && BalancesNonNegative(Approve(s1, |s.loans|, t2).value.accounts)
  {
    var s1 := Loans.ApplyLoan(s, user, account, loanType, amount, year, t1).value;
    Loans.ApplyLoanPreservesValid(s, user, account, loanType, amount, year, t1);
    ApprovePreservesValid(s1, |s.loans|, t2);
  }

  /** The same for the joint application. */
  lemma CheckedJointLoanKeepsBalances(s: State, account: AccountId, loanType: string, amount: int, t1: Time, t2: Time)
    requires Valid(s) && Loans.ApplyJointLoan(s, account, loanType, amount, t1).Ok?
    ensures var s1 := Loans.ApplyJointLoan(s, account, loanType, amount, t1).value;
      Approve(s1, |s.loans|, t2).Ok? && BalancesNonNegative(Approve(s1, |s.loans|, t2).value.accounts)
  {
    var s1 := Loans.ApplyJointLoan(s, account, loanType, amount, t1).value;
    Loans.ApplyJointLoanPreservesValid(s, account, loanType, amount, t1);
    ApprovePreservesValid(s1, |s.loans|, t2);
  }
}
