/** Loan applications from primary and joint accounts. Each handler has
    an as-written form, which stores the amount from the form unchecked,
    and the corrected form the rest of the model uses, which first
    refuses a non-positive amount. */
module Loans {
  import opened Tables
  import opened Ledger

  /** The account already has a pending loan of this type. */
  predicate HasPendingOfType(loans: seq<Loan>, account: AccountId, loanType: string) {
    exists k :: 0 <= k < |loans| && loans[k].account == account
      && loans[k].loanType == loanType && loans[k].status == Pending
  }

  /** The account has a loan of any type and status. */
  predicate HasAnyLoan(loans: seq<Loan>, account: AccountId) {
    exists k :: 0 <= k < |loans| && loans[k].account == account
  }

  /** The row a successful application inserts. */
  function NewLoan(account: AccountId, loanType: string, amount: int, now: Time): Loan {
    Loan(account, loanType, amount, Pending, now, None)
  }

  /** The applicant's age, by calendar year only. */
  function Age(birthYear: int, year: int): int {
    year - birthYear
  }

  // ---------------------------------------------------------------------
  // Primary accounts

  /** A primary loan application as the handler performs it: look up the
      applicant (a missing row is a server error), refuse a minor, refuse a
      second pending loan of the same type, then insert (the loan's
      reference to an account id with no row is refused, a server error). */
  function ApplyLoanAsWritten(s: State, user: UserId, account: AccountId, loanType: string,
                              amount: int, year: int, now: Time): (r: Result<State>)
    ensures user < |s.users| && Age(s.users[user].birthYear, year) < ADULT_AGE ==> r == Err(MinorApplicant)
    ensures (user < |s.users| && Age(s.users[user].birthYear, year) >= ADULT_AGE
             && HasPendingOfType(s.loans, account, loanType)) ==> r == Err(DuplicatePendingLoan)
    ensures r.Ok? <==>
      && user < |s.users| && Age(s.users[user].birthYear, year) >= ADULT_AGE
      && !HasPendingOfType(s.loans, account, loanType)
      && account < |s.accounts|
    ensures r.Ok? ==>
      && OnlyLoansChanged(s, r.value)
      && r.value.loans == s.loans + [NewLoan(account, loanType, amount, now)]
  {
    if user >= |s.users| then Err(ServerError)
    else if Age(s.users[user].birthYear, year) < ADULT_AGE then Err(MinorApplicant)
    else if HasPendingOfType(s.loans, account, loanType) then Err(DuplicatePendingLoan)
    else if account >= |s.accounts| then Err(ServerError)
    else Ok(s.(loans := s.loans + [NewLoan(account, loanType, amount, now)]))
  }

  /** The primary loan application with the amount checked first. */
  function ApplyLoan(s: State, user: UserId, account: AccountId, loanType: string,
                     amount: int, year: int, now: Time): (r: Result<State>)
    ensures amount <= 0 ==> r == Err(InvalidAmount)
    ensures amount > 0 ==> r == ApplyLoanAsWritten(s, user, account, loanType, amount, year, now)
    ensures r.Ok? ==> amount > 0 && LoansRefer(r.value.loans[|s.loans|..], |s.accounts|)
  {
    if amount <= 0 then Err(InvalidAmount)
    else ApplyLoanAsWritten(s, user, account, loanType, amount, year, now)
  }

  /** A decided loan (approved or rejected) does not block a new
      application of its type; only a pending one does. */
  lemma DecidedLoansDoNotBlock(s: State, user: UserId, account: AccountId, loanType: string,
                               amount: int, year: int, now: Time)
    requires user < |s.users| && Age(s.users[user].birthYear, year) >= ADULT_AGE
    requires account < |s.accounts| && amount > 0
    requires forall k :: 0 <= k < |s.loans| ==>
               (s.loans[k].account == account && s.loans[k].loanType == loanType ==> s.loans[k].status != Pending)
    ensures ApplyLoan(s, user, account, loanType, amount, year, now).Ok?
  {
  }

  /** A second application of the same type, while the first is pending,
      is refused. */
  lemma SecondPendingRefused(s: State, user: UserId, account: AccountId, loanType: string,
                             a1: int, a2: int, year: int, t1: Time, t2: Time)
    requires ApplyLoan(s, user, account, loanType, a1, year, t1).Ok? && a2 > 0
    ensures ApplyLoan(ApplyLoan(s, user, account, loanType, a1, year, t1).value, user, account, loanType, a2, year, t2)
      == Err(DuplicatePendingLoan)
  {
    var s1 := ApplyLoan(s, user, account, loanType, a1, year, t1).value;
    assert s1.loans[|s.loans|] == NewLoan(account, loanType, a1, t1);
  }

  lemma ApplyLoanPreservesValid(s: State, user: UserId, account: AccountId, loanType: string,
                                amount: int, year: int, now: Time)
    requires Valid(s) && ApplyLoan(s, user, account, loanType, amount, year, now).Ok?
    ensures Valid(ApplyLoan(s, user, account, loanType, amount, year, now).value)
  {
  }

  // ---------------------------------------------------------------------
  // Joint accounts

  /** A joint loan application as the handler performs it: any earlier
      loan of the account, whatever its status, is refused first; then any
      type but `Business`; then the row is inserted. */
  function ApplyJointLoanAsWritten(s: State, account: AccountId, loanType: string,
                                   amount: int, now: Time): (r: Result<State>)
    ensures HasAnyLoan(s.loans, account) ==> r == Err(LoanLimitExceeded)
    ensures !HasAnyLoan(s.loans, account) && loanType != JOINT_LOAN_TYPE ==> r == Err(InvalidLoanType)
    ensures r.Ok? <==> !HasAnyLoan(s.loans, account) && loanType == JOINT_LOAN_TYPE && account < |s.accounts|
    ensures r.Ok? ==>
      && OnlyLoansChanged(s, r.value)
      && r.value.loans == s.loans + [NewLoan(account, loanType, amount, now)]
  {
    if HasAnyLoan(s.loans, account) then Err(LoanLimitExceeded)
    else if loanType != JOINT_LOAN_TYPE then Err(InvalidLoanType)
    else if account >= |s.accounts| then Err(ServerError)
    else Ok(s.(loans := s.loans + [NewLoan(account, loanType, amount, now)]))
  }

  /** The joint loan application with the amount checked first. */
  function ApplyJointLoan(s: State, account: AccountId, loanType: string, amount: int, now: Time): (r: Result<State>)
    ensures amount <= 0 ==> r == Err(InvalidAmount)
    ensures amount > 0 ==> r == ApplyJointLoanAsWritten(s, account, loanType, amount, now)
    ensures r.Ok? ==> amount > 0 && LoansRefer(r.value.loans[|s.loans|..], |s.accounts|)
  {
    if amount <= 0 then Err(InvalidAmount)
    else ApplyJointLoanAsWritten(s, account, loanType, amount, now)
  }

  /** A joint account gets at most one loan ever: once it has applied,
      every later application fails on the limit, before the type is even
      looked at. */
  lemma JointLoanOnlyOnce(s: State, account: AccountId, a1: int, t1: Time,
                          loanType: string, a2: int, t2: Time)
    requires ApplyJointLoan(s, account, JOINT_LOAN_TYPE, a1, t1).Ok? && a2 > 0
    ensures ApplyJointLoan(ApplyJointLoan(s, account, JOINT_LOAN_TYPE, a1, t1).value, account, loanType, a2, t2)
      == Err(LoanLimitExceeded)
  {
    var s1 := ApplyJointLoan(s, account, JOINT_LOAN_TYPE, a1, t1).value;
    assert s1.loans[|s.loans|].account == account;
  }

  lemma ApplyJointLoanPreservesValid(s: State, account: AccountId, loanType: string, amount: int, now: Time)
    requires Valid(s) && ApplyJointLoan(s, account, loanType, amount, now).Ok?
    ensures Valid(ApplyJointLoan(s, account, loanType, amount, now).value)
  {
  }
}
