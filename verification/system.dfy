/** The whole application as a state machine: each request runs one
    handler as an atomic transition, and a failed request leaves the
    state as it was. */
module System {
  import opened Tables
  import opened Ledger
  import Money
  import Onboarding
  import JointAccounts
  import Loans
  import Admin

  /** One state-changing request, with the clock and the random draws it
      consumes. The caller identities are those the authentication layer
      has already established. */
  datatype Request =
    | DepositReq(account: AccountId, amount: Amount, now: Time)
    | WithdrawReq(account: AccountId, amount: Amount, now: Time)
    | TransferReq(from: AccountId, toNumber: int, amount: Amount, now: Time)
    | RegisterReq(email: Email, password: Hash, birthYear: int, phone1: string, phone2: string,
                  otpDraw: OtpDraw, now: Time)
    | VerifyReq(email: Email, code: int, now: Time, draws: seq<NumberDraw>)
    | CreateJointReq(creator: UserId, invitees: seq<Email>, draw: NumberDraw, jointPassword: Hash)
    | ApplyLoanReq(user: UserId, account: AccountId, loanType: string, loanAmount: int, year: int, now: Time)
    | ApplyJointLoanReq(account: AccountId, loanType: string, loanAmount: int, now: Time)
    | ApproveReq(loan: LoanId, now: Time)
    | RejectReq(loan: LoanId, now: Time)

  /** Dispatch a request to its handler. Loan applications go to the
      handlers that refuse a non-positive amount; the handlers as written
      do not, and with them the invariant below fails
      (`Admin.UncheckedLoanOverdraws`). */
  function Handle(s: State, req: Request): Result<State> {
    match req
    case DepositReq(a, amt, now) => Money.Deposit(s, a, amt, now)
    case WithdrawReq(a, amt, now) => Money.Withdraw(s, a, amt, now)
    case TransferReq(a, n, amt, now) => Money.Transfer(s, a, n, amt, now)
    case RegisterReq(e, p, y, p1, p2, d, now) => Onboarding.Register(s, e, p, y, p1, p2, d, now)
    case VerifyReq(e, c, now, ds) => Onboarding.VerifyOtp(s, e, c, now, ds)
    case CreateJointReq(u, es, d, p) => JointAccounts.CreateJoint(s, u, es, d, p)
    case ApplyLoanReq(u, a, ty, amt, y, now) => Loans.ApplyLoan(s, u, a, ty, amt, y, now)
    case ApplyJointLoanReq(a, ty, amt, now) => Loans.ApplyJointLoan(s, a, ty, amt, now)
    case ApproveReq(k, now) => Admin.Approve(s, k, now)
    case RejectReq(k, now) => Admin.Reject(s, k, now)
  }

  /** The state after one request: the new state, or the old one if the
      request failed and rolled back. */
  function Step(s: State, req: Request): (t: State)
    ensures s.log <= t.log && |t.log| <= |s.log| + 1
    ensures |s.users| <= |t.users| && |s.accounts| <= |t.accounts| && |s.loans| <= |t.loans|
  {
    match Handle(s, req)
    case Ok(t) => t
    case Err(_) => s
  }

  /** The state after a sequence of requests served one at a time. */
  function Run(s: State, reqs: seq<Request>): State
    decreases |reqs|
  {
    if |reqs| == 0 then s else Run(Step(s, reqs[0]), reqs[1..])
  }

  /** Serving two batches one after the other is serving their
      concatenation. */
  lemma {:induction false} RunConcat(s: State, a: seq<Request>, b: seq<Request>)
    ensures Run(s, a + b) == Run(Run(s, a), b)
    decreases |a|
  {
    if |a| > 0 {
      assert (a + b)[0] == a[0];
      assert (a + b)[1..] == a[1..] + b;
      RunConcat(Step(s, a[0]), a[1..], b);
    } else {
      assert a + b == b;
    }
  }

  /** A request that fails leaves no trace: the run goes on as if it had
      never been sent. */
  lemma RunSkipsFailed(s: State, req: Request, rest: seq<Request>)
    requires Handle(s, req).Err?
    ensures Run(s, [req] + rest) == Run(s, rest)
  {
    assert ([req] + rest)[1..] == rest;
  }

  // ---------------------------------------------------------------------
  // The invariant holds in every reachable state

  lemma StepPreservesValid(s: State, req: Request)
    requires Valid(s)
    ensures Valid(Step(s, req))
  {
    if Handle(s, req).Ok? {
      match req
      case DepositReq(a, amt, now) => Money.DepositPreservesValid(s, a, amt, now);
      case WithdrawReq(a, amt, now) => Money.WithdrawPreservesValid(s, a, amt, now);
      case TransferReq(a, n, amt, now) => Money.TransferPreservesValid(s, a, n, amt, now);
      case RegisterReq(e, p, y, p1, p2, d, now) => Onboarding.RegisterPreservesValid(s, e, p, y, p1, p2, d, now);
      case VerifyReq(e, c, now, ds) => Onboarding.VerifyPreservesValid(s, e, c, now, ds);
      case CreateJointReq(u, es, d, p) => JointAccounts.CreateJointPreservesValid(s, u, es, d, p);
      case ApplyLoanReq(u, a, ty, amt, y, now) => Loans.ApplyLoanPreservesValid(s, u, a, ty, amt, y, now);
      case ApplyJointLoanReq(a, ty, amt, now) => Loans.ApplyJointLoanPreservesValid(s, a, ty, amt, now);
      case ApproveReq(k, now) => Admin.ApprovePreservesValid(s, k, now);
      case RejectReq(k, now) => Admin.RejectPreservesValid(s, k, now);
    }
  }

  /** From the empty database, every sequence of requests leaves
      non-negative balances, distinct account numbers and emails, and at
      most one primary account per user. */
  lemma {:induction false} RunPreservesValid(s: State, reqs: seq<Request>)
    requires Valid(s)
    ensures Valid(Run(s, reqs))
    decreases |reqs|
  {
    if |reqs| > 0 {
      StepPreservesValid(s, reqs[0]);
      RunPreservesValid(Step(s, reqs[0]), reqs[1..]);
    }
  }

  lemma ReachableBalancesNonNegative(reqs: seq<Request>)
    ensures BalancesNonNegative(Run(Empty, reqs).accounts)
    ensures NumbersDistinct(Run(Empty, reqs).accounts)
  {
    EmptyValid();
    RunPreservesValid(Empty, reqs);
  }

  // ---------------------------------------------------------------------
  // The log only grows

  /** A request appends at most one record to the log and changes none. */
  lemma StepExtendsLog(s: State, req: Request)
    ensures s.log <= Step(s, req).log
    ensures |Step(s, req).log| <= |s.log| + 1
  {
  }

  lemma {:induction false} RunExtendsLog(s: State, reqs: seq<Request>)
    ensures s.log <= Run(s, reqs).log
    ensures |Run(s, reqs).log| <= |s.log| + |reqs|
    decreases |reqs|
  {
    if |reqs| > 0 {
      StepExtendsLog(s, reqs[0]);
      RunExtendsLog(Step(s, reqs[0]), reqs[1..]);
    }
  }

  // ---------------------------------------------------------------------
  // A loan is credited at most once

  /** Loans are never removed, and a decided loan never becomes pending
      again. */
  lemma StepKeepsDecided(s: State, req: Request, k: LoanId)
    requires k < |s.loans| && s.loans[k].status != Pending
    ensures k < |Step(s, req).loans| && Step(s, req).loans[k].status != Pending
  {
  }

  /** Whether this request is a successful approval of loan `k`. */
  predicate Credits(s: State, req: Request, k: LoanId) {
    req.ApproveReq? && req.loan == k && Handle(s, req).Ok?
  }

  /** How many requests of the run successfully approve loan `k`. */
  function CreditCount(s: State, reqs: seq<Request>, k: LoanId): nat
    decreases |reqs|
  {
    if |reqs| == 0 then 0
    else (if Credits(s, reqs[0], k) then 1 else 0) + CreditCount(Step(s, reqs[0]), reqs[1..], k)
  }

  lemma {:induction false} DecidedNeverCredited(s: State, reqs: seq<Request>, k: LoanId)
    requires k < |s.loans| && s.loans[k].status != Pending
    ensures CreditCount(s, reqs, k) == 0
    decreases |reqs|
  {
    if |reqs| > 0 {
      StepKeepsDecided(s, reqs[0], k);
      DecidedNeverCredited(Step(s, reqs[0]), reqs[1..], k);
    }
  }

  /** Over any sequence of requests, each loan's amount is paid out at
      most once, and not at all if it was already decided. */
  lemma {:induction false} LoanCreditedAtMostOnce(s: State, reqs: seq<Request>, k: LoanId)
    ensures CreditCount(s, reqs, k) <= 1
    ensures k < |s.loans| && s.loans[k].status != Pending ==> CreditCount(s, reqs, k) == 0
    decreases |reqs|
  {
    if k < |s.loans| && s.loans[k].status != Pending {
      DecidedNeverCredited(s, reqs, k);
    } else if |reqs| > 0 {
      var s1 := Step(s, reqs[0]);
      if Credits(s, reqs[0], k) {
        assert s1.loans[k].status == Approved;
        DecidedNeverCredited(s1, reqs[1..], k);
      } else {
        LoanCreditedAtMostOnce(s1, reqs[1..], k);
      }
    }
  }
}
