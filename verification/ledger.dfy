/** The bank's database, as one immutable value.

    Rows that the application never deletes (users, accounts, loans, the
    transaction log) are sequences whose index is the row's
    auto-increment id; the OTP table and the account-membership join table
    are sets. Every request handler runs as one transition over this
    value. */
module Ledger {
  import opened Tables

  type Email = string
  type Hash = string
  type Password = string
  type UserId = nat
  type AccountId = nat
  type LoanId = nat

  /** Milliseconds since the epoch, as `Date.now()` gives it. */
  type Time = int

  /** A money amount in cents after `parseFloat`; `None` is NaN. */
  type Amount = Option<int>

  /** `Math.random()` scaled for an OTP: `Math.floor(random * 900000)`. */
  type OtpDraw = d: int | 0 <= d < 900000

  /** `Math.random()` scaled for an account number: `Math.floor(random * 9000000000)`. */
  type NumberDraw = d: int | 0 <= d < 9000000000

  const OTP_BASE: int := 100000
  const OTP_MAX: int := 999999
  /** Five minutes in milliseconds. */
  const OTP_TTL: int := 5 * 60 * 1000
  const NUMBER_BASE: int := 1000000000
  const NUMBER_MAX: int := 9999999999
  const ADULT_AGE: int := 18
  const JOINT_LOAN_TYPE: string := "Business"

  datatype Error =
    | InvalidAmount
    | InsufficientFunds
    | RecipientNotFound
    | SameAccount
    | EmailTaken
    | UserNotFound
    | InvalidOtp
    | StillRetrying
    | NotVerified
    | InvalidCredentials
    | NoInvitees
    | UnknownMember
    | MinorApplicant
    | DuplicatePendingLoan
    | LoanLimitExceeded
    | InvalidLoanType
    | LoanNotPending
    | LoanNotFound
    | ServerError

  /** The outcome of one request. A failed request rolls back, so an error
      carries no state: the caller keeps the state it had. */
  datatype Result<T> = Ok(value: T) | Err(error: Error)

  datatype User = User(
    email: Email,
    password: Hash,
    birthYear: int,
    phones: seq<string>,
    verified: bool,
    admin: bool)

  datatype Otp = Otp(user: UserId, code: int, expiresAt: Time)

  datatype AccountKind = Primary | Joint

  datatype Account = Account(
    number: int,
    kind: AccountKind,
    balance: int,
    password: Option<Hash>)

  /** A row of the membership table linking a user to an account. */
  datatype Member = Member(account: AccountId, user: UserId)

  datatype TxKind = DepositTx | WithdrawalTx | TransferTx | LoanTx

  datatype TxRecord = TxRecord(
    from: Option<AccountId>,
    to: Option<AccountId>,
    amount: int,
    kind: TxKind,
    at: Time)

  datatype LoanStatus = Pending | Approved | Rejected

  datatype Loan = Loan(
    account: AccountId,
    loanType: string,
    amount: int,
    status: LoanStatus,
    requestedAt: Time,
    decidedAt: Option<Time>)

  datatype State = State(
    users: seq<User>,
    otps: set<Otp>,
    accounts: seq<Account>,
    members: set<Member>,
    log: seq<TxRecord>,
    loans: seq<Loan>)

  const Empty: State := State([], {}, [], {}, [], [])

  /** Nothing but the loan table differs. */
  predicate OnlyLoansChanged(s: State, t: State) {
    t.users == s.users && t.otps == s.otps && t.accounts == s.accounts
    && t.members == s.members && t.log == s.log
  }

  predicate Positive(amount: Amount) {
    amount.Some? && amount.value > 0
  }

  // ---------------------------------------------------------------------
  // Lookups

  /** The first user row, in insertion order, registered under `email`. */
  function FindUser(users: seq<User>, email: Email): (r: Option<UserId>)
    ensures r.Some? ==> r.value < |users| && users[r.value].email == email
    ensures r.None? <==> forall i :: 0 <= i < |users| ==> users[i].email != email
  {
    FindFirst(users, (u: User) => u.email == email)
  }

  /** The first account row, in insertion order, holding `number`. */
  function FindAccount(accounts: seq<Account>, number: int): (r: Option<AccountId>)
    ensures r.Some? ==> r.value < |accounts| && accounts[r.value].number == number
    ensures r.None? <==> forall i :: 0 <= i < |accounts| ==> accounts[i].number != number
  {
    FindFirst(accounts, (a: Account) => a.number == number)
  }

  /** The account numbers in use. */
  function Numbers(accounts: seq<Account>): set<int> {
    set i | 0 <= i < |accounts| :: accounts[i].number
  }

  lemma NumbersMember(accounts: seq<Account>, n: int)
    ensures n in Numbers(accounts) <==> FindAccount(accounts, n).Some?
  {
    if n in Numbers(accounts) {
      var i :| 0 <= i < |accounts| && accounts[i].number == n;
    }
  }

  /** The sum of all balances, which the dashboard's sum query returns
      for a non-empty account table. */
  function TotalBalance(accounts: seq<Account>): int {
    if |accounts| == 0 then 0 else accounts[0].balance + TotalBalance(accounts[1..])
  }

  /** The number of loans whose status is pending, counted row by row as
      the dashboard's count query does. */
  function CountPending(loans: seq<Loan>): nat {
    if |loans| == 0 then 0
    else CountPending(loans[..|loans| - 1]) + (if loans[|loans| - 1].status == Pending then 1 else 0)
  }

  /** The ids of the pending loans. */
  function PendingIds(loans: seq<Loan>): set<LoanId> {
    set k | 0 <= k < |loans| && loans[k].status == Pending
  }

  /** Counting row by row gives the number of pending loans. */
  lemma {:induction false} CountPendingIsCard(loans: seq<Loan>)
    ensures CountPending(loans) == |PendingIds(loans)|
    decreases |loans|
  {
    if |loans| > 0 {
      var n := |loans| - 1;
      var prefix := loans[..n];
      CountPendingIsCard(prefix);
      if loans[n].status == Pending {
        assert PendingIds(loans) == PendingIds(prefix) + {n};
      } else {
        assert PendingIds(loans) == PendingIds(prefix);
      }
    }
  }

  // ---------------------------------------------------------------------
  // Balance updates

  /** `after` is `before` with `delta` added to the balance of account `id`
      and nothing else changed. */
  predicate Adjusted(before: seq<Account>, after: seq<Account>, id: AccountId, delta: int) {
    && |after| == |before|
    && id < |before|
    && after[id] == before[id].(balance := before[id].balance + delta)
    && forall i :: 0 <= i < |before| && i != id ==> after[i] == before[i]
  }

  /** Add `delta` to the balance of one account row in place. */
  function Credit(accounts: seq<Account>, id: AccountId, delta: int): (r: seq<Account>)
    requires id < |accounts|
    ensures Adjusted(accounts, r, id, delta)
  {
    accounts[id := accounts[id].(balance := accounts[id].balance + delta)]
  }

  lemma {:induction false} AdjustedTotal(before: seq<Account>, after: seq<Account>, id: AccountId, delta: int)
    requires Adjusted(before, after, id, delta)
    ensures TotalBalance(after) == TotalBalance(before) + delta
    decreases |before|
  {
    if id == 0 {
      assert after[1..] == before[1..];
    } else {
      assert after[0] == before[0];
      assert Adjusted(before[1..], after[1..], id - 1, delta);
      AdjustedTotal(before[1..], after[1..], id - 1, delta);
    }
  }

  lemma {:induction false} TotalBalanceNonNegative(accounts: seq<Account>)
    ensures BalancesNonNegative(accounts) ==> TotalBalance(accounts) >= 0
    decreases |accounts|
  {
    if |accounts| > 0 && BalancesNonNegative(accounts) {
      assert BalancesNonNegative(accounts[1..]) by {
        forall i | 0 <= i < |accounts[1..]| ensures accounts[1..][i].balance >= 0 {
          assert accounts[1..][i] == accounts[i + 1];
        }
      }
      TotalBalanceNonNegative(accounts[1..]);
    }
  }

  lemma {:induction false} TotalBalanceAppend(accounts: seq<Account>, a: Account)
    ensures TotalBalance(accounts + [a]) == TotalBalance(accounts) + a.balance
    decreases |accounts|
  {
    if |accounts| > 0 {
      assert (accounts + [a])[1..] == accounts[1..] + [a];
      TotalBalanceAppend(accounts[1..], a);
    } else {
      assert (accounts + [a])[1..] == [];
    }
  }

  lemma CountPendingAppend(loans: seq<Loan>, l: Loan)
    ensures CountPending(loans + [l]) == CountPending(loans) + (if l.status == Pending then 1 else 0)
  {
    assert (loans + [l])[..|loans|] == loans;
  }

  lemma {:induction false} CountPendingUpdate(loans: seq<Loan>, k: LoanId, l: Loan)
    requires k < |loans|
    ensures CountPending(loans[k := l]) ==
      CountPending(loans) - (if loans[k].status == Pending then 1 else 0) + (if l.status == Pending then 1 else 0)
    decreases |loans|
  {
    var n := |loans| - 1;
    if k == n {
      assert loans[k := l][..n] == loans[..n];
    } else {
      assert loans[k := l][..n] == loans[..n][k := l];
      CountPendingUpdate(loans[..n], k, l);
    }
  }

  // ---------------------------------------------------------------------
  // The state invariant

  predicate BalancesNonNegative(accounts: seq<Account>) {
    forall i :: 0 <= i < |accounts| ==> accounts[i].balance >= 0
  }

  predicate NumbersDistinct(accounts: seq<Account>) {
    forall i, j :: 0 <= i < j < |accounts| ==> accounts[i].number != accounts[j].number
  }

  predicate EmailsDistinct(users: seq<User>) {
    forall i, j :: 0 <= i < j < |users| ==> users[i].email != users[j].email
  }

  predicate MembersRefer(members: set<Member>, nUsers: nat, nAccounts: nat) {
    forall m :: m in members ==> m.user < nUsers && m.account < nAccounts
  }

  predicate LoansRefer(loans: seq<Loan>, nAccounts: nat) {
    forall k :: 0 <= k < |loans| ==> loans[k].account < nAccounts && loans[k].amount > 0
  }

  predicate Refers(end: Option<AccountId>, nAccounts: nat) {
    end.None? || end.value < nAccounts
  }

  predicate LogRefers(log: seq<TxRecord>, nAccounts: nat) {
    forall t :: 0 <= t < |log| ==>
      log[t].amount > 0 && Refers(log[t].from, nAccounts) && Refers(log[t].to, nAccounts)
  }

  /** Only users still awaiting verification hold OTPs. */
  predicate OtpsUnverified(otps: set<Otp>, users: seq<User>) {
    forall o :: o in otps ==> o.user < |users| && !users[o.user].verified
  }

  predicate IsPrimary(accounts: seq<Account>, id: AccountId) {
    id < |accounts| && accounts[id].kind == Primary
  }

  /** A user who belongs to a primary account has verified their email. */
  predicate PrimaryOwnersVerified(members: set<Member>, accounts: seq<Account>, users: seq<User>) {
    forall m :: m in members && IsPrimary(accounts, m.account) ==> m.user < |users| && users[m.user].verified
  }

  /** No user belongs to two primary accounts. */
  predicate OnePrimaryEach(members: set<Member>, accounts: seq<Account>) {
    forall m1, m2 ::
      (m1 in members && m2 in members && m1.user == m2.user
       && IsPrimary(accounts, m1.account) && IsPrimary(accounts, m2.account)) ==> m1.account == m2.account
  }

  predicate Valid(s: State) {
    && BalancesNonNegative(s.accounts)
    && NumbersDistinct(s.accounts)
    && EmailsDistinct(s.users)
    && MembersRefer(s.members, |s.users|, |s.accounts|)
    && LoansRefer(s.loans, |s.accounts|)
    && LogRefers(s.log, |s.accounts|)
    && OtpsUnverified(s.otps, s.users)
    && PrimaryOwnersVerified(s.members, s.accounts, s.users)
    && OnePrimaryEach(s.members, s.accounts)
  }

  lemma EmptyValid()
    ensures Valid(Empty)
  {
  }

  /** Under distinct numbers, the account found by number is the only one
      carrying it. */
  lemma FindAccountUnique(accounts: seq<Account>, id: AccountId)
    requires NumbersDistinct(accounts) && id < |accounts|
    ensures FindAccount(accounts, accounts[id].number) == Some(id)
  {
  }

  /** Under distinct emails, the user found by email is the only one carrying it. */
  lemma FindUserUnique(users: seq<User>, id: UserId)
    requires EmailsDistinct(users) && id < |users|
    ensures FindUser(users, users[id].email) == Some(id)
  {
  }
}
