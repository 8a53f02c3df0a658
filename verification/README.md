# A banking ledger as a state machine

This project models the three controllers of a small online bank. Users
register with an e-mail address and confirm it with a one-time code. That
confirmation opens their primary account. They deposit, withdraw and
transfer money, and they can open joint accounts together with other
registered users. Primary and joint accounts apply for loans. An
administrator approves or rejects each loan and reads summary statistics.

The database is one immutable `State` (module `Ledger`):

- users, accounts and loans are sequences indexed by their auto-increment id;
- OTP rows and the `joint_members` link rows are sets;
- the transaction log is a sequence that only grows.

Each request handler is a pure function from a state to `Result<State>`.
A failed request returns `Err` with a reason and no state, so it changes
nothing. For most handlers that is the rollback of their database
transaction. Three handlers use no transaction:

- the two loan applications (src/controllers/accountController.js:416-442 and 468-476) write once, after every check that can fail;
- the loan rejection (src/controllers/adminController.js:99-103) writes first and reads afterwards. The reads fail for an unknown loan, whose update changed nothing, and the model answers `LoanNotFound`. They also fail for a loan whose account has no members. There the update stands, and the model reports it as `Ok` (see "## Left out").

`System.Step` and `System.Run` serve requests one at a time. `Ledger.Valid` is the invariant every reachable state keeps,
provided loan applications are served by the amount-checking handlers
`Loans.ApplyLoan` and `Loans.ApplyJointLoan`. The source's handlers store
the amount unchecked, and with them a negative balance is reachable (see
"## Findings"). `System.Handle` dispatches to the checked handlers. The invariant says:

- balances are non-negative;
- account numbers and e-mails are distinct;
- link rows, loans and log records refer to existing rows;
- OTPs belong to unverified users;
- every owner of a primary account is verified and owns exactly one.

Modules follow the controllers:

- `Tables`: first-match lookup and cardinality facts.
- `Ledger`: entities, the invariant, totals and counts.
- `Money`: deposit, withdraw, transfer.
- `Onboarding`: register, verify the OTP, log in, joint log-in.
- `JointAccounts`: joint account creation.
- `Loans`: primary and joint loan applications.
- `Admin`: approve, reject, dashboard statistics.
- `System`: request dispatch and runs.

Modelling choices that follow the code:

- Amounts are integers in cents. `parseFloat` yielding `NaN` is the `None` of `Amount`.
- `rows[0].x` on an empty result throws, and the handler answers with a server error. The model returns `ServerError` there.
- The money handlers take the account id from the form and do not check that it belongs to the caller. The model follows that and takes any id.
- A deposit or a loan approval naming a missing account matches no row in its `UPDATE`, and a loan application for a missing account inserts a loan row that refers to it. The model takes the transaction log's and the loan table's account references to be foreign keys, so such a request fails as `ServerError`.
- A joint account number that is already taken is taken to violate the unique key on `account_number`, which is also a `ServerError`.
- `rejectLoan` has no status filter, so an approved loan can be rejected afterwards. It stays credited.
- Transfers check funds before they look up the recipient. The recipient check comes before the same-account check. A self-transfer without enough funds therefore reports insufficient funds.
- Joint account creation compares the number of matching user rows with the number of e-mails it collected. A repeated e-mail, including the creator inviting themself, is refused like an unknown one (`JointAccounts.MatchedCountIff`).
- The refusal message of joint account creation (src/controllers/accountController.js:211) speaks only of unregistered e-mails. The count check before it (line 209) also refuses repeated e-mails, and the model follows the check (`JointAccounts.RepeatedEmailFails`).

Inputs the code gets from outside are parameters of the model:

- the clock is `now`, or `year` for the loan age check;
- `Math.random` is an OTP draw in `0..899999` or a stream of account-number draws in `0..8999999999`;
- bcrypt is a `matches` predicate on password and hash, and hashes are opaque values.

## Model

| member | source | states |
|---|---|---|
| Money.Deposit | src/controllers/accountController.js:52-83 | a non-positive or non-numeric amount is refused first; success exactly when the amount is positive and the account exists; then only that balance rises by the amount, nothing but accounts and log changes, and one DEPOSIT record without a source is appended |
| Money.Withdraw | src/controllers/accountController.js:86-126 | invalid amount refused first, then an overdraft is refused; success exactly when the balance covers the amount; only that balance falls, it stays non-negative, one WITHDRAWAL record without a destination is appended |
| Money.Transfer | src/controllers/accountController.js:130-183 | error cases in the code's order (amount, funds, unknown recipient number, same account); success exactly when every guard passes; on success the sender row is debited and the recipient row credited with nothing else in them changed, every other account unchanged, bank total unchanged, one TRANSFER record |
| Money.DepositRaisesTotal | src/controllers/accountController.js:65-71 | an accepted deposit raises the sum of all balances by exactly its amount |
| Money.WithdrawLowersTotal | src/controllers/accountController.js:98-114 | an accepted withdrawal lowers the sum of all balances by exactly its amount |
| Money.DepositUndoesWithdraw | src/controllers/accountController.js:65-114 | depositing what was just withdrawn is accepted and restores every balance, with both records kept in the log |
| Money.WithdrawKeepsBalancesNonNegative | src/controllers/accountController.js:99-105 | an accepted withdrawal never makes any balance negative |
| Money.SelfTransferFails | src/controllers/accountController.js:143-160 | a transfer to the sender's own number fails on funds when short and otherwise on the same-account check |
| Money.TransferBackRestores | src/controllers/accountController.js:150-170 | sending the same amount back to the sender's number is accepted and restores every balance |
| Onboarding.Phones | src/controllers/userController.js:43-46 | the first phone is always stored, the second only when non-empty |
| Onboarding.Register | src/controllers/userController.js:18-70 | refused exactly when the e-mail is already registered; otherwise appends one unverified non-admin user and one six-digit OTP for it expiring five minutes later, nothing else changes |
| Onboarding.RegisterTwiceFails | src/controllers/userController.js:24-27 | a second registration with the same e-mail is refused whatever the other fields |
| Onboarding.FreshNumber | src/controllers/userController.js:103-111 | the chosen number is ten digits, unused, and is a draw whose every earlier draw is taken, that is, the first free draw; none is chosen exactly when every draw is already taken |
| Onboarding.PickAccountNumber | src/controllers/userController.js:103-111 | the retry loop returns the first unused draw, which is the reference choice above |
| Onboarding.VerifyOtp | src/controllers/userController.js:76-139 | unknown e-mail and missing, wrong or expired code are refused in that order, and an exhausted draw stream leaves the handler retrying; success exactly for a known user with a live code and a free draw; then the user is verified, a zero-balance primary account without a password, numbered by the first free draw, and its link row are added and all of the user's OTPs are deleted |
| Onboarding.VerifyKeepsNumbersDistinct | src/controllers/userController.js:102-117 | the new primary account number differs from every existing one |
| Onboarding.VerifyTwiceFails | src/controllers/userController.js:125 | a second verification of the same e-mail finds no OTP and is refused |
| Onboarding.ExpiredOtpFails | src/controllers/userController.js:87-94 | when all of a user's OTPs have expired, every code is refused |
| Onboarding.Login | src/controllers/userController.js:143-180 | unknown e-mail and a wrong password for a verified user give the same error; an unverified user is refused before the password is looked at; success names the user whose e-mail and hash matched |
| Onboarding.LoginSucceedsIff | src/controllers/userController.js:147-162 | with distinct e-mails, a user logs in exactly when verified and the password matches the stored hash |
| Onboarding.JointLogin | src/controllers/userController.js:186-219 | only the first JOINT row with the number is considered; no such row gives the credentials error, a row without a hash a server error, a matching password success with that row and a wrong one the credentials error |
| Onboarding.JointLoginSucceedsIff | src/controllers/userController.js:190-203 | with distinct account numbers, a joint account with a stored hash opens a session exactly when the password matches, and a wrong password gets the credentials error |
| Onboarding.PrimaryNumberNotJoint | src/controllers/userController.js:190-197 | the number of a primary account never opens a joint session |
| JointAccounts.Invited | src/controllers/accountController.js:195 | the invited e-mails are the non-empty form fields, each as often as it was filled in |
| JointAccounts.CreateJoint | src/controllers/accountController.js:192-245 | no invitee is refused first, then a missing creator row, then a count of matching users that differs from the number of listed e-mails; on success one zero-balance joint account numbered by the single draw (ten digits, unused) with the given password hash is appended, every user whose e-mail was listed (creator included) is linked to it and no one else; nothing else changes |
| JointAccounts.MatchedCountIff | src/controllers/accountController.js:206-212 | the count of matching user rows equals the number of e-mails exactly when the e-mails are distinct and all registered |
| JointAccounts.CreateJointSucceedsIff | src/controllers/accountController.js:195-230 | creation succeeds exactly when some e-mail is invited, all e-mails including the creator's are distinct and registered, and the drawn number is unused |
| JointAccounts.UnregisteredInviteeFails | src/controllers/accountController.js:206-212 | an invited e-mail that no user registered makes creation fail as an unknown member |
| JointAccounts.RepeatedEmailFails | src/controllers/accountController.js:206-212 | a repeated invitee or a self-invitation is refused as an unknown member |
| JointAccounts.JointNumberCollisionFails | src/controllers/accountController.js:214-225 | a drawn number already in use is refused and no account is created |
| Loans.ApplyLoanAsWritten | src/controllers/accountController.js:410-450 | minors refused, then a second pending loan of the same type on the account; success exactly when the applicant is adult, no such pending loan exists and the account exists; only one PENDING loan row is appended, its amount unchecked |
| Loans.ApplyLoan | src/controllers/accountController.js:410-450 | the corrected application: a non-positive amount is refused, otherwise it behaves as written, so every loan it stores has a positive amount |
| Loans.DecidedLoansDoNotBlock | src/controllers/accountController.js:424-436 | approved or rejected loans of the same type do not stop an adult's application |
| Loans.SecondPendingRefused | src/controllers/accountController.js:427-435 | right after a successful application, another of the same type on the same account is refused as a duplicate |
| Loans.ApplyJointLoanAsWritten | src/controllers/accountController.js:464-485 | any existing loan of the account, whatever its status, is refused first, then any type but Business; otherwise one PENDING row is appended, its amount unchecked |
| Loans.ApplyJointLoan | src/controllers/accountController.js:464-485 | the corrected joint application: a non-positive amount is refused, otherwise it behaves as written |
| Loans.JointLoanOnlyOnce | src/controllers/accountController.js:467-471 | once a joint account has applied, every later application is refused on the limit whatever its type |
| Admin.Approve | src/controllers/adminController.js:53-93 | a missing or non-pending loan is refused; on success that loan alone becomes APPROVED with a decision time, its amount is credited to its account only, one LOAN record is appended, users and links unchanged |
| Admin.Reject | src/controllers/adminController.js:96-111 | succeeds exactly when the loan exists, whatever its status; only that loan changes, to REJECTED with a decision time |
| Admin.ApproveTwiceCreditsOnce | src/controllers/adminController.js:60-71 | a second approval of the same loan is refused, so the bank total rises once by the loan amount |
| Admin.RejectAfterApproveKeepsCredit | src/controllers/adminController.js:99 | rejecting an approved loan is accepted; the loan ends REJECTED while its credit and LOAN record stay |
| Admin.ApprovalUnblocksApplication | src/controllers/accountController.js:427-442 | while a loan is pending an application of its type on its account is refused, and after its approval the same application succeeds |
| Admin.Dashboard | src/controllers/adminController.js:8-15 | user and account counts are the table sizes; total assets is absent exactly for an empty account table, else the balance sum, non-negative when balances are; pending count is the number of PENDING loans |
| Admin.ApplyAddsPending | src/controllers/adminController.js:13 | an accepted application raises the pending count by one |
| Admin.ApproveMovesDashboard | src/controllers/adminController.js:12-13 | an approval lowers the pending count by one and raises total assets by the loan amount |
| Admin.RejectMovesDashboard | src/controllers/adminController.js:12-13 | a rejection lowers the pending count by one only for a pending loan and never moves total assets |
| Admin.UncheckedLoanOverdraws | src/controllers/accountController.js:438-442 | as written, an application for -500 on an empty account is accepted, and its approval leaves the balance at -500 and breaks the invariant |
| Admin.UncheckedJointLoanOverdraws | src/controllers/accountController.js:476 | as written, a joint application for -700 is accepted and its approval leaves the joint balance at -700 |
| Admin.CheckedLoanKeepsBalances | src/controllers/accountController.js:438-442 | with the corrected application, applying and then approving keeps every balance non-negative |
| Admin.CheckedJointLoanKeepsBalances | src/controllers/accountController.js:476 | with the corrected joint application, applying and then approving keeps every balance non-negative |
| Ledger.CountPendingIsCard | src/controllers/adminController.js:13 | the pending count equals the number of distinct pending loan ids |
| System.Step | src/controllers/accountController.js:60-82 | one request, accepted or refused, appends at most one record to the transaction log and changes none, and never removes a user, account or loan row |
| System.RunConcat | src/controllers/accountController.js:60-82 | serving two batches of requests one after the other is serving their concatenation |
| System.RunSkipsFailed | src/controllers/accountController.js:76-79 | a failed request leaves no trace in a run: the run continues as if it had not been sent |
| System.StepPreservesValid | src/controllers/accountController.js:60-82 | every request, accepted or rolled back, keeps the invariant, with loan applications served by the amount-checking handlers |
| System.RunPreservesValid | src/controllers/accountController.js:60-82 | every sequence of requests from a valid state keeps the invariant, with loan applications served by the amount-checking handlers |
| System.ReachableBalancesNonNegative | src/controllers/accountController.js:99-105 | from the empty database no sequence of requests reaches a negative balance or a duplicate account number, with loan applications served by the amount-checking handlers |
| System.RunExtendsLog | src/controllers/accountController.js:67-71 | a run only appends to the transaction log, at most one record per request |
| System.StepKeepsDecided | src/controllers/adminController.js:60 | no request removes a loan or makes a decided loan pending again |
| System.LoanCreditedAtMostOnce | src/controllers/adminController.js:60-77 | over any run each loan is credited at most once, and never if it was already decided |

## Left out

- Page rendering, redirects, flash messages and the read-only pages are not modelled. This covers the dashboards, the loan form, account search, the joint-account duplicates of the money handlers (the same statements as the primary ones) and the admin dashboard's loan and recent-transaction lists. None of them changes the state.
- Authentication middleware and JWTs are not modelled. The caller's user id or joint account id is a parameter, as the middleware provides it.
- bcrypt and the random joint password are not modelled, since both are foreign calls. Password checks are a `matches` parameter, and the joint account's hash is an input.
- E-mail sending and console output are not modelled. The mailer catches its own send errors (src/utils/mailer.js:20-25 and 37-42), so sending never changes the outcome. After approval commits, and after the rejection's update, the handler reads `user.email` from a member lookup (src/controllers/adminController.js:82 and 103). For an account without members that throws and the admin sees an error, but the state change stands, and the model reports it as `Ok`.
- Concurrency is not modelled. Requests are served one at a time. The registration e-mail check runs outside the transaction and the `FOR UPDATE` row locks only matter under interleaving.
- Floating point is not modelled. Amounts are integer cents, and parsing and rounding of decimal strings are not represented.
- Collation is not modelled. E-mails and loan types compare by exact equality, while MySQL's default collation compares e-mails case-insensitively.
- Names are left out. First and last name are not stored, the date of birth is only its year, and age is the difference of calendar years as in the code.
- Onboarding.VerifyOtp: the code's retry loop is unbounded. The model draws from a finite stream and reports `StillRetrying`, with no state change, when the stream holds no unused number.
- A joint account row without a stored password hash does not arise from the handlers. Joint log-in reports `ServerError` for it, as bcrypt would throw.
- System.StepPreservesValid: proved with the amount-checking loan handlers. With the handlers as written, one application and its approval break the invariant (`Admin.UncheckedLoanOverdraws`).
- System.RunPreservesValid: proved with the amount-checking loan handlers, for the same reason.
- System.ReachableBalancesNonNegative: proved with the amount-checking loan handlers. As written, a balance of -500 is reachable.
- The database schema is not part of this model. The foreign and unique keys named above are taken as given.

## Findings

| source | as written | input that shows it | evidently intended | confidence | as-written member | corrected member |
|---|---|---|---|---|---|---|
| src/controllers/accountController.js:438-442 | the primary loan application stores the form's amount without checking it | an adult applies for -500 on an account holding 0; the admin approves it; the balance becomes -500 | refuse a non-positive amount, as deposits, withdrawals and transfers do | medium, depends on the column type of `loans.amount`, which is not part of this model; not executed | Loans.ApplyLoanAsWritten (shown by Admin.UncheckedLoanOverdraws) | Loans.ApplyLoan (proved by Admin.CheckedLoanKeepsBalances) |
| src/controllers/accountController.js:476 | the joint loan application stores the form's amount without checking it | a joint account holding 0 applies for a Business loan of -700; the admin approves it; the balance becomes -700 | refuse a non-positive amount | medium, depends on the column type of `loans.amount`, which is not part of this model; not executed | Loans.ApplyJointLoanAsWritten (shown by Admin.UncheckedJointLoanOverdraws) | Loans.ApplyJointLoan (proved by Admin.CheckedJointLoanKeepsBalances) |
