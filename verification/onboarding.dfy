/** Registration, email verification by OTP (which opens the user's
    primary account) and the two logins. Password hashing is a parameter:
    `matches(password, hash)` stands for the bcrypt comparison. */
module Onboarding {
  import opened Tables
  import opened Ledger

  // ---------------------------------------------------------------------
  // Registration

  /** The phone rows stored for a user: the first always, the second only
      when the form gave one (an empty field is falsy). */
  function Phones(phone1: string, phone2: string): (r: seq<string>)
    ensures |r| == (if phone2 == "" then 1 else 2)
    ensures r[0] == phone1 && (phone2 != "" ==> r[1] == phone2)
  {
    if phone2 == "" then [phone1] else [phone1, phone2]
  }

  /** Handle registration: refuse a taken email, otherwise add one
      unverified, non-admin user and one OTP that expires five minutes
      after `now`. */
  function Register(s: State, email: Email, password: Hash, birthYear: int,
                    phone1: string, phone2: string, draw: OtpDraw, now: Time): (r: Result<State>)
    ensures r.Err? <==> FindUser(s.users, email).Some?
    ensures r.Err? ==> r.error == EmailTaken
    ensures r.Ok? ==>
      && var id := |s.users|;
      && |r.value.users| == id + 1
      && r.value.users[..id] == s.users
      && r.value.users[id] == User(email, password, birthYear, Phones(phone1, phone2), false, false)
      && r.value.otps == s.otps + {Otp(id, OTP_BASE + draw, now + OTP_TTL)}
      && (forall o :: o in r.value.otps && o !in s.otps ==>
            o.user == id && OTP_BASE <= o.code <= OTP_MAX && o.expiresAt == now + OTP_TTL)
      && r.value.accounts == s.accounts && r.value.members == s.members
      && r.value.log == s.log && r.value.loans == s.loans
  {
    if FindUser(s.users, email).Some? then Err(EmailTaken)
    else
      var id := |s.users|;
      var code := OTP_BASE + draw;
      assert (s.users + [User(email, password, birthYear, Phones(phone1, phone2), false, false)])[..id] == s.users;
      Ok(s.(users := s.users + [User(email, password, birthYear, Phones(phone1, phone2), false, false)],
            otps := s.otps + {Otp(id, code, now + OTP_TTL)}))
  }

  lemma RegisterPreservesValid(s: State, email: Email, password: Hash, birthYear: int,
                               phone1: string, phone2: string, draw: OtpDraw, now: Time)
    requires Valid(s) && Register(s, email, password, birthYear, phone1, phone2, draw, now).Ok?
    ensures Valid(Register(s, email, password, birthYear, phone1, phone2, draw, now).value)
  {
    var t := Register(s, email, password, birthYear, phone1, phone2, draw, now).value;
    assert forall i :: 0 <= i < |s.users| ==> t.users[i] == s.users[i];
  }

  /** Registering twice with one email fails the second time, whatever
      else the second form says. */
  lemma RegisterTwiceFails(s: State, email: Email, p1: Hash, y1: int, a1: string, b1: string, d1: OtpDraw, t1: Time,
                           p2: Hash, y2: int, a2: string, b2: string, d2: OtpDraw, t2: Time)
    requires Register(s, email, p1, y1, a1, b1, d1, t1).Ok?
    ensures Register(Register(s, email, p1, y1, a1, b1, d1, t1).value, email, p2, y2, a2, b2, d2, t2) == Err(EmailTaken)
  {
    var s1 := Register(s, email, p1, y1, a1, b1, d1, t1).value;
    assert s1.users[|s.users|].email == email;
  }

  // ---------------------------------------------------------------------
  // Picking a fresh account number

  /** The first drawn account number that no account uses yet. */
  function FreshNumber(draws: seq<NumberDraw>, used: set<int>): (r: Option<int>)
    ensures r.Some? ==> NUMBER_BASE <= r.value <= NUMBER_MAX && r.value !in used
    ensures r.Some? ==>
      exists i :: 0 <= i < |draws| && r.value == NUMBER_BASE + draws[i]
                  && (forall j :: 0 <= j < i ==> NUMBER_BASE + draws[j] in used)
    ensures r.None? <==> forall i :: 0 <= i < |draws| ==> NUMBER_BASE + draws[i] in used
  {
    match FindFirst(draws, (d: NumberDraw) => NUMBER_BASE + d !in used)
    case None => None
    case Some(i) => Some(NUMBER_BASE + draws[i])
  }

  /** The retry loop of the verification handler: draw a number, look it
      up, and stop at the first one not in use. `draws` is the stream of
      random draws; when it runs out before a free number appears the
      handler is still looping, reported as `None`. */
  method PickAccountNumber(draws: seq<NumberDraw>, used: set<int>) returns (number: Option<int>)
    ensures number == FreshNumber(draws, used)
  {
    var i := 0;
    var isUnique := false;
    var candidate := 0;
    while !isUnique && i < |draws|
      invariant 0 <= i <= |draws|
      invariant !isUnique ==> forall j :: 0 <= j < i ==> NUMBER_BASE + draws[j] in used
      invariant isUnique ==> 0 < i && candidate == NUMBER_BASE + draws[i - 1] && candidate !in used
      invariant isUnique ==> forall j :: 0 <= j < i - 1 ==> NUMBER_BASE + draws[j] in used
    {
      candidate := NUMBER_BASE + draws[i];
      i := i + 1;
      if candidate !in used {
        isUnique := true;
      }
    }
    if isUnique {
      number := Some(candidate);
      ghost var p := (d: NumberDraw) => NUMBER_BASE + d !in used;
      assert p(draws[i - 1]);
      assert FindFirst(draws, p) == Some(i - 1);
    } else {
      number := None;
    }
  }

  // ---------------------------------------------------------------------
  // OTP verification

  /** Some OTP row of the user has this code and expires strictly after `now`. */
  predicate HasLiveOtp(otps: set<Otp>, user: UserId, code: int, now: Time) {
    exists o :: o in otps && o.user == user && o.code == code && o.expiresAt > now
  }

  /** The OTP rows left after deleting every row of `user`. */
  function DropOtps(otps: set<Otp>, user: UserId): (r: set<Otp>)
    ensures forall o :: o in r <==> o in otps && o.user != user
  {
    set o | o in otps && o.user != user
  }

  /** Handle OTP verification: find the user, require a live matching OTP,
      then mark the user verified, open a zero-balance primary account
      under a fresh number, link the user to it and delete the user's OTPs. */
  function VerifyOtp(s: State, email: Email, code: int, now: Time, draws: seq<NumberDraw>): (r: Result<State>)
    ensures FindUser(s.users, email).None? ==> r == Err(UserNotFound)
    ensures FindUser(s.users, email).Some? && !HasLiveOtp(s.otps, FindUser(s.users, email).value, code, now)
      ==> r == Err(InvalidOtp)
    ensures (FindUser(s.users, email).Some? && HasLiveOtp(s.otps, FindUser(s.users, email).value, code, now)
             && FreshNumber(draws, Numbers(s.accounts)).None?) ==> r == Err(StillRetrying)
    ensures r.Ok? <==>
      && FindUser(s.users, email).Some?
      && HasLiveOtp(s.otps, FindUser(s.users, email).value, code, now)
      && FreshNumber(draws, Numbers(s.accounts)).Some?
    ensures r.Ok? ==>
      && FindUser(s.users, email).Some?
      && var u := FindUser(s.users, email).value;
      && var id := |s.accounts|;
      && HasLiveOtp(s.otps, u, code, now)
      && |r.value.users| == |s.users|
      && r.value.users[u] == s.users[u].(verified := true)
      && (forall i :: 0 <= i < |s.users| && i != u ==> r.value.users[i] == s.users[i])
      && |r.value.accounts| == id + 1
      && r.value.accounts[..id] == s.accounts
      && r.value.accounts[id].kind == Primary
      && r.value.accounts[id].balance == 0
      && r.value.accounts[id].password.None?
      && FreshNumber(draws, Numbers(s.accounts)) == Some(r.value.accounts[id].number)
      && NUMBER_BASE <= r.value.accounts[id].number <= NUMBER_MAX
      && r.value.accounts[id].number !in Numbers(s.accounts)
      && r.value.members == s.members + {Member(id, u)}
      && (forall o :: o in r.value.otps <==> o in s.otps && o.user != u)
      && r.value.log == s.log && r.value.loans == s.loans
  {
    match FindUser(s.users, email)
    case None => Err(UserNotFound)
    case Some(u) =>
      if !HasLiveOtp(s.otps, u, code, now) then Err(InvalidOtp)
      else match FreshNumber(draws, Numbers(s.accounts))
        case None => Err(StillRetrying)
        case Some(n) =>
          var id := |s.accounts|;
          assert (s.accounts + [Account(n, Primary, 0, None)])[..id] == s.accounts;
          Ok(s.(users := s.users[u := s.users[u].(verified := true)],
                accounts := s.accounts + [Account(n, Primary, 0, None)],
                members := s.members + {Member(id, u)},
                otps := DropOtps(s.otps, u)))
  }

  /** A successful verification keeps account numbers pairwise distinct. */
  lemma VerifyKeepsNumbersDistinct(s: State, email: Email, code: int, now: Time, draws: seq<NumberDraw>)
    requires NumbersDistinct(s.accounts)
    requires VerifyOtp(s, email, code, now, draws).Ok?
    ensures NumbersDistinct(VerifyOtp(s, email, code, now, draws).value.accounts)
  {
    var t := VerifyOtp(s, email, code, now, draws).value;
    var id := |s.accounts|;
    forall i, j | 0 <= i < j < |t.accounts| ensures t.accounts[i].number != t.accounts[j].number {
      assert t.accounts[i] == s.accounts[i];
      if j == id {
        assert s.accounts[i].number in Numbers(s.accounts);
      } else {
        assert t.accounts[j] == s.accounts[j];
      }
    }
  }

  lemma VerifyPreservesValid(s: State, email: Email, code: int, now: Time, draws: seq<NumberDraw>)
    requires Valid(s) && VerifyOtp(s, email, code, now, draws).Ok?
    ensures Valid(VerifyOtp(s, email, code, now, draws).value)
  {
    var t := VerifyOtp(s, email, code, now, draws).value;
    var u := FindUser(s.users, email).value;
    var id := |s.accounts|;
    VerifyKeepsNumbersDistinct(s, email, code, now, draws);
    assert forall i :: 0 <= i < |s.accounts| ==> t.accounts[i] == s.accounts[i];
    assert forall i :: 0 <= i < |s.accounts| ==> IsPrimary(t.accounts, i) == IsPrimary(s.accounts, i);
    var o :| o in s.otps && o.user == u && o.code == code && o.expiresAt > now;
    assert !s.users[u].verified;
    assert EmailsDistinct(t.users) by {
      forall i, j | 0 <= i < j < |t.users| ensures t.users[i].email != t.users[j].email {
        assert t.users[i].email == s.users[i].email && t.users[j].email == s.users[j].email;
      }
    }
    assert forall m :: m in s.members && IsPrimary(s.accounts, m.account) ==> m.user != u;
    assert OnePrimaryEach(t.members, t.accounts);
  }

  /** Verification deletes every OTP of the user, so the same (or any)
      code cannot verify the same email a second time. */
  lemma VerifyTwiceFails(s: State, email: Email, code: int, now: Time, draws: seq<NumberDraw>,
                         code2: int, now2: Time, draws2: seq<NumberDraw>)
    requires VerifyOtp(s, email, code, now, draws).Ok?
    ensures VerifyOtp(VerifyOtp(s, email, code, now, draws).value, email, code2, now2, draws2) == Err(InvalidOtp)
  {
    var t := VerifyOtp(s, email, code, now, draws).value;
    var u := FindUser(s.users, email).value;
    assert FindUser(t.users, email).Some?;
    var u2 := FindUser(t.users, email).value;
    assert u2 == u;
  }

  /** An OTP that has expired (expiry not strictly after `now`) never verifies. */
  lemma ExpiredOtpFails(s: State, email: Email, code: int, now: Time, draws: seq<NumberDraw>)
    requires FindUser(s.users, email).Some?
    requires forall o :: o in s.otps && o.user == FindUser(s.users, email).value ==> o.expiresAt <= now
    ensures VerifyOtp(s, email, code, now, draws) == Err(InvalidOtp)
  {
  }

  // ---------------------------------------------------------------------
  // Logins

  /** Handle a user login. Unknown email, unverified user and wrong
      password fail in that order; the password is compared only for a
      verified user. */
  function Login(s: State, email: Email, password: Password, matches: (Password, Hash) -> bool): (r: Result<UserId>)
    ensures FindUser(s.users, email).None? ==> r == Err(InvalidCredentials)
    ensures FindUser(s.users, email).Some? && !s.users[FindUser(s.users, email).value].verified
      ==> r == Err(NotVerified)
    ensures (FindUser(s.users, email).Some? && s.users[FindUser(s.users, email).value].verified
             && !matches(password, s.users[FindUser(s.users, email).value].password))
      ==> r == Err(InvalidCredentials)
    ensures r.Ok? ==>
      && r.value < |s.users|
      && s.users[r.value].email == email
      && s.users[r.value].verified
      && matches(password, s.users[r.value].password)
  {
    match FindUser(s.users, email)
    case None => Err(InvalidCredentials)
    case Some(u) =>
      if !s.users[u].verified then Err(NotVerified)
      else if !matches(password, s.users[u].password) then Err(InvalidCredentials)
      else Ok(u)
  }

  /** With distinct emails, login succeeds exactly for a verified user
      whose stored hash matches, and then names that user. */
  lemma LoginSucceedsIff(s: State, u: UserId, password: Password, matches: (Password, Hash) -> bool)
    requires EmailsDistinct(s.users) && u < |s.users|
    ensures Login(s, s.users[u].email, password, matches) == Ok(u)
      <==> s.users[u].verified && matches(password, s.users[u].password)
    ensures !s.users[u].verified ==> Login(s, s.users[u].email, password, matches) == Err(NotVerified)
  {
    FindUserUnique(s.users, u);
  }

  /** The first `JOINT` account row, in insertion order, holding
      `number`; primary rows with that number are passed over. */
  function FindJoint(accounts: seq<Account>, number: int): (r: Option<AccountId>)
    ensures r.Some? ==> r.value < |accounts| && accounts[r.value].number == number && accounts[r.value].kind == Joint
    ensures r.Some? ==> forall i :: 0 <= i < r.value ==> !(accounts[i].number == number && accounts[i].kind == Joint)
    ensures r.None? <==> forall i :: 0 <= i < |accounts| && accounts[i].number == number ==> accounts[i].kind != Joint
  {
    FindFirst(accounts, (a: Account) => a.number == number && a.kind == Joint)
  }

  /** Handle a joint-account login: only `JOINT` rows with the number are
      considered, then the shared password is compared. A joint row with
      no stored hash makes bcrypt throw. */
  function JointLogin(s: State, number: int, password: Password, matches: (Password, Hash) -> bool): (r: Result<AccountId>)
    ensures r.Ok? ==>
      && r.value < |s.accounts|
      && s.accounts[r.value].number == number
      && s.accounts[r.value].kind == Joint
      && s.accounts[r.value].password.Some?
      && matches(password, s.accounts[r.value].password.value)
    ensures FindJoint(s.accounts, number).None? ==> r == Err(InvalidCredentials)
    ensures FindJoint(s.accounts, number).Some? ==>
      var a := FindJoint(s.accounts, number).value;
      match s.accounts[a].password
      case None => r == Err(ServerError)
      case Some(h) => r == (if matches(password, h) then Ok(a) else Err(InvalidCredentials))
  {
    match FindJoint(s.accounts, number)
    case None => Err(InvalidCredentials)
    case Some(a) =>
      match s.accounts[a].password
      case None => Err(ServerError)
      case Some(h) =>
        if !matches(password, h) then Err(InvalidCredentials)
        else Ok(a)
  }

  /** With distinct account numbers, a joint account with a stored hash
      opens a session exactly when the password matches that hash. */
  lemma JointLoginSucceedsIff(s: State, id: AccountId, password: Password, matches: (Password, Hash) -> bool)
    requires NumbersDistinct(s.accounts) && id < |s.accounts|
    requires s.accounts[id].kind == Joint && s.accounts[id].password.Some?
    ensures JointLogin(s, s.accounts[id].number, password, matches) == Ok(id)
      <==> matches(password, s.accounts[id].password.value)
    ensures !matches(password, s.accounts[id].password.value)
      ==> JointLogin(s, s.accounts[id].number, password, matches) == Err(InvalidCredentials)
  {
    FindAccountUnique(s.accounts, id);
  }

  /** A primary account's number never opens a joint session, whatever
      the password and however the hash comparison behaves. */
  lemma PrimaryNumberNotJoint(s: State, id: AccountId, password: Password, matches: (Password, Hash) -> bool)
    requires NumbersDistinct(s.accounts) && id < |s.accounts| && s.accounts[id].kind == Primary
    ensures JointLogin(s, s.accounts[id].number, password, matches) == Err(InvalidCredentials)
  {
    forall i | 0 <= i < |s.accounts| && s.accounts[i].number == s.accounts[id].number
      ensures s.accounts[i].kind != Joint
    {
    }
  }
}
