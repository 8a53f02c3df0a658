/** Opening a joint account: the creator invites up to four registered
    users by email, and all of them plus the creator become members of a
    new zero-balance `JOINT` account with a shared password. */
module JointAccounts {
  import opened Tables
  import opened Ledger

  /** The invitation fields that were filled in, in form order. */
  function Invited(fields: seq<Email>): (r: seq<Email>)
    ensures forall e :: e in r <==> e in fields && e != ""
    ensures multiset(r) == multiset(fields)["" := 0]
    ensures |r| <= |fields|
  {
    if |fields| == 0 then []
    else
      assert fields == [fields[0]] + fields[1..];
      if fields[0] == "" then Invited(fields[1..])
      else [fields[0]] + Invited(fields[1..])
  }

  /** The ids of the users whose email occurs in the list; each matching
      user row counts once, however often its email is listed. */
  function Matched(users: seq<User>, emails: seq<Email>): set<UserId> {
    set i | 0 <= i < |users| && users[i].email in emails
  }

  /** The invited emails followed by the creator's own. */
  function AllEmails(s: State, creator: UserId, fields: seq<Email>): seq<Email>
    requires creator < |s.users|
  {
    Invited(fields) + [s.users[creator].email]
  }

  /** Handle joint-account creation. An empty invitation list is refused
      before anything is read; the number of users found must equal the
      number of emails listed; the account number is drawn once, without
      the lookup the primary-account path does, so a number already in use
      is refused by the table's unique key as a server error. */
  function CreateJoint(s: State, creator: UserId, fields: seq<Email>, draw: NumberDraw, password: Hash): (r: Result<State>)
    ensures |Invited(fields)| == 0 ==> r == Err(NoInvitees)
    ensures |Invited(fields)| > 0 && creator >= |s.users| ==> r == Err(ServerError)
    ensures (|Invited(fields)| > 0 && creator < |s.users|
             && |Matched(s.users, AllEmails(s, creator, fields))| != |AllEmails(s, creator, fields)|)
      ==> r == Err(UnknownMember)
    ensures r.Ok? ==>
      && creator < |s.users|
      && var id := |s.accounts|;
      && |r.value.accounts| == id + 1
      && r.value.accounts[..id] == s.accounts
      && r.value.accounts[id].kind == Joint
      && r.value.accounts[id].balance == 0
      && r.value.accounts[id].password == Some(password)
      && r.value.accounts[id].number == NUMBER_BASE + draw
      && NUMBER_BASE <= r.value.accounts[id].number <= NUMBER_MAX
      && r.value.accounts[id].number !in Numbers(s.accounts)
      && s.members <= r.value.members
      && Member(id, creator) in r.value.members
      && (forall i :: 0 <= i < |s.users| && s.users[i].email in AllEmails(s, creator, fields) ==>
            Member(id, i) in r.value.members)
      && (forall m :: m in r.value.members && m !in s.members ==>
            m.account == id && m.user < |s.users| && s.users[m.user].email in AllEmails(s, creator, fields))
      && r.value.users == s.users && r.value.otps == s.otps
      && r.value.log == s.log && r.value.loans == s.loans
  {
    var invited := Invited(fields);
    if |invited| < 1 then Err(NoInvitees)
    else if creator >= |s.users| then Err(ServerError)
    else
      var all := AllEmails(s, creator, fields);
      var found := Matched(s.users, all);
      if |found| != |all| then Err(UnknownMember)
      else
        var n := NUMBER_BASE + draw;
        if n in Numbers(s.accounts) then Err(ServerError)
        else
          var id := |s.accounts|;
          var t := s.(accounts := s.accounts + [Account(n, Joint, 0, Some(password))],
                      members := s.members + (set u | u in found :: Member(id, u)));
          assert t.accounts[..id] == s.accounts;
          assert Member(id, creator) in t.members by { assert creator in found; }
          Ok(t)
  }

  /** The listed emails that belong to a registered user. */
  function Known(users: seq<User>, emails: seq<Email>): set<Email> {
    set e | e in emails && FindUser(users, e).Some?
  }

  /** The emails of a set of users. */
  function EmailsOf(users: seq<User>, ids: set<UserId>): set<Email>
    requires forall i :: i in ids ==> i < |users|
  {
    set i | i in ids :: users[i].email
  }

  /** Distinct users have distinct emails, so a set of users has as many
      emails as members. */
  lemma {:induction false} EmailsOfCard(users: seq<User>, ids: set<UserId>)
    requires EmailsDistinct(users) && forall i :: i in ids ==> i < |users|
    ensures |EmailsOf(users, ids)| == |ids|
  {
    if ids != {} {
      var x :| x in ids;
      var rest := ids - {x};
      EmailsOfCard(users, rest);
      assert EmailsOf(users, ids) == EmailsOf(users, rest) + {users[x].email};
      assert users[x].email !in EmailsOf(users, rest) by {
        forall y | y in rest ensures users[y].email != users[x].email {
          if y < x { assert users[y].email != users[x].email; }
          else { assert users[x].email != users[y].email; }
        }
      }
    }
  }

  /** With distinct emails in the user table, one user is found per
      registered email listed. */
  lemma MatchedCountsKnown(users: seq<User>, emails: seq<Email>)
    requires EmailsDistinct(users)
    ensures |Matched(users, emails)| == |Known(users, emails)|
  {
    var m := Matched(users, emails);
    EmailsOfCard(users, m);
    forall e | e in Known(users, emails) ensures e in EmailsOf(users, m) {
      var i := FindUser(users, e).value;
      assert i in m;
    }
    assert EmailsOf(users, m) == Known(users, emails);
  }

  /** With distinct emails in the user table, finding as many users as
      emails were listed means exactly that the list has no repeats and
      every listed email is registered. */
  lemma MatchedCountIff(users: seq<User>, emails: seq<Email>)
    requires EmailsDistinct(users)
    ensures |Matched(users, emails)| == |emails| <==>
      Distinct(emails) && forall e :: e in emails ==> FindUser(users, e).Some?
  {
    MatchedCountsKnown(users, emails);
    var known := Known(users, emails);
    var listed := Elements(emails);
    assert known <= listed;
    SubsetCard(known, listed);
    ElementsCard(emails);
    if forall e :: e in emails ==> FindUser(users, e).Some? {
      assert known == listed;
    }
    if |known| == |listed| {
      forall e | e in emails ensures FindUser(users, e).Some? {
        assert e in listed;
      }
    }
  }

  /** Joint creation by a registered creator succeeds exactly when at
      least one invitation is filled in, the invited emails and the
      creator's are pairwise different and all registered, and the drawn
      number is not yet used. */
  lemma CreateJointSucceedsIff(s: State, creator: UserId, fields: seq<Email>, draw: NumberDraw, password: Hash)
    requires EmailsDistinct(s.users) && creator < |s.users|
    ensures CreateJoint(s, creator, fields, draw, password).Ok? <==>
      && |Invited(fields)| >= 1
      && Distinct(AllEmails(s, creator, fields))
      && (forall e :: e in Invited(fields) ==> FindUser(s.users, e).Some?)
      && NUMBER_BASE + draw !in Numbers(s.accounts)
  {
    var all := AllEmails(s, creator, fields);
    MatchedCountIff(s.users, all);
    assert FindUser(s.users, s.users[creator].email).Some?;
  }

  /** Inviting the same person twice, or inviting oneself, fails even
      though every email is registered. */
  lemma RepeatedEmailFails(s: State, creator: UserId, fields: seq<Email>, draw: NumberDraw, password: Hash)
    requires EmailsDistinct(s.users) && creator < |s.users|
    requires |Invited(fields)| >= 1 && !Distinct(AllEmails(s, creator, fields))
    ensures CreateJoint(s, creator, fields, draw, password) == Err(UnknownMember)
  {
    MatchedCountIff(s.users, AllEmails(s, creator, fields));
  }

  /** An invited email that no user registered is refused as an unknown
      member. */
  lemma UnregisteredInviteeFails(s: State, creator: UserId, fields: seq<Email>, e: Email,
                                 draw: NumberDraw, password: Hash)
    requires EmailsDistinct(s.users) && creator < |s.users|
    requires e in Invited(fields) && FindUser(s.users, e).None?
    ensures CreateJoint(s, creator, fields, draw, password) == Err(UnknownMember)
  {
    var all := AllEmails(s, creator, fields);
    MatchedCountIff(s.users, all);
    assert e in all;
  }

  /** Unlike primary-account creation, which keeps drawing, a joint
      creation whose single draw hits a number in use fails outright. */
  lemma JointNumberCollisionFails(s: State, creator: UserId, fields: seq<Email>, draw: NumberDraw, password: Hash)
    requires EmailsDistinct(s.users) && creator < |s.users|
    requires |Invited(fields)| >= 1 && Distinct(AllEmails(s, creator, fields))
    requires forall e :: e in Invited(fields) ==> FindUser(s.users, e).Some?
    requires NUMBER_BASE + draw in Numbers(s.accounts)
    ensures CreateJoint(s, creator, fields, draw, password) == Err(ServerError)
  {
    MatchedCountIff(s.users, AllEmails(s, creator, fields));
    assert FindUser(s.users, s.users[creator].email).Some?;
  }

  lemma CreateJointPreservesValid(s: State, creator: UserId, fields: seq<Email>, draw: NumberDraw, password: Hash)
    requires Valid(s) && CreateJoint(s, creator, fields, draw, password).Ok?
    ensures Valid(CreateJoint(s, creator, fields, draw, password).value)
  {
    var t := CreateJoint(s, creator, fields, draw, password).value;
    var id := |s.accounts|;
    assert forall i :: 0 <= i < id ==> t.accounts[i] == s.accounts[i];
    assert forall i :: 0 <= i < id ==> IsPrimary(t.accounts, i) == IsPrimary(s.accounts, i);
    assert !IsPrimary(t.accounts, id);
    assert NumbersDistinct(t.accounts) by {
      forall i, j | 0 <= i < j < |t.accounts| ensures t.accounts[i].number != t.accounts[j].number {
        if j == id {
          assert s.accounts[i].number in Numbers(s.accounts);
        }
      }
    }
  }
}
