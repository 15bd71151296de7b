/** The account handlers: registration with its ordered guards, login and
    logout through the stored session token, and the email OTP store with
    its send and verify operations. Hashing, password comparison, token
    signing, OTP generation, the clock and mail delivery are parameters. */
module UserController {
  import opened Base
  import Text
  import opened UserSchema
  import opened EmailOtpSchema
  import opened Database

  // ---- registration ----

  /** POST /register. `hashed` is the bcrypt hash of the password (None when
      hashing throws, as it does for a missing password). The OTP store is
      not consulted: `emailVerified` and `role` are taken from the body. */
  method RegisterUser(db: Db, name: Option<string>, email: string, hashed: Option<string>,
                      role: Option<string>, emailVerified: bool) returns (reply: Reply)
    requires db.Valid()
    modifies db`users, db`nextId
    ensures db.Valid()
    ensures hashed.None? ==> reply.status == 500 && unchanged(db)
    ensures hashed.Some? && FindUserByEmail(old(db.users), email).Some? ==>
      reply == Reply(409, "Email already registered") && unchanged(db)
    ensures hashed.Some? && FindUserByEmail(old(db.users), email).None? ==>
      var nu := NewUser(old(db.nextId), name, email, hashed.value, role, emailVerified);
      if !emailVerified then
        reply == Reply(400, "Please verify your email before registering") && unchanged(db)
      else if nu.None? then reply.status == 500 && unchanged(db)
      else reply == Reply(200, "User registered successfully")
           && db.users == old(db.users) + [nu.value] && db.nextId == old(db.nextId) + 1
  {
    if hashed.None? {
      return Reply(500, "Cannot register user Error in Register");
    }
    if FindUserByEmail(db.users, email).Some? {
      return Reply(409, "Email already registered");
    }
    if !emailVerified {
      return Reply(400, "Please verify your email before registering");
    }
    var nu := NewUser(db.nextId, name, email, hashed.value, role, emailVerified);
    if nu.None? {
      return Reply(500, "Cannot register user Error in Register ValidationError");
    }
    var u := nu.value;
    OkForLargerNext(db, db.nextId + 1);
    Text.LowerIdempotent(email);
    assert UsersOk(db.users + [u], db.nextId + 1);
    db.users := db.users + [u];
    db.nextId := db.nextId + 1;
    reply := Reply(200, "User registered successfully");
  }

  /** Two addresses that differ only in ASCII case cannot both be registered:
      the lookup lower-cases the query as the stored addresses are. */
  lemma RegisteredEmailBlocksCaseVariant(us: seq<User>, i: nat, email: string)
    requires LowercaseEmails(us) && i < |us|
    requires Text.Lower(email) == Text.Lower(us[i].email)
    ensures FindUserByEmail(us, email).Some?
  {
  }

  // ---- sessions ----

  /** POST /login. `password` is None when the body has none; `compare` stands
      for bcrypt's comparison of a password with a stored hash, which rejects
      an absent password, so the catch answers 500; `token` is the signed
      session token. */
  method LoginUser(db: Db, email: string, password: Option<string>, compare: (string, string) -> bool, token: string)
    returns (reply: Reply)
    requires db.Valid()
    modifies db`users
    ensures db.Valid()
    ensures FindUserByEmail(old(db.users), email).None? ==> reply == Reply(404, "Invalid email") && unchanged(db)
    ensures FindUserByEmail(old(db.users), email).Some? ==>
      var i := FindUserByEmail(old(db.users), email).value;
      if password.None? then reply.status == 500 && unchanged(db)
      else if !compare(password.value, old(db.users)[i].passwordHash) then
        reply == Reply(404, "Invalid Password") && unchanged(db)
      else reply.status == 200 && db.users == old(db.users)[i := old(db.users)[i].(token := Some(token))]
  {
    var i := FindUserByEmail(db.users, email);
    if i.None? {
      return Reply(404, "Invalid email");
    }
    var user := db.users[i.value];
    if password.None? {
      return Reply(500, "Cannot Login user Error in Login Error: data and hash arguments required");
    }
    if !compare(password.value, user.passwordHash) {
      return Reply(404, "Invalid Password");
    }
    UsersOkUpdate(db.users, db.nextId, i.value, user.(token := Some(token)));
    db.users := db.users[i.value := user.(token := Some(token))];
    reply := Reply(200, "User LoggedIn Successfully");
  }

  /** POST /logout: the stored token is cleared. */
  method LogoutUser(db: Db, userId: Id) returns (reply: Reply)
    requires db.Valid()
    modifies db`users
    ensures db.Valid()
    ensures FindUser(old(db.users), userId).None? ==> reply == Reply(404, "User not found") && unchanged(db)
    ensures FindUser(old(db.users), userId).Some? ==>
      var i := FindUser(old(db.users), userId).value;
      reply == Reply(200, "User LoggedOut Successfully")
      && db.users == old(db.users)[i := old(db.users)[i].(token := None)]
  {
    var i := FindUser(db.users, userId);
    if i.None? {
      return Reply(404, "User not found");
    }
    UsersOkUpdate(db.users, db.nextId, i.value, db.users[i.value].(token := None));
    db.users := db.users[i.value := db.users[i.value].(token := None)];
    reply := Reply(200, "User LoggedOut Successfully");
  }

  // ---- the email OTP store ----

  /** Ten minutes, in milliseconds. */
  const OtpLifetime: int := 10 * 60 * 1000

  function SameEmail(email: string): OtpRecord -> bool {
    (r: OtpRecord) => r.email == email
  }

  function OtherEmail(email: string): OtpRecord -> bool {
    (r: OtpRecord) => r.email != email
  }

  /** `EmailOtp.find({ email })`. */
  function OtpsFor(rs: seq<OtpRecord>, email: string): (r: seq<OtpRecord>)
    ensures forall k :: 0 <= k < |r| ==> r[k] in rs && r[k].email == email
    ensures forall k :: 0 <= k < |rs| && rs[k].email == email ==> rs[k] in r
  {
    Filter(rs, SameEmail(email))
  }

  /** `EmailOtp.deleteMany({ email })`. */
  function WithoutEmail(rs: seq<OtpRecord>, email: string): (r: seq<OtpRecord>)
    ensures forall k :: 0 <= k < |r| ==> r[k] in rs && r[k].email != email
    ensures forall k :: 0 <= k < |rs| && rs[k].email != email ==> rs[k] in r
  {
    Filter(rs, OtherEmail(email))
  }

  /** The store after a send: the old codes for the address are deleted and
      one new record, valid for ten minutes from `now`, is inserted. */
  function Issue(rs: seq<OtpRecord>, email: string, otp: string, now: int): (r: seq<OtpRecord>)
    ensures |r| >= 1 && r[|r| - 1] == OtpRecord(email, otp, now + OtpLifetime)
    ensures r[..|r| - 1] == WithoutEmail(rs, email)
  {
    WithoutEmail(rs, email) + [OtpRecord(email, otp, now + OtpLifetime)]
  }

  /** After a deletion no record for the address is left. */
  lemma WithoutEmailClears(rs: seq<OtpRecord>, email: string)
    ensures OtpsFor(WithoutEmail(rs, email), email) == []
  {
    FilterNone(WithoutEmail(rs, email), SameEmail(email));
  }

  /** A deletion for one address leaves every other address's records, in order. */
  lemma WithoutEmailKeepsOthers(rs: seq<OtpRecord>, email: string, other: string)
    requires other != email
    ensures OtpsFor(WithoutEmail(rs, email), other) == OtpsFor(rs, other)
  {
    FilterFilter(rs, SameEmail(other), OtherEmail(email));
  }

  /** After a send exactly one record exists for the address: the new one. */
  lemma IssueLeavesOne(rs: seq<OtpRecord>, email: string, otp: string, now: int)
    ensures OtpsFor(Issue(rs, email, otp, now), email) == [OtpRecord(email, otp, now + OtpLifetime)]
  {
    var rec := OtpRecord(email, otp, now + OtpLifetime);
    FilterAppend(WithoutEmail(rs, email), [rec], SameEmail(email));
    WithoutEmailClears(rs, email);
    assert [rec][..0] == [];
  }

  /** A send for one address does not touch any other address's records. */
  lemma IssueKeepsOthers(rs: seq<OtpRecord>, email: string, otp: string, now: int, other: string)
    requires other != email
    ensures OtpsFor(Issue(rs, email, otp, now), other) == OtpsFor(rs, other)
  {
    var rec := OtpRecord(email, otp, now + OtpLifetime);
    FilterAppend(WithoutEmail(rs, email), [rec], SameEmail(other));
    WithoutEmailKeepsOthers(rs, email, other);
    assert [rec][..0] == [];
  }

  /** POST /send-email-otp. The store is rewritten before the mail is sent, so a
      delivery failure (`mailOk` false) answers 500 with the new code stored.
      An empty `otp` fails the `required` validator of `EmailOtp.create` after
      the delete, so the address is left with no code and the reply is 500. */
  method SendEmailOtp(db: Db, email: string, otp: string, now: int, mailOk: bool) returns (reply: Reply)
    requires db.Valid()
    modifies db`otps
    ensures db.Valid()
    ensures email == "" ==> reply == Reply(400, "Email is required") && unchanged(db)
    ensures email != "" && otp == "" ==>
      db.otps == WithoutEmail(old(db.otps), email) && reply == Reply(500, "Failed to send OTP")
    ensures email != "" && otp != "" ==>
      db.otps == Issue(old(db.otps), email, otp, now)
      && reply == (if mailOk then Reply(200, "OTP sent to email") else Reply(500, "Failed to send OTP"))
  {
    if email == "" {
      return Reply(400, "Email is required");
    }
    db.otps := WithoutEmail(db.otps, email);
    if otp == "" {
      return Reply(500, "Failed to send OTP");
    }
    db.otps := db.otps + [OtpRecord(email, otp, now + OtpLifetime)];
    if !mailOk {
      return Reply(500, "Failed to send OTP");
    }
    reply := Reply(200, "OTP sent to email");
  }

  /** `EmailOtp.findOne({ email, otp })`. */
  function FindOtp(rs: seq<OtpRecord>, email: string, otp: string): (r: Option<nat>)
    ensures r.Some? ==> r.value < |rs| && rs[r.value].email == email && rs[r.value].otp == otp
    ensures r.None? <==> forall k :: 0 <= k < |rs| ==> rs[k].email != email || rs[k].otp != otp
  {
    FirstIndex(rs, (r: OtpRecord) => r.email == email && r.otp == otp)
  }

  /** POST /verify-email-otp. An expired code is reported and left in the store;
      a valid one removes every code for the address. */
  method VerifyEmailOtp(db: Db, email: string, otp: string, now: int) returns (reply: Reply)
    requires db.Valid()
    modifies db`otps
    ensures db.Valid()
    ensures email == "" || otp == "" ==> reply == Reply(400, "Email and OTP required") && unchanged(db)
    ensures email != "" && otp != "" ==>
      var i := FindOtp(old(db.otps), email, otp);
      if i.None? then reply == Reply(400, "Invalid OTP") && unchanged(db)
      else if old(db.otps)[i.value].expiresAt < now then reply == Reply(400, "OTP expired") && unchanged(db)
      else reply == Reply(200, "Email verified successfully") && db.otps == WithoutEmail(old(db.otps), email)
  {
    if email == "" || otp == "" {
      return Reply(400, "Email and OTP required");
    }
    var i := FindOtp(db.otps, email, otp);
    if i.None? {
      return Reply(400, "Invalid OTP");
    }
    if db.otps[i.value].expiresAt < now {
      return Reply(400, "OTP expired");
    }
    db.otps := WithoutEmail(db.otps, email);
    reply := Reply(200, "Email verified successfully");
  }

  /** The code just sent is accepted until ten minutes have passed, and
      every code sent before it for the same address is rejected. */
  lemma IssuedCodeVerifies(rs: seq<OtpRecord>, email: string, otp: string, now: int, later: int, stale: string)
    requires stale != otp
    ensures var rs' := Issue(rs, email, otp, now);
      && FindOtp(rs', email, otp) == Some(|rs'| - 1)
      && (rs'[|rs'| - 1].expiresAt < later <==> later > now + OtpLifetime)
      && FindOtp(rs', email, stale).None?
  {
    var rs' := Issue(rs, email, otp, now);
    assert forall k :: 0 <= k < |rs'| - 1 ==> rs'[k].email != email by {
      forall k | 0 <= k < |rs'| - 1
        ensures rs'[k].email != email
      {
        assert rs'[k] == WithoutEmail(rs, email)[k];
      }
    }
  }
}
