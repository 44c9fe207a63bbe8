/** app/email_verification.py: the pending-registration table (temp_users)
    and the promotion of a pending row into users. Sending the verification
    email is a no-op here: send_email swallows its own failures. */
module EmailVerification {
  import opened Wrappers
  import opened Models
  import opened Crypto
  import opened Database

  // ---------------------------------------------------------------------
  // Queries

  /** The rows left by DELETE FROM temp_users WHERE email = :email. */
  function OtherEmails(temps: map<Id, TempUser>, email: string): (r: map<Id, TempUser>)
    ensures forall id :: id in r <==> id in temps && temps[id].email != email
    ensures forall id :: id in r ==> r[id] == temps[id]
  {
    map id | id in temps && temps[id].email != email :: temps[id]
  }

  predicate TempTokenTaken(temps: map<Id, TempUser>, token: string) {
    exists id :: id in temps && temps[id].token == token
  }

  /** SELECT ... WHERE token = :token AND expires_at > now, scalar_one_or_none. */
  function LivePending(temps: map<Id, TempUser>, token: string, now: Time): (r: Option<Id>)
    requires TempTokensUnique(temps)
    ensures r.Some? ==> r.value in temps && temps[r.value].token == token && temps[r.value].expiresAt > now
    ensures r.None? ==> forall id :: id in temps && temps[id].token == token ==> temps[id].expiresAt <= now
  {
    if exists id :: id in temps && temps[id].token == token && temps[id].expiresAt > now then
      var id :| id in temps && temps[id].token == token && temps[id].expiresAt > now;
      Some(id)
    else
      None
  }

  // ---------------------------------------------------------------------
  // Specifications of the two operations

  /** create_temp_user: delete the email's pending rows, insert a new one that
      expires 30 minutes from now, commit. A token already used by a remaining
      row makes the commit fail, and nothing changes. */
  function CreateTempUserSpec(s: State, email: string, hash: Digest, token: string, now: Time): Outcome<string> {
    var kept := OtherEmails(s.tempUsers, email);
    if TempTokenTaken(kept, token) then
      Outcome(s, Err(UniqueViolation))
    else
      Outcome(s.(tempUsers := kept[s.nextTempId := TempUser(email, hash, token, now + TokenTtl, now)],
                 nextTempId := s.nextTempId + 1),
              Ok(token))
  }

  /** verify_token_and_register: find the live pending row, refuse an email
      that is already a user, else add the user and delete the pending row in
      one commit. Every failure rolls back. */
  function VerifyTokenAndRegisterSpec(s: State, token: string, now: Time): Outcome<()>
    requires Consistent(s)
  {
    match LivePending(s.tempUsers, token, now)
    case None => Outcome(s, Err(TokenExpiredOrInvalid))
    case Some(tid) =>
      var pending := s.tempUsers[tid];
      if UserByEmail(s.users, pending.email).Some? then
        Outcome(s, Err(EmailAlreadyRegistered))
      else
        Outcome(s.(users := s.users[s.nextUserId := User(pending.email, pending.passwordHash)],
                   nextUserId := s.nextUserId + 1,
                   tempUsers := s.tempUsers - {tid}),
                Ok(()))
  }

  // ---------------------------------------------------------------------
  // The handlers, step by step on the session

  method CreateTempUser(db: Db, email: string, hash: Digest, token: string, now: Time) returns (r: Result<string>)
    requires db.Valid()
    modifies db
    ensures db.Valid()
    ensures Outcome(db.Abs(), r) == CreateTempUserSpec(old(db.Abs()), email, hash, token, now)
  {
    CreateTempUserConsistent(db.Abs(), email, hash, token, now);
    var before := db.tempUsers;
    // DELETE FROM temp_users WHERE email = :email
    db.tempUsers := OtherEmails(db.tempUsers, email);
    // the INSERT is flushed at commit, where temp_users.token may reject it
    if TempTokenTaken(db.tempUsers, token) {
      db.tempUsers := before;
      return Err(UniqueViolation);
    }
    db.tempUsers := db.tempUsers[db.nextTempId := TempUser(email, hash, token, now + TokenTtl, now)];
    db.nextTempId := db.nextTempId + 1;
    return Ok(token);
  }

  method VerifyTokenAndRegister(db: Db, token: string, now: Time) returns (r: Result<()>)
    requires db.Valid()
    modifies db
    ensures db.Valid()
    ensures Outcome(db.Abs(), r) == VerifyTokenAndRegisterSpec(old(db.Abs()), token, now)
  {
    VerifyConsistent(db.Abs(), token, now);
    var found := LivePending(db.tempUsers, token, now);
    if found.None? {
      return Err(TokenExpiredOrInvalid);
    }
    var pending := db.tempUsers[found.value];
    if UserByEmail(db.users, pending.email).Some? {
      return Err(EmailAlreadyRegistered);
    }
    db.users := db.users[db.nextUserId := User(pending.email, pending.passwordHash)];
    db.nextUserId := db.nextUserId + 1;
    db.tempUsers := db.tempUsers - {found.value};
    return Ok(());
  }

  // ---------------------------------------------------------------------
  // Properties of create_temp_user

  lemma CreateTempUserConsistent(s: State, email: string, hash: Digest, token: string, now: Time)
    requires Consistent(s)
    ensures Consistent(CreateTempUserSpec(s, email, hash, token, now).state)
  {
    var o := CreateTempUserSpec(s, email, hash, token, now);
    if o.reply.Ok? {
      var t := o.state.tempUsers;
      assert TempTokensUnique(t) by {
        forall a, b | a in t && b in t && t[a].token == t[b].token ensures a == b {
          if a != s.nextTempId && b != s.nextTempId {
            assert s.tempUsers[a].token == s.tempUsers[b].token;
          }
        }
      }
    }
  }

  /** After a successful create_temp_user the email has exactly one pending
      row: the new one, holding the hash, the returned token and an expiry 30
      minutes after now. */
  lemma {:induction false} CreateTempUserPending(s: State, email: string, hash: Digest, token: string, now: Time)
    requires Consistent(s)
    requires CreateTempUserSpec(s, email, hash, token, now).reply.Ok?
    ensures var o := CreateTempUserSpec(s, email, hash, token, now);
      && o.reply.value == token
      && s.nextTempId !in s.tempUsers
      && s.nextTempId in o.state.tempUsers
      && o.state.tempUsers[s.nextTempId] == TempUser(email, hash, token, now + TokenTtl, now)
      && forall id :: id in o.state.tempUsers && o.state.tempUsers[id].email == email ==> id == s.nextTempId
  {
  }

  /** create_temp_user touches no pending row of another email and no other
      table, and a failed commit changes nothing at all. */
  lemma CreateTempUserFrame(s: State, email: string, hash: Digest, token: string, now: Time)
    requires Consistent(s)
    ensures var o := CreateTempUserSpec(s, email, hash, token, now);
      && o.state == s.(tempUsers := o.state.tempUsers, nextTempId := o.state.nextTempId)
      && (forall id :: id in s.tempUsers && s.tempUsers[id].email != email ==>
            id in o.state.tempUsers && o.state.tempUsers[id] == s.tempUsers[id])
      && (o.reply.Err? ==> o.state == s)
  {
  }

  /** Supersession: once a new pending row for the email is committed, an
      earlier token for that email no longer verifies. */
  lemma Supersession(s: State, email: string, hash: Digest, token: string, now: Time, earlier: string, later: Time)
    requires Consistent(s)
    requires exists id :: id in s.tempUsers && s.tempUsers[id].email == email && s.tempUsers[id].token == earlier
    requires earlier != token
    requires CreateTempUserSpec(s, email, hash, token, now).reply.Ok?
    ensures var s' := CreateTempUserSpec(s, email, hash, token, now).state;
      Consistent(s') && VerifyTokenAndRegisterSpec(s', earlier, later) == Outcome(s', Err(TokenExpiredOrInvalid))
  {
    CreateTempUserConsistent(s, email, hash, token, now);
  }

  // ---------------------------------------------------------------------
  // Properties of verify_token_and_register

  lemma VerifyConsistent(s: State, token: string, now: Time)
    requires Consistent(s)
    ensures Consistent(VerifyTokenAndRegisterSpec(s, token, now).state)
  {
  }

  /** Only a row with this token and expires_at strictly after now can verify;
      a row that expires exactly now is refused, and a refusal changes nothing. */
  lemma VerifyNeedsLiveToken(s: State, token: string, now: Time)
    requires Consistent(s)
    requires forall id :: id in s.tempUsers && s.tempUsers[id].token == token ==> s.tempUsers[id].expiresAt <= now
    ensures VerifyTokenAndRegisterSpec(s, token, now) == Outcome(s, Err(TokenExpiredOrInvalid))
  {
  }

  /** An email that is already a user is refused and the rollback leaves
      every table as it was. */
  lemma VerifyRegisteredEmail(s: State, token: string, now: Time, tid: Id)
    requires Consistent(s)
    requires tid in s.tempUsers && s.tempUsers[tid].token == token && s.tempUsers[tid].expiresAt > now
    requires exists u :: u in s.users && s.users[u].email == s.tempUsers[tid].email
    ensures VerifyTokenAndRegisterSpec(s, token, now) == Outcome(s, Err(EmailAlreadyRegistered))
  {
  }

  /** A successful verification adds exactly one user with the pending email
      and hash, deletes exactly that pending row, and changes nothing else. */
  lemma VerifySuccess(s: State, token: string, now: Time)
    requires Consistent(s)
    requires VerifyTokenAndRegisterSpec(s, token, now).reply.Ok?
    ensures var s' := VerifyTokenAndRegisterSpec(s, token, now).state;
      exists tid ::
        && tid in s.tempUsers && s.tempUsers[tid].token == token && s.tempUsers[tid].expiresAt > now
        && s.nextUserId !in s.users
        && s'.users == s.users[s.nextUserId := User(s.tempUsers[tid].email, s.tempUsers[tid].passwordHash)]
        && s'.tempUsers == s.tempUsers - {tid}
        && s' == s.(users := s'.users, tempUsers := s'.tempUsers, nextUserId := s'.nextUserId)
  {
    var tid := LivePending(s.tempUsers, token, now).value;
    assert tid in s.tempUsers;
  }

  /** Single use: a token that has verified once never verifies again. */
  lemma VerifySingleUse(s: State, token: string, now: Time, later: Time)
    requires Consistent(s)
    requires VerifyTokenAndRegisterSpec(s, token, now).reply.Ok?
    ensures var s' := VerifyTokenAndRegisterSpec(s, token, now).state;
      Consistent(s') && VerifyTokenAndRegisterSpec(s', token, later).reply == Err(TokenExpiredOrInvalid)
  {
    VerifyConsistent(s, token, now);
    var tid := LivePending(s.tempUsers, token, now).value;
    var s' := VerifyTokenAndRegisterSpec(s, token, now).state;
    assert forall id :: id in s'.tempUsers ==> id in s.tempUsers && id != tid && s'.tempUsers[id] == s.tempUsers[id];
  }

  // ---------------------------------------------------------------------
  // Pending rows and users do not share an email, as long as pending rows
  // are only created by register_user.

  predicate NoPendingForUser(s: State) {
    forall t, u :: t in s.tempUsers && u in s.users ==> s.tempUsers[t].email != s.users[u].email
  }

  lemma VerifyKeepsNoPendingForUser(s: State, token: string, now: Time)
    requires Consistent(s) && NoPendingForUser(s)
    ensures NoPendingForUser(VerifyTokenAndRegisterSpec(s, token, now).state)
  {
  }

  /** So in a sequence of requests the "already registered" branch of
      verification is never taken; only concurrent requests could reach it. */
  lemma VerifyNeverFindsUser(s: State, token: string, now: Time)
    requires Consistent(s) && NoPendingForUser(s)
    ensures VerifyTokenAndRegisterSpec(s, token, now).reply != Err(EmailAlreadyRegistered)
  {
  }
}
