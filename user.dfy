/** app/routers/user.py: password change for the current user, and the
    password-reset tokens (password_tokens): request, reset, validate. The
    reset email is a no-op here; verify_token_validity is taken to succeed. */
module UserRouter {
  import opened Wrappers
  import opened Models
  import opened Crypto
  import opened Database
  import opened Auth

  /** The one message request_password_reset answers with, whether or not
      the email belongs to a user. */
  const ResetSentMessage: string := "If a user with this email exists, a reset link has been sent."

  /** The reply of request_password_reset; the known-email branch also
      returns the token. */
  datatype ResetReply = ResetReply(message: string, token: Option<string>)

  // ---------------------------------------------------------------------
  // Queries

  predicate ResetTokenTaken(tokens: map<Id, ResetToken>, token: string) {
    exists id :: id in tokens && tokens[id].token == token
  }

  /** SELECT ... WHERE token = :token AND expires_at > now, scalar_one_or_none. */
  function LiveResetToken(tokens: map<Id, ResetToken>, token: string, now: Time): (r: Option<Id>)
    requires ResetTokensUnique(tokens)
    ensures r.Some? ==> r.value in tokens && tokens[r.value].token == token && tokens[r.value].expiresAt > now
    ensures r.None? ==> forall id :: id in tokens && tokens[id].token == token ==> tokens[id].expiresAt <= now
  {
    if exists id :: id in tokens && tokens[id].token == token && tokens[id].expiresAt > now then
      var id :| id in tokens && tokens[id].token == token && tokens[id].expiresAt > now;
      Some(id)
    else
      None
  }

  // ---------------------------------------------------------------------
  // Specifications

  /** change_password: three checks in order before any write, then the
      current user's hash is replaced. A missing first password makes len()
      raise a TypeError the handler does not catch. */
  function ChangePasswordSpec(s: State, uid: Id, password1: Option<string>, password2: Option<string>, salt: nat): Outcome<()>
    requires uid in s.users
  {
    if password1.None? then Outcome(s, Err(InternalError))
    else if |password1.value| < 8 then Outcome(s, Err(WeakPassword))
    else if password1 != password2 then Outcome(s, Err(PasswordMismatch))
    else if VerifyPassword(password1.value, s.users[uid].passwordHash) then Outcome(s, Err(SamePassword))
    else
      var user := s.users[uid];
      Outcome(s.(users := s.users[uid := user.(passwordHash := HashPassword(password1.value, salt))]), Ok(()))
  }

  /** request_password_reset: an unknown email changes nothing; a known one
      gets one more reset row expiring 30 minutes from now. A token that is
      already in use makes the commit fail. */
  function RequestPasswordResetSpec(s: State, email: string, token: string, now: Time): Outcome<ResetReply>
    requires Consistent(s)
  {
    match UserByEmail(s.users, email)
    case None => Outcome(s, Ok(ResetReply(ResetSentMessage, None)))
    case Some(uid) =>
      if ResetTokenTaken(s.resetTokens, token) then Outcome(s, Err(UniqueViolation))
      else
        Outcome(s.(resetTokens := s.resetTokens[s.nextResetId := ResetToken(uid, token, now + TokenTtl, now)],
                   nextResetId := s.nextResetId + 1),
                Ok(ResetReply(ResetSentMessage, Some(token))))
  }

  /** reset_password: the confirmation is checked before any lookup; a live
      token's owner gets the new hash and that token row is deleted, in one
      commit. */
  function ResetPasswordSpec(s: State, token: string, newPassword: string, confirmPassword: string, salt: nat, now: Time): Outcome<()>
    requires Consistent(s)
  {
    if newPassword != confirmPassword then Outcome(s, Err(PasswordMismatch))
    else match LiveResetToken(s.resetTokens, token, now)
      case None => Outcome(s, Err(TokenExpiredOrInvalid))
      case Some(rid) =>
        var uid := s.resetTokens[rid].userId;
        if uid !in s.users then Outcome(s, Err(UserNotFound))
        else
          var user := s.users[uid];
          Outcome(s.(users := s.users[uid := user.(passwordHash := HashPassword(newPassword, salt))],
                     resetTokens := s.resetTokens - {rid}),
                  Ok(()))
  }

  /** validate_reset_token: the owner of a live token, read only. */
  function ValidateResetToken(s: State, token: string, now: Time): (r: Result<Id>)
    requires ResetTokensUnique(s.resetTokens)
    ensures r.Ok? <==> exists id :: id in s.resetTokens && s.resetTokens[id].token == token && s.resetTokens[id].expiresAt > now
    ensures r.Ok? ==> exists id :: id in s.resetTokens && s.resetTokens[id].token == token && s.resetTokens[id].userId == r.value
    ensures r.Err? ==> r.error == TokenExpiredOrInvalid
  {
    match LiveResetToken(s.resetTokens, token, now)
    case None => Err(TokenExpiredOrInvalid)
    case Some(rid) => Ok(s.resetTokens[rid].userId)
  }

  // ---------------------------------------------------------------------
  // The handlers

  method ChangePassword(db: Db, uid: Id, password1: Option<string>, password2: Option<string>, salt: nat) returns (r: Result<()>)
    requires db.Valid() && uid in db.users
    modifies db
    ensures db.Valid()
    ensures Outcome(db.Abs(), r) == ChangePasswordSpec(old(db.Abs()), uid, password1, password2, salt)
  {
    if password1.None? {
      return Err(InternalError);
    }
    var p := password1.value;
    if |p| < 8 {
      return Err(WeakPassword);
    }
    if password1 != password2 {
      return Err(PasswordMismatch);
    }
    if VerifyPassword(p, db.users[uid].passwordHash) {
      return Err(SamePassword);
    }
    var hashed := HashPassword(p, salt);
    var user := db.users[uid];
    db.users := db.users[uid := user.(passwordHash := hashed)];
    r := Ok(());
  }

  method RequestPasswordReset(db: Db, email: string, token: string, now: Time) returns (r: Result<ResetReply>)
    requires db.Valid()
    modifies db
    ensures db.Valid()
    ensures Outcome(db.Abs(), r) == RequestPasswordResetSpec(old(db.Abs()), email, token, now)
  {
    RequestPasswordResetConsistent(db.Abs(), email, token, now);
    var user := UserByEmail(db.users, email);
    if user.None? {
      return Ok(ResetReply(ResetSentMessage, None));
    }
    if ResetTokenTaken(db.resetTokens, token) {
      return Err(UniqueViolation);
    }
    db.resetTokens := db.resetTokens[db.nextResetId := ResetToken(user.value, token, now + TokenTtl, now)];
    db.nextResetId := db.nextResetId + 1;
    // send_password_reset_email: delivery failures are swallowed
    r := Ok(ResetReply(ResetSentMessage, Some(token)));
  }

  method ResetPassword(db: Db, token: string, newPassword: string, confirmPassword: string, salt: nat, now: Time) returns (r: Result<()>)
    requires db.Valid()
    modifies db
    ensures db.Valid()
    ensures Outcome(db.Abs(), r) == ResetPasswordSpec(old(db.Abs()), token, newPassword, confirmPassword, salt, now)
  {
    ResetPasswordConsistent(db.Abs(), token, newPassword, confirmPassword, salt, now);
    if newPassword != confirmPassword {
      return Err(PasswordMismatch);
    }
    var found := LiveResetToken(db.resetTokens, token, now);
    if found.None? {
      return Err(TokenExpiredOrInvalid);
    }
    var uid := db.resetTokens[found.value].userId;
    if uid !in db.users {
      return Err(UserNotFound);
    }
    var user := db.users[uid];
    db.users := db.users[uid := user.(passwordHash := HashPassword(newPassword, salt))];
    db.resetTokens := db.resetTokens - {found.value};
    r := Ok(());
  }

  // ---------------------------------------------------------------------
  // Properties of change_password

  /** The checks come in order and none of them writes. */
  lemma ChangePasswordChecks(s: State, uid: Id, password1: Option<string>, password2: Option<string>, salt: nat)
    requires uid in s.users
    ensures var o := ChangePasswordSpec(s, uid, password1, password2, salt);
      && (o.reply.Err? ==> o.state == s)
      && (password1.Some? && |password1.value| < 8 ==> o.reply == Err(WeakPassword))
      && (password1.Some? && |password1.value| >= 8 && password1 != password2 ==> o.reply == Err(PasswordMismatch))
      && ((password1.Some? && |password1.value| >= 8 && password1 == password2
            && VerifyPassword(password1.value, s.users[uid].passwordHash)) ==> o.reply == Err(SamePassword))
  {
  }

  /** On success only the current user's hash changes, and it now verifies
      the new password and no longer the old one. */
  lemma ChangePasswordSuccess(s: State, uid: Id, password1: Option<string>, password2: Option<string>, salt: nat, oldPassword: string)
    requires uid in s.users
    requires ChangePasswordSpec(s, uid, password1, password2, salt).reply.Ok?
    requires VerifyPassword(oldPassword, s.users[uid].passwordHash)
    ensures var s' := ChangePasswordSpec(s, uid, password1, password2, salt).state;
      && s' == s.(users := s'.users)
      && s'.users.Keys == s.users.Keys
      && (forall id :: id in s.users && id != uid ==> s'.users[id] == s.users[id])
      && s'.users[uid].email == s.users[uid].email
      && VerifyPassword(password1.value, s'.users[uid].passwordHash)
      && !VerifyPassword(oldPassword, s'.users[uid].passwordHash)
  {
  }

  lemma ChangePasswordConsistent(s: State, uid: Id, password1: Option<string>, password2: Option<string>, salt: nat)
    requires Consistent(s) && uid in s.users
    ensures Consistent(ChangePasswordSpec(s, uid, password1, password2, salt).state)
  {
    var s' := ChangePasswordSpec(s, uid, password1, password2, salt).state;
    assert forall id :: id in s'.users ==> s'.users[id].email == s.users[id].email;
  }

  // ---------------------------------------------------------------------
  // Properties of request_password_reset

  /** Anti-enumeration of the message: both branches answer with the same
      text, and an unknown email changes nothing. */
  lemma RequestResetSameMessage(s: State, email: string, token: string, now: Time)
    requires Consistent(s)
    ensures var o := RequestPasswordResetSpec(s, email, token, now);
      && (o.reply.Ok? ==> o.reply.value.message == ResetSentMessage)
      && ((forall id :: id in s.users ==> s.users[id].email != email) ==>
            o == Outcome(s, Ok(ResetReply(ResetSentMessage, None))))
  {
  }

  /** A known email gets exactly one new reset row for its user, expiring 30
      minutes from now; the user's earlier tokens stay. */
  lemma RequestResetKnown(s: State, email: string, token: string, now: Time, uid: Id)
    requires Consistent(s)
    requires uid in s.users && s.users[uid].email == email
    requires !ResetTokenTaken(s.resetTokens, token)
    ensures var o := RequestPasswordResetSpec(s, email, token, now);
      && o.reply == Ok(ResetReply(ResetSentMessage, Some(token)))
      && s.nextResetId !in s.resetTokens
      && o.state.resetTokens == s.resetTokens[s.nextResetId := ResetToken(uid, token, now + TokenTtl, now)]
      && o.state == s.(resetTokens := o.state.resetTokens, nextResetId := o.state.nextResetId)
  {
  }

  lemma RequestPasswordResetConsistent(s: State, email: string, token: string, now: Time)
    requires Consistent(s)
    ensures Consistent(RequestPasswordResetSpec(s, email, token, now).state)
  {
  }

  // ---------------------------------------------------------------------
  // Properties of reset_password

  /** Differing passwords fail before any lookup, and a token that is absent
      or expires at or before now fails; neither changes anything. */
  lemma ResetPasswordRefusals(s: State, token: string, newPassword: string, confirmPassword: string, salt: nat, now: Time)
    requires Consistent(s)
    ensures newPassword != confirmPassword ==>
      ResetPasswordSpec(s, token, newPassword, confirmPassword, salt, now) == Outcome(s, Err(PasswordMismatch))
    ensures (newPassword == confirmPassword &&
      forall id :: id in s.resetTokens && s.resetTokens[id].token == token ==> s.resetTokens[id].expiresAt <= now) ==>
      ResetPasswordSpec(s, token, newPassword, confirmPassword, salt, now) == Outcome(s, Err(TokenExpiredOrInvalid))
  {
  }

  /** A successful reset replaces the owner's hash and deletes that token row
      alone; the user's other tokens remain. */
  lemma ResetPasswordSuccess(s: State, token: string, newPassword: string, salt: nat, now: Time)
    requires Consistent(s)
    requires ResetPasswordSpec(s, token, newPassword, newPassword, salt, now).reply.Ok?
    ensures var s' := ResetPasswordSpec(s, token, newPassword, newPassword, salt, now).state;
      exists rid ::
        && rid in s.resetTokens && s.resetTokens[rid].token == token && s.resetTokens[rid].expiresAt > now
        && s'.resetTokens == s.resetTokens - {rid}
        && s'.users == s.users[s.resetTokens[rid].userId :=
             User(s.users[s.resetTokens[rid].userId].email, HashPassword(newPassword, salt))]
        && s' == s.(users := s'.users, resetTokens := s'.resetTokens)
  {
    var rid := LiveResetToken(s.resetTokens, token, now).value;
    assert rid in s.resetTokens;
  }

  lemma ResetPasswordConsistent(s: State, token: string, newPassword: string, confirmPassword: string, salt: nat, now: Time)
    requires Consistent(s)
    ensures Consistent(ResetPasswordSpec(s, token, newPassword, confirmPassword, salt, now).state)
  {
    var s' := ResetPasswordSpec(s, token, newPassword, confirmPassword, salt, now).state;
    assert forall id :: id in s'.users ==> id in s.users && s'.users[id].email == s.users[id].email;
  }

  /** Single use: after a successful reset the same token fails. */
  lemma ResetPasswordSingleUse(s: State, token: string, newPassword: string, salt: nat, now: Time,
                               password2: string, salt2: nat, later: Time)
    requires Consistent(s)
    requires ResetPasswordSpec(s, token, newPassword, newPassword, salt, now).reply.Ok?
    ensures var s' := ResetPasswordSpec(s, token, newPassword, newPassword, salt, now).state;
      Consistent(s') && ResetPasswordSpec(s', token, password2, password2, salt2, later).reply == Err(TokenExpiredOrInvalid)
  {
    ResetPasswordConsistent(s, token, newPassword, newPassword, salt, now);
    var rid := LiveResetToken(s.resetTokens, token, now).value;
    var s' := ResetPasswordSpec(s, token, newPassword, newPassword, salt, now).state;
    assert forall id :: id in s'.resetTokens ==> id in s.resetTokens && id != rid && s'.resetTokens[id] == s.resetTokens[id];
  }

  /** After a reset the old password no longer logs in. */
  lemma OldPasswordRejectedAfterReset(s: State, token: string, newPassword: string, salt: nat, now: Time,
                                      oldPassword: string, cfg: Config, later: Time)
    requires Consistent(s)
    requires ResetPasswordSpec(s, token, newPassword, newPassword, salt, now).reply.Ok?
    requires oldPassword != newPassword
    requires exists rid :: rid in s.resetTokens && s.resetTokens[rid].token == token && s.resetTokens[rid].expiresAt > now
    ensures var s' := ResetPasswordSpec(s, token, newPassword, newPassword, salt, now).state;
      var email := s.users[s.resetTokens[LiveResetToken(s.resetTokens, token, now).value].userId].email;
      Consistent(s') && Login(s', email, oldPassword, cfg, later) == Err(InvalidCredentials)
  {
    ResetPasswordConsistent(s, token, newPassword, newPassword, salt, now);
    var rid := LiveResetToken(s.resetTokens, token, now).value;
    var uid := s.resetTokens[rid].userId;
    var s' := ResetPasswordSpec(s, token, newPassword, newPassword, salt, now).state;
    assert s'.users[uid].passwordHash.preimage == newPassword;
    assert forall id :: id in s'.users && s'.users[id].email == s.users[uid].email ==> id == uid;
  }

  /** validate_reset_token reads and never consumes: a valid token stays valid. */
  lemma ValidateThenReset(s: State, token: string, newPassword: string, salt: nat, now: Time)
    requires Consistent(s)
    requires ValidateResetToken(s, token, now).Ok?
    ensures ResetPasswordSpec(s, token, newPassword, newPassword, salt, now).reply.Ok?
  {
  }
}
