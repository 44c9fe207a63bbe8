/** app/routers/auth.py: registration, session tokens (JWT), login and the
    resolution of a bearer token to the acting user. */
module Auth {
  import opened Wrappers
  import opened Models
  import opened Crypto
  import opened Schemas
  import opened Database
  import opened EmailVerification
  import opened Utils

  const AccessTokenExpireMinutes: int := 30
  const AccessTokenTtl: int := AccessTokenExpireMinutes * 60

  // ---------------------------------------------------------------------
  // Claims and signed tokens

  /** A claim value: text ("sub" and the caller's data) or a number ("exp",
      seconds since the epoch, the JWT NumericDate of section 2 of RFC 7519). */
  datatype Claim = Text(text: string) | Number(number: int)

  type Claims = map<string, Claim>

  /** SECRET_KEY and ALGORITHM, read once at start-up. */
  datatype Config = Config(secretKey: string, algorithm: string)

  /** A bearer token. The signature is idealised: a Signed token carries the
      claims with the key and algorithm that signed them, nobody without the
      key can make one, and every other string is Garbled. */
  datatype Jwt = Signed(claims: Claims, key: string, algorithm: string) | Garbled(text: string)

  /** create_access_token: the caller's claims plus "exp" = now + delta, with
      30 minutes when no delta is given. The caller's map is a value and is
      not modified. */
  function CreateAccessToken(data: Claims, expiresDelta: Option<int>, now: Time, cfg: Config): (t: Jwt)
    ensures t.Signed? && t.key == cfg.secretKey && t.algorithm == cfg.algorithm
    ensures t.claims.Keys == data.Keys + {"exp"}
    ensures forall k :: k in data && k != "exp" ==> t.claims[k] == data[k]
    ensures expiresDelta.None? ==> t.claims["exp"] == Number(now + AccessTokenTtl)
    ensures expiresDelta.Some? ==> t.claims["exp"] == Number(now + expiresDelta.value)
  {
    var delta := if expiresDelta.Some? then expiresDelta.value else AccessTokenTtl;
    Signed(data["exp" := Number(now + delta)], cfg.secretKey, cfg.algorithm)
  }

  /** create_access_token as written: `expires_delta or timedelta(minutes=30)`
      also replaces a given zero timedelta, which Python treats as false. */
  function CreateAccessTokenAsWritten(data: Claims, expiresDelta: Option<int>, now: Time, cfg: Config): (t: Jwt)
    ensures t.Signed? && t.key == cfg.secretKey && t.algorithm == cfg.algorithm
    ensures t.claims.Keys == data.Keys + {"exp"}
    ensures forall k :: k in data && k != "exp" ==> t.claims[k] == data[k]
    ensures expiresDelta.None? || expiresDelta == Some(0) ==> t.claims["exp"] == Number(now + AccessTokenTtl)
    ensures expiresDelta.Some? && expiresDelta != Some(0) ==> t.claims["exp"] == Number(now + expiresDelta.value)
  {
    var delta := if expiresDelta.Some? && expiresDelta.value != 0 then expiresDelta.value else AccessTokenTtl;
    Signed(data["exp" := Number(now + delta)], cfg.secretKey, cfg.algorithm)
  }

  /** decode_access_token (and the jwt.decode call of get_current_user): the
      claims of a token signed with this key and algorithm whose "exp", if
      present, is a number not before now (jose allows no leeway by default) and
      whose "sub", if present, is text; None on every other token. */
  function DecodeAccessToken(token: Jwt, cfg: Config, now: Time): (r: Option<Claims>)
    ensures r.Some? ==> token.Signed? && token.key == cfg.secretKey && token.algorithm == cfg.algorithm
    ensures r.Some? ==> r.value == token.claims
    ensures r.Some? ==> "sub" in r.value ==> r.value["sub"].Text?
    ensures r.Some? ==> "exp" in r.value ==> r.value["exp"].Number? && now <= r.value["exp"].number
  {
    match token
    case Garbled(_) => None
    case Signed(claims, key, algorithm) =>
      if key != cfg.secretKey || algorithm != cfg.algorithm then None
      else if "exp" in claims && !(claims["exp"].Number? && now <= claims["exp"].number) then None
      else if "sub" in claims && !claims["sub"].Text? then None
      else Some(claims)
  }

  /** A token this server created decodes to its claims until its expiry,
      inclusive, and to None after it. */
  lemma DecodeCreated(data: Claims, delta: int, now: Time, cfg: Config, later: Time)
    requires "sub" in data ==> data["sub"].Text?
    ensures var t := CreateAccessToken(data, Some(delta), now, cfg);
      DecodeAccessToken(t, cfg, later) == if later <= now + delta then Some(t.claims) else None
  {
  }

  /** A token signed with another key or algorithm never decodes. */
  lemma DecodeForeign(claims: Claims, key: string, algorithm: string, cfg: Config, now: Time)
    requires key != cfg.secretKey || algorithm != cfg.algorithm
    ensures DecodeAccessToken(Signed(claims, key, algorithm), cfg, now) == None
  {
  }

  /** A zero lifetime: as written the token lives 30 minutes; as intended it
      is already expired one second later. Any other delta means the same. */
  lemma ZeroDeltaAsWritten(data: Claims, now: Time, cfg: Config)
    requires "sub" in data ==> data["sub"].Text?
    ensures CreateAccessTokenAsWritten(data, Some(0), now, cfg).claims["exp"] == Number(now + AccessTokenTtl)
    ensures DecodeAccessToken(CreateAccessTokenAsWritten(data, Some(0), now, cfg), cfg, now + 1).Some?
    ensures DecodeAccessToken(CreateAccessToken(data, Some(0), now, cfg), cfg, now + 1) == None
  {
  }

  lemma AsWrittenAgreesOtherwise(data: Claims, delta: Option<int>, now: Time, cfg: Config)
    requires delta != Some(0)
    ensures CreateAccessTokenAsWritten(data, delta, now, cfg) == CreateAccessToken(data, delta, now, cfg)
  {
  }

  // ---------------------------------------------------------------------
  // The "sub" claim: str(user.id) and int(...)

  function DigitChar(d: nat): (c: char)
    requires d < 10
    ensures '0' <= c <= '9' && c as int - '0' as int == d
  {
    ('0' as int + d) as char
  }

  /** str(n) for a non-negative integer. */
  function IntToString(n: nat): (r: string)
    ensures |r| >= 1
    ensures forall i :: 0 <= i < |r| ==> '0' <= r[i] <= '9'
  {
    if n < 10 then [DigitChar(n)] else IntToString(n / 10) + [DigitChar(n % 10)]
  }

  /** The value of a non-empty run of decimal digits. */
  function ParseDigits(s: string): (r: Option<nat>)
    ensures r.Some? <==> |s| >= 1 && forall i :: 0 <= i < |s| ==> '0' <= s[i] <= '9'
  {
    if |s| == 0 || !('0' <= s[|s| - 1] <= '9') then None
    else
      var d := s[|s| - 1] as int - '0' as int;
      if |s| == 1 then Some(d)
      else match ParseDigits(s[..|s| - 1])
        case None => None
        case Some(v) => Some(10 * v + d)
  }

  /** int(s) on text: an optional sign and decimal digits, else a ValueError. */
  function ParseInt(s: string): (r: Option<int>)
    ensures var signed := |s| >= 1 && (s[0] == '-' || s[0] == '+');
      var digits := if signed then s[1..] else s;
      && (r.Some? <==> ParseDigits(digits).Some?)
      && (r.Some? ==> r.value == if signed && s[0] == '-' then -(ParseDigits(digits).value as int) else ParseDigits(digits).value)
  {
    if |s| >= 1 && s[0] == '-' then
      match ParseDigits(s[1..])
      case None => None
      case Some(v) => Some(-(v as int))
    else if |s| >= 1 && s[0] == '+' then
      match ParseDigits(s[1..])
      case None => None
      case Some(v) => Some(v)
    else
      match ParseDigits(s)
      case None => None
      case Some(v) => Some(v)
  }

  lemma {:induction false} ParseDigitsOfIntToString(n: nat)
    ensures ParseDigits(IntToString(n)) == Some(n)
  {
    if n >= 10 {
      ParseDigitsOfIntToString(n / 10);
      var s := IntToString(n);
      assert s[..|s| - 1] == IntToString(n / 10);
    }
  }

  /** int(str(n)) == n */
  lemma ParseIntOfIntToString(n: nat)
    ensures ParseInt(IntToString(n)) == Some(n)
  {
    ParseDigitsOfIntToString(n);
  }

  // ---------------------------------------------------------------------
  // Login and identity

  /** login: the same InvalidCredentials whether the email is unknown or the
      password is wrong; else a token with sub = str(id) living 30 minutes. */
  function Login(s: State, email: string, password: string, cfg: Config, now: Time): (r: Result<Jwt>)
    requires EmailsUnique(s.users)
    ensures r.Err? ==> r.error == InvalidCredentials
    ensures r.Ok? <==> exists id :: id in s.users && s.users[id].email == email && VerifyPassword(password, s.users[id].passwordHash)
  {
    match UserByEmail(s.users, email)
    case None => Err(InvalidCredentials)
    case Some(id) =>
      if !VerifyPassword(password, s.users[id].passwordHash) then Err(InvalidCredentials)
      else Ok(CreateAccessToken(map["sub" := Text(IntToString(id))], Some(AccessTokenTtl), now, cfg))
  }

  /** get_current_user: 401 when the token does not decode, when "sub" is not
      an integer, or when no user has that id. A decodable token without "sub"
      makes int(None) raise a TypeError that the handler does not catch. */
  function GetCurrentUser(s: State, token: Jwt, cfg: Config, now: Time): (r: Result<Id>)
    ensures r.Ok? ==> r.value in s.users
    ensures r.Ok? ==> DecodeAccessToken(token, cfg, now).Some?
    ensures r.Err? ==> r.error == Unauthenticated || r.error == InternalError
    ensures r == Err(InternalError) <==>
      DecodeAccessToken(token, cfg, now).Some? && "sub" !in DecodeAccessToken(token, cfg, now).value
    ensures r.Ok? <==>
      var d := DecodeAccessToken(token, cfg, now);
      && d.Some? && "sub" in d.value
      && ParseInt(d.value["sub"].text).Some?
      && ParseInt(d.value["sub"].text).value >= 0
      && ParseInt(d.value["sub"].text).value in s.users
    ensures r.Ok? ==> r.value == ParseInt(DecodeAccessToken(token, cfg, now).value["sub"].text).value
  {
    match DecodeAccessToken(token, cfg, now)
    case None => Err(Unauthenticated)
    case Some(claims) =>
      if "sub" !in claims then Err(InternalError)
      else match ParseInt(claims["sub"].text)
        case None => Err(Unauthenticated)
        case Some(id) => if id >= 0 && id in s.users then Ok(id) else Err(Unauthenticated)
  }

  /** Round trip: the token login issues resolves to the user with that email
      until it expires, and to a 401 afterwards. */
  lemma LoginThenCurrentUser(s: State, email: string, password: string, cfg: Config, now: Time, later: Time)
    requires EmailsUnique(s.users)
    requires Login(s, email, password, cfg, now).Ok?
    ensures var r := GetCurrentUser(s, Login(s, email, password, cfg, now).value, cfg, later);
      if later <= now + AccessTokenTtl then r.Ok? && s.users[r.value].email == email
      else r == Err(Unauthenticated)
  {
    var id := UserByEmail(s.users, email).value;
    ParseIntOfIntToString(id);
  }

  // ---------------------------------------------------------------------
  // Registration

  /** register_user: refuse an email that is already a user; else store the
      hashed password in a pending row and return its token. */
  function RegisterUserSpec(s: State, email: string, password: string, salt: nat, token: string, now: Time): Outcome<string>
    requires Consistent(s)
  {
    if UserByEmail(s.users, email).Some? then Outcome(s, Err(EmailAlreadyRegistered))
    else CreateTempUserSpec(s, email, HashPassword(password, salt), token, now)
  }

  method RegisterUser(db: Db, email: string, password: string, salt: nat, token: string, now: Time) returns (r: Result<string>)
    requires db.Valid()
    modifies db
    ensures db.Valid()
    ensures Outcome(db.Abs(), r) == RegisterUserSpec(old(db.Abs()), email, password, salt, token, now)
  {
    if UserByEmail(db.users, email).Some? {
      return Err(EmailAlreadyRegistered);
    }
    var hashed := HashPassword(password, salt);
    r := CreateTempUser(db, email, hashed, token, now);
    // send_verification_email: delivery failures are swallowed, nothing to model
  }

  /** The /register/ route: UserCreate validates the body (EmailStr hands on
      the normalised address, then the custom validators run), then
      register_user. */
  method Register(db: Db, email: string, password: string, salt: nat, token: string, now: Time) returns (r: Result<string>)
    requires db.Valid()
    modifies db
    ensures db.Valid()
    ensures NormalizeEmail(email).Err? ==> r == Err(InvalidEmail) && db.Abs() == old(db.Abs())
    ensures NormalizeEmail(email).Ok? && ValidateEmail(NormalizeEmail(email).value).Err? ==>
      r == Err(InvalidEmail) && db.Abs() == old(db.Abs())
    ensures NormalizeEmail(email).Ok? && ValidateEmail(NormalizeEmail(email).value).Ok? && ValidatePassword(password).Err? ==>
      r == Err(WeakPassword) && db.Abs() == old(db.Abs())
    ensures NormalizeEmail(email).Ok? && ValidateEmail(NormalizeEmail(email).value).Ok? && ValidatePassword(password).Ok? ==>
      Outcome(db.Abs(), r) == RegisterUserSpec(old(db.Abs()), NormalizeEmail(email).value, password, salt, token, now)
  {
    var n := NormalizeEmail(email);
    if n.Err? {
      return Err(n.error);
    }
    var e := ValidateEmail(n.value);
    if e.Err? {
      return Err(e.error);
    }
    var p := ValidatePassword(password);
    if p.Err? {
      return Err(p.error);
    }
    r := RegisterUser(db, e.value, p.value, salt, token, now);
  }

  /** Once an address is a user, the same address with its domain in another
      case is refused by register_user, since both normalise alike. */
  lemma RegisterDomainCaseRefused(s: State, local: string, d1: string, d2: string,
                                  password: string, salt: nat, token: string, now: Time)
    requires Consistent(s)
    requires '@' !in d1 && '@' !in d2 && Lower(d1) == Lower(d2)
    requires exists id :: id in s.users && Ok(s.users[id].email) == NormalizeEmail(local + "@" + d1)
    ensures RegisterUserSpec(s, NormalizeEmail(local + "@" + d2).value, password, salt, token, now)
      == Outcome(s, Err(EmailAlreadyRegistered))
  {
    NormalizeEmailDomainCase(local, d1, d2);
  }

  /** A registered email creates no pending row. */
  lemma RegisterExistingEmail(s: State, email: string, password: string, salt: nat, token: string, now: Time)
    requires Consistent(s)
    requires exists id :: id in s.users && s.users[id].email == email
    ensures RegisterUserSpec(s, email, password, salt, token, now) == Outcome(s, Err(EmailAlreadyRegistered))
  {
  }

  lemma RegisterKeepsNoPendingForUser(s: State, email: string, password: string, salt: nat, token: string, now: Time)
    requires Consistent(s) && NoPendingForUser(s)
    ensures NoPendingForUser(RegisterUserSpec(s, email, password, salt, token, now).state)
  {
  }

  /** The whole registration flow: register, verify before the pending row
      expires, and the password logs in. */
  lemma RegisterVerifyLogin(s: State, email: string, password: string, salt: nat, token: string, now: Time,
                            later: Time, cfg: Config)
    requires Consistent(s)
    requires RegisterUserSpec(s, email, password, salt, token, now).reply.Ok?
    requires later < now + TokenTtl
    ensures var s1 := RegisterUserSpec(s, email, password, salt, token, now).state;
      && Consistent(s1)
      && VerifyTokenAndRegisterSpec(s1, token, later).reply.Ok?
      && Consistent(VerifyTokenAndRegisterSpec(s1, token, later).state)
      && Login(VerifyTokenAndRegisterSpec(s1, token, later).state, email, password, cfg, later).Ok?
  {
    var hash := HashPassword(password, salt);
    CreateTempUserConsistent(s, email, hash, token, now);
    CreateTempUserPending(s, email, hash, token, now);
    var s1 := RegisterUserSpec(s, email, password, salt, token, now).state;
    assert LivePending(s1.tempUsers, token, later) == Some(s.nextTempId);
    VerifyConsistent(s1, token, later);
    var s2 := VerifyTokenAndRegisterSpec(s1, token, later).state;
    assert s1.nextUserId in s2.users && s2.users[s1.nextUserId] == User(email, hash);
  }

  /** Once an email is verified, registering it again fails. */
  lemma VerifiedEmailBlocksRegister(s: State, token: string, now: Time, tid: Id,
                                    password: string, salt: nat, token2: string, later: Time)
    requires Consistent(s)
    requires tid in s.tempUsers && s.tempUsers[tid].token == token
    requires VerifyTokenAndRegisterSpec(s, token, now).reply.Ok?
    ensures var s' := VerifyTokenAndRegisterSpec(s, token, now).state;
      Consistent(s') &&
      RegisterUserSpec(s', s.tempUsers[tid].email, password, salt, token2, later) == Outcome(s', Err(EmailAlreadyRegistered))
  {
    VerifyConsistent(s, token, now);
    assert LivePending(s.tempUsers, token, now) == Some(tid);
    var s' := VerifyTokenAndRegisterSpec(s, token, now).state;
    assert s.nextUserId in s'.users && s'.users[s.nextUserId].email == s.tempUsers[tid].email;
  }
}
