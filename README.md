# Bookmark backend: accounts, tokens, links and collections, in Dafny

This project models the core of a FastAPI/SQLAlchemy bookmark service. Users
register by email and verify with a single-use token. They log in for a signed
session token, and they can change or reset their password through reset
tokens. They save links, whose metadata is taken from the page's Open Graph
tags, and file those links into named collections.

The model has three layers.

- **Tables.** The database is the class `Database.Db`, with one field per
  table (`users`, `collections`, `links`, `collection_links`,
  `password_tokens`, `temp_users`) and one identity sequence per table.
  `Db.Abs()` returns the tables as a `Models.State` value. `Db.Valid()` is
  `Models.Consistent`: the unique constraints, the type check constraint, the
  foreign keys, fresh sequence values, and the application rule that
  collection names are unique across users.
- **Handlers.** Each request handler that writes is a method on `Db`. It works
  step by step on the session and is proved against a specification function
  on `State`. Its postcondition is that the method keeps `Valid()` and that
  the new tables and the reply are exactly what the specification function
  gives for the old tables. A handler that only reads is a function on
  `State`.
- **Properties.** Lemmas about the specification functions state what the
  source promises, for example:
  - single use of tokens, and supersession of an earlier pending token;
  - the same error for an unknown email and for a wrong password;
  - round trips (login then current user, add then get, add then remove);
  - "nothing else changes", and "a refusal rolls back".

Inputs the service gets from outside are parameters:
- the clock, as `now` in seconds;
- random tokens, as `token`;
- bcrypt salts, as `salt`;
- the fetched and parsed page, as `Utils.Page`.

bcrypt is idealised as a digest that verifies exactly its preimage.
A JWT is idealised as either claims signed with a key and algorithm, or
garbage. The rest of this section follows from how the service behaves.

- **Tokens stored in the database.** A stored token (email verification or
  password reset) is live while `expires_at > now`. A row that expires exactly
  at `now` is refused.
- **Session tokens.** A session token is accepted while `now <= exp`, which is
  jose's check with no leeway. So a session token is still accepted at its
  expiry second.
- **Replies.** Each handler replies with `Ok(value)` or `Err(kind)`.
  Exceptions the handlers catch and re-raise as HTTP 400 appear as the error
  kind of the failing step. Two uncaught `TypeError`s appear as
  `InternalError`:
  - `change_password` with no first password;
  - `get_current_user` on a token with no `sub` claim.

Where the design documents and the code differ, the model follows the code:

- `request_password_reset` answers a known email with the same message text as
  an unknown one, but the reply also carries the token. So the two response
  shapes differ.
- Failed commits surface as the storage error (`UniqueViolation`,
  `NotNullViolation`). They are not translated into domain errors.
- A token without `sub` is a server error rather than a 401.

## Model

| member | source | states |
|---|---|---|
| Crypto.HashPassword | app/utils.py:15-16 | the digest of a password verifies that password |
| Crypto.VerifyHashed | app/utils.py:15-19 | a hash verifies a candidate exactly when the candidate is the hashed password |
| Database.Db.constructor | app/database.py:13-15 | a fresh database has empty tables, sequences starting at 1, and is consistent |
| Models.EmptyConsistent | app/models.py:12-99 | the empty database satisfies every constraint |
| Models.UserByEmail | app/database.py:26-31 | the user holding an email if there is one, and none exactly when no user has it |
| Models.OwnedLinkByUrl | app/routers/links.py:150-151 | the caller's link with a url, and none exactly when no link with that url is the caller's |
| Models.RemoveCollections | app/models.py:69-76 | deleting collections deletes exactly their collection_links rows and touches nothing else |
| Models.RemoveLinks | app/models.py:69-76 | deleting links deletes exactly their collection_links rows and touches nothing else |
| Models.RemoveCollectionsConsistent | app/models.py:73 | the ON DELETE CASCADE of fk_collection leaves no dangling membership |
| Models.RemoveLinksConsistent | app/models.py:74 | the ON DELETE CASCADE of fk_link leaves no dangling membership |
| Models.DeleteUser | app/models.py:31-88 | deleting a user is refused exactly when a reset token references them (no ON DELETE on password_tokens.user_id); otherwise the user's collections and links go too and other users stay |
| Models.DeleteUserFrame | app/models.py:31-88 | a user deletion keeps every other user's collections and links as they were, keeps exactly the collection_links rows whose collection and link both survive, and leaves reset tokens, pending users and the id counters untouched |
| Models.DeleteUserConsistent | app/models.py:31-88 | a user deletion that succeeds leaves a consistent database |
| EmailVerification.OtherEmails | app/email_verification.py:20-23 | the pending rows of every other email survive the delete, unchanged |
| EmailVerification.LivePending | app/email_verification.py:77-81 | a pending row with the token and expiry strictly after now, or none when every such row has expired |
| EmailVerification.CreateTempUser | app/email_verification.py:13-40 | the handler keeps the database consistent and does what CreateTempUserSpec says |
| EmailVerification.VerifyTokenAndRegister | app/email_verification.py:71-108 | the handler keeps the database consistent and does what VerifyTokenAndRegisterSpec says |
| EmailVerification.CreateTempUserConsistent | app/email_verification.py:20-36 | replacing the email's pending row keeps temp_users.email and temp_users.token unique |
| EmailVerification.CreateTempUserPending | app/email_verification.py:20-38 | afterwards the email has exactly one pending row, holding the hash and the returned token and expiring 30 minutes after now |
| EmailVerification.CreateTempUserFrame | app/email_verification.py:20-36 | other emails' pending rows and every other table are untouched; a failed commit changes nothing |
| EmailVerification.Supersession | app/email_verification.py:20-23 | an earlier token for the same email no longer verifies |
| EmailVerification.VerifyConsistent | app/email_verification.py:94-101 | promotion keeps users.email unique and every constraint |
| EmailVerification.VerifyNeedsLiveToken | app/email_verification.py:77-84 | with no row whose expiry is strictly after now, verification fails and changes nothing |
| EmailVerification.VerifyRegisteredEmail | app/email_verification.py:86-92 | an email that already belongs to a user is refused and the rollback leaves every table as it was |
| EmailVerification.VerifySuccess | app/email_verification.py:94-103 | success adds exactly one user with the pending email and hash, deletes exactly that pending row, and changes nothing else |
| EmailVerification.VerifySingleUse | app/email_verification.py:77-101 | after one successful verification the same token fails at any later time |
| EmailVerification.VerifyKeepsNoPendingForUser | app/email_verification.py:94-101 | no pending row shares an email with a user, and verification keeps it so |
| EmailVerification.VerifyNeverFindsUser | app/email_verification.py:86-92 | with requests one at a time, the "already registered" branch of verification is unreachable |
| Auth.CreateAccessToken | app/routers/auth.py:73-80 | the token is signed with the configured key and algorithm and carries the caller's claims plus exp = now + delta, 30 minutes by default |
| Auth.CreateAccessTokenAsWritten | app/routers/auth.py:73-80 | as written: signed with the configured key and algorithm, the caller's claims kept as given plus exp, and exp is now + 30 minutes when the delta is absent or zero, otherwise now + the delta |
| Auth.DecodeAccessToken | app/routers/auth.py:83-91 | claims come back only from a token signed with our key and algorithm whose exp is not past; anything else gives None, never an exception |
| Auth.DecodeCreated | app/routers/auth.py:77-91 | a created token decodes to its claims up to its expiry, inclusive, and to None afterwards |
| Auth.DecodeForeign | app/routers/auth.py:87-91 | a token signed with another key or algorithm never decodes |
| Auth.ZeroDeltaAsWritten | app/routers/auth.py:78 | a zero lifetime gives a 30-minute token as written; the corrected token is expired one second later |
| Auth.AsWrittenAgreesOtherwise | app/routers/auth.py:78 | with any delta other than zero, the as-written and corrected tokens are equal |
| Auth.IntToString | app/routers/auth.py:104 | str(user.id) is a non-empty run of decimal digits |
| Auth.ParseDigits | app/routers/auth.py:121 | int() accepts exactly a non-empty run of decimal digits after the sign |
| Auth.ParseInt | app/routers/auth.py:121 | int() of text: an optional leading '-' or '+' followed by a non-empty run of ASCII digits, and nothing else, is accepted; its value is the digits' decimal value, negated after '-' |
| Auth.ParseDigitsOfIntToString | app/routers/auth.py:104-121 | parsing the decimal digits of n gives back n |
| Auth.ParseIntOfIntToString | app/routers/auth.py:104-121 | int(str(id)) == id |
| Auth.Login | app/routers/auth.py:94-107 | login succeeds exactly when a user has the email and the password verifies; an unknown email and a wrong password give the same error |
| Auth.GetCurrentUser | app/routers/auth.py:110-129 | succeeds exactly when the token decodes, carries a sub, int() of the sub parses to an id of an existing user, and then returns that id; a decode failure, a non-integer sub or an unknown id all give the same 401; only a missing sub is a server error |
| Auth.LoginThenCurrentUser | app/routers/auth.py:103-129 | the token login issues resolves to the user with that email until it expires, and to 401 afterwards |
| Auth.RegisterUser | app/routers/auth.py:30-49 | the handler keeps the database consistent and does what RegisterUserSpec says (refuse a registered email, else create_temp_user with the hash) |
| Auth.Register | app/routers/auth.py:62-67 | the email is first normalised as EmailStr does; an address without '@', a malformed email or a password shorter than 8 is refused before anything is written; otherwise register_user on the normalised address |
| Auth.RegisterDomainCaseRefused | app/routers/auth.py:36-37 | once an address is a user, the same address with its domain in another case is refused as already registered |
| Auth.RegisterExistingEmail | app/routers/auth.py:36-37 | a registered email is refused and no pending row is created |
| Auth.RegisterKeepsNoPendingForUser | app/routers/auth.py:36-40 | registration never creates a pending row for an email that is already a user |
| Auth.RegisterVerifyLogin | app/routers/auth.py:36-44 | register, verify before expiry, then log in with the same password: each step succeeds and the database stays consistent |
| Auth.VerifiedEmailBlocksRegister | app/routers/auth.py:36-37 | once an email is verified, registering it again fails |
| UserRouter.LiveResetToken | app/routers/user.py:116-120 | a reset row with the token and expiry strictly after now, or none when every such row has expired |
| UserRouter.ValidateResetToken | app/routers/user.py:153-165 | succeeds exactly for a live token, with its owner's id; errors otherwise; reads only |
| UserRouter.ChangePassword | app/routers/user.py:25-60 | the handler keeps the database consistent and does what ChangePasswordSpec says |
| UserRouter.RequestPasswordReset | app/routers/user.py:63-94 | the handler keeps the database consistent and does what RequestPasswordResetSpec says |
| UserRouter.ResetPassword | app/routers/user.py:103-143 | the handler keeps the database consistent and does what ResetPasswordSpec says |
| UserRouter.ChangePasswordChecks | app/routers/user.py:38-45 | too short, then mismatch, then same-as-old, in that order, and no refusal writes |
| UserRouter.ChangePasswordSuccess | app/routers/user.py:52-55 | only the current user's hash changes; it verifies the new password and no longer the old one |
| UserRouter.ChangePasswordConsistent | app/routers/user.py:51-55 | a password change keeps every constraint |
| UserRouter.RequestResetSameMessage | app/routers/user.py:74-92 | both branches answer with the same message; an unknown email changes nothing |
| UserRouter.RequestResetKnown | app/routers/user.py:77-87 | a known email gets exactly one new reset row for its user expiring 30 minutes after now, and its earlier tokens remain |
| UserRouter.RequestPasswordResetConsistent | app/routers/user.py:77-87 | issuing a reset token keeps password_tokens.token unique and its user_id valid |
| UserRouter.ResetPasswordRefusals | app/routers/user.py:110-126 | differing passwords fail before any lookup; an absent or expired token fails; neither changes anything |
| UserRouter.ResetPasswordSuccess | app/routers/user.py:132-136 | the owner's hash is replaced and that token row alone is deleted, in one commit |
| UserRouter.ResetPasswordConsistent | app/routers/user.py:128-136 | a reset keeps every constraint |
| UserRouter.ResetPasswordSingleUse | app/routers/user.py:116-136 | a token that reset a password fails on a second use |
| UserRouter.OldPasswordRejectedAfterReset | app/routers/user.py:132-136 | after a reset the old password no longer logs in |
| UserRouter.ValidateThenReset | app/routers/user.py:153-165 | validation does not consume: a token that validates still resets |
| CollectionsRouter.OwnedCollectionByName | app/routers/collections.py:50-54 | the caller's collection with the name, and none exactly when the caller has none with it |
| CollectionsRouter.CollectionByName | app/routers/collections.py:184 | the collection with the name, whoever owns it |
| CollectionsRouter.GetCollections | app/routers/collections.py:29-31 | exactly the caller's collections, and an error exactly when there are none |
| CollectionsRouter.GetCollection | app/routers/collections.py:50-56 | the caller's collection with the name, and an error exactly when there is none |
| CollectionsRouter.ApplyCollectionFieldsEffect | app/routers/collections.py:151-152 | the setattr loop sets exactly the fields it is given and keeps the owner and creation time |
| CollectionsRouter.UpdateLoopCorrect | app/routers/collections.py:145-154 | the loop over the set fields, then updated_at = now, gives the row with exactly the present fields replaced |
| CollectionsRouter.DeleteCollection | app/routers/collections.py:63-89 | the handler keeps the database consistent and does what DeleteCollectionSpec says |
| CollectionsRouter.CreateCollection | app/routers/collections.py:91-124 | the handler keeps the database consistent and does what CreateCollectionSpec says |
| CollectionsRouter.UpdateCollection | app/routers/collections.py:126-163 | the setattr loop keeps the database consistent and does what the corrected UpdateCollectionSpec says |
| CollectionsRouter.AddLink | app/routers/collections.py:165-210 | the handler keeps the database consistent and does what AddLinkSpec says |
| CollectionsRouter.RemoveLink | app/routers/collections.py:212-259 | the handler keeps the database consistent and does what RemoveLinkSpec says |
| CollectionsRouter.DeleteCollectionConsistent | app/routers/collections.py:81-83 | deleting a collection, with its cascade, keeps every constraint |
| CollectionsRouter.CreateCollectionConsistent | app/routers/collections.py:105-118 | the global name check keeps collection names unique |
| CollectionsRouter.UpdateCollectionConsistent | app/routers/collections.py:140-157 | the corrected update keeps collection names unique |
| CollectionsRouter.AddLinkConsistent | app/routers/collections.py:198-203 | adding a membership keeps both foreign keys of collection_links |
| CollectionsRouter.RemoveLinkConsistent | app/routers/collections.py:247-252 | removing a membership keeps every constraint |
| CollectionsRouter.DeleteCollectionEffect | app/routers/collections.py:75-84 | fails, changing nothing, exactly when the caller has no collection with the name; else deletes that one collection (count 1) and its memberships, nothing else |
| CollectionsRouter.DeleteCollectionKeepsOthers | app/routers/collections.py:81 | no other user's collection is deleted or changed |
| CollectionsRouter.CreateCollectionEffect | app/routers/collections.py:105-120 | succeeds exactly for a present name no collection has; adds one collection owned by the caller and keeps the rest; a refusal changes nothing |
| CollectionsRouter.CreateCollectionTwice | app/routers/collections.py:105-108 | a name, once created, cannot be created again by anyone |
| CollectionsRouter.UpdateCollectionEffect | app/routers/collections.py:140-158 | an empty name is refused; success changes exactly the present fields plus updated_at of that one collection; a refusal changes nothing |
| CollectionsRouter.UpdateCollectionAgreesAsWritten | app/routers/collections.py:145-157 | the corrected and as-written updates agree unless the new name belongs to another collection |
| CollectionsRouter.UpdateCollectionAsWrittenDuplicates | app/routers/collections.py:145-157 | as written, a consistent database with collections "reading" and "music" ends up with two collections called "reading" |
| CollectionsRouter.AddLinkAnyOwner | app/routers/collections.py:184-202 | the collection's owner is not checked: a caller files their own link into another user's collection |
| CollectionsRouter.AddLinkEffect | app/routers/collections.py:179-202 | succeeds exactly when the link is the caller's, the named collection exists and the pair is new; then adds exactly that pair; a refusal changes nothing |
| CollectionsRouter.RemoveLinkEffect | app/routers/collections.py:226-254 | succeeds exactly when the link is the caller's, the named collection exists and the pair is present; then removes exactly that pair and returns that collection; a refusal changes nothing |
| CollectionsRouter.AddThenRemoveLink | app/routers/collections.py:235-251 | remove_link undoes add_link |
| CollectionsRouter.RemoveThenAddLink | app/routers/collections.py:188-202 | add_link undoes remove_link |
| LinksRouter.GetLinks | app/routers/links.py:28-29 | exactly the caller's links |
| LinksRouter.GetLink | app/routers/links.py:46-48 | the caller's link with the url, and an error exactly when there is none |
| LinksRouter.ApplyLinkFieldsEffect | app/routers/links.py:160-161 | the setattr loop sets exactly the fields it is given and keeps owner, url and timestamps |
| LinksRouter.LinkUpdateLoopCorrect | app/routers/links.py:156-163 | the loop over the set fields, then updated_at = now, gives the row with exactly the present fields replaced |
| LinksRouter.AddUrl | app/routers/links.py:54-96 | the handler keeps the database consistent and does what AddUrlSpec says |
| LinksRouter.DeleteLink | app/routers/links.py:99-127 | the handler keeps the database consistent and does what DeleteLinkSpec says |
| LinksRouter.UpdateLink | app/routers/links.py:134-173 | the setattr loop keeps the database consistent and does what UpdateLinkSpec says |
| LinksRouter.AddUrlConsistent | app/routers/links.py:68-91 | the global url check keeps links.url unique; the normalised type passes links_type_check |
| LinksRouter.DeleteLinkConsistent | app/routers/links.py:119-121 | deleting a link, with its cascade, keeps every constraint |
| LinksRouter.UpdateLinkConsistent | app/routers/links.py:156-165 | an update keeps url uniqueness and the type constraint |
| LinksRouter.AddUrlEffect | app/routers/links.py:68-91 | succeeds exactly when no user has the url and the page's metadata could be read; adds one link owned by the caller built from the metadata; a refusal changes nothing |
| LinksRouter.AddUrlTwice | app/routers/links.py:68-71 | a saved url cannot be saved again, by its owner or anyone else |
| LinksRouter.AddUrlThenGetLink | app/routers/links.py:46-93 | get_link returns the link add_url created |
| LinksRouter.DeleteLinkEffect | app/routers/links.py:113-122 | fails, changing nothing, exactly when the caller does not own the url; else deletes that link (count 1) and its memberships, nothing else |
| LinksRouter.DeleteLinkThenGetLink | app/routers/links.py:113-122 | after delete_link, get_link for the url fails |
| LinksRouter.UpdateLinkOmittedTypeRejected | app/routers/links.py:156-158 | an update that omits type is always refused, despite the schema default, and changes nothing |
| LinksRouter.UpdateLinkEffect | app/routers/links.py:150-166 | succeeds exactly for the caller's link with an allowed type present and a non-null title; changes exactly the present fields plus updated_at of that link; a refusal changes nothing |
| Utils.Lower | app/utils.py:42 | lower() maps each character through the ASCII case mapping, keeping the length |
| Utils.BeforeDot | app/utils.py:42 | split('.')[0] is the prefix up to the first dot, with no dot in it |
| Utils.NormalizeLinkType | app/utils.py:37-44 | the result is always an allowed type; None and "" give "website" |
| Utils.BeforeDotIs | app/utils.py:42 | split('.')[0] is t exactly when the text is t or starts with t followed by a dot |
| Utils.LowerFixed | app/utils.py:42 | lower() keeps text with no capital letters |
| Utils.BeforeDotFixed | app/utils.py:42 | split('.')[0] keeps text with no dot |
| Utils.PlainFixed | app/utils.py:42 | lower-case letters survive both lower() and split('.')[0] |
| Utils.AllowedLower | app/utils.py:33 | every allowed type is made of lower-case letters |
| Utils.AllowedPlain | app/utils.py:33-44 | every allowed type is unchanged by lower() and split('.')[0] |
| Utils.NormalizeLinkTypeExactly | app/utils.py:42-44 | a non-default allowed type t results exactly when the lower-cased text is t or starts with t followed by a dot |
| Utils.NormalizeLinkTypeIdempotent | app/utils.py:37-44 | normalising a normalised type gives it back |
| Utils.NormalizeVideoOther | app/utils.py:41-44 | "video.other" becomes "video" |
| Utils.NormalizeUnknown | app/utils.py:44 | an unknown type such as "profile" becomes "website" |
| Utils.Content | app/utils.py:78-81 | tag["content"] is the attribute when present, and an error otherwise |
| Utils.GetMetadataFromLink | app/utils.py:46-87 | None or an empty url is refused before any fetch; success exactly when the page was read and every tag used has content; the url is kept and the type is allowed |
| Utils.MetadataFallbacks | app/utils.py:73-82 | title falls back from og:title to the title tag to the url; description from og:description to meta description to None; image is og:image or None; type is "website" unless og:type is present |
| Schemas.AfterLast | app/schemas.py:87 | split('@')[-1] is the longest suffix without '@' |
| Schemas.AfterLastAppend | app/schemas.py:87 | split(c)[-1] of p + c + d is d when d holds no c |
| Schemas.NormalizeEmail | app/schemas.py:82 | EmailStr refuses an address without '@' and otherwise hands on the same address with its domain (after the last '@') lower-cased and its local part kept |
| Schemas.NormalizeEmailDomainCase | app/schemas.py:82 | two addresses differing only in the case of their domain normalise to the same address |
| Schemas.ValidateEmail | app/schemas.py:85-89 | an accepted email is returned unchanged; a refusal is InvalidEmail |
| Schemas.ValidateEmailExactly | app/schemas.py:87-89 | accepted exactly when there is an '@' and the text after the last '@' contains a '.' |
| Schemas.ValidatePassword | app/schemas.py:91-95 | accepted exactly when at least 8 characters long, unchanged; else WeakPassword |
| Schemas.HandleLinksLoading | app/schemas.py:69-73 | None gives [], anything else the same elements in order |
| Schemas.DumpedLinkType | app/schemas.py:20-24 | a type that was sent is dumped as sent; an omitted type is absent with exclude_unset and "website" without it |
| Schemas.LinkUpdateKeys | app/routers/links.py:156-161 | the keys of the exclude_unset dump are exactly the fields that were sent, each once |
| Schemas.CollectionUpdateKeys | app/routers/collections.py:145-152 | the keys of the exclude_unset dump are exactly the fields that were sent, each once |

## Left out

- Sending email (app/send_email.py) is a no-op. It swallows its own failures, so it never fails the caller.
- `verify_token_validity` (app/utils.py:21-30) is assumed to succeed. It is an HTTP request to the service's own `/me` route and can fail on its own: `BASE_URL` unset, a network error, a non-200 reply, or the token expiring between `get_current_user` and this request. None of these is modelled.
- The HTTP fetch and the HTML parsing in `get_metadata_from_link` are left out. The found tags are an input (`Utils.Page`), and a failed fetch is `page == None`.
- bcrypt, jose and `secrets.token_urlsafe` are idealised: a digest verifies exactly its preimage, and a token is either signed claims or garbage. Fresh tokens and salts are parameters, and a token already in use is handled as the unique constraint handles it.
- Utils.Lower: `str.lower()` is modelled on ASCII letters only. Other Unicode case mappings are left out.
- Schemas.NormalizeEmail: only the '@' requirement and the lower-casing of an ASCII domain are modelled. `EmailStr`'s other syntax rejections, display-name and whitespace stripping, Unicode NFC and IDNA handling and non-ASCII case folding are not.
- Auth.Register: registers the normalised address as far as `Schemas.NormalizeEmail` models it; the normalisations listed there are not. Login looks users up by the raw form username, which the model keeps as given.
- Schemas.ValidateEmail: only the custom rule is modelled; it runs on the address `NormalizeEmail` hands on.
- Auth.ParseInt: `int()` also accepts surrounding whitespace, digit-group underscores and non-ASCII Unicode decimal digits, and that is not modelled. A token this service issues never contains either.
- Auth.DecodeAccessToken: jose's checks of `iat`, `nbf`, `aud` and other registered claims are not modelled, because this service never sets them. Its coercion of a non-numeric `exp` is not modelled either.
- Times are whole seconds. `datetime` microseconds are not modelled.
- Ids are unbounded. The identity columns stop at 2147483647 (int4).
- Sequence values consumed by a failed insert are not modelled. After a rollback the model reuses the id that PostgreSQL would skip.
- Concurrency and transaction isolation are not modelled. Each request is one atomic step. So the "email registered in the meantime" branch of verification is reachable only through concurrent requests (`EmailVerification.VerifyNeverFindsUser`).
- The "could not hash" branch of `change_password` (app/routers/user.py:48-49) is not modelled, because bcrypt always returns a hash.
- The error raised by the `verify_email` route itself (app/routers/auth.py:57-59) is not modelled. `verify_token_and_register` raises on every failure, so that line is never reached.
- `MultipleResultsFound` from `scalar_one_or_none` is not modelled. Every lookup the model performs is on a column that `Consistent` keeps unique.
- Models.DeleteUser: cascades are modelled at the database level (`ON DELETE CASCADE`, a bulk `DELETE FROM users`). An ORM `session.delete(user)` behaves differently and is not modelled: the relationships at app/models.py:23-25 have no `cascade=` and no `passive_deletes`, so the ORM would set `user_id` to NULL on the user's collections and links, which fails on those NOT NULL columns (app/models.py:36, 56), and would orphan reset tokens, whose `user_id` is nullable (app/models.py:83).
- No handler deletes users. `Models.DeleteUser` models the constraint behaviour only.
- Reply bodies, HTTP status codes and the message strings are not modelled, apart from the reset message. The model does not capture that `delete_collection` returns a dict that does not match its `response_model=Collection`, so FastAPI's response validation fails after the commit has happened.
- `/me` (main.py) only echoes the current user and is not modelled.
- CollectionsRouter.UpdateCollection: an `updated_at` sent in the update is assigned and then overwritten by the handler. The model keeps the row's old value while the loop runs, so a sent `None` never reaches the row.
- LinksRouter.UpdateLink: a `None` title is refused before the setattr loop instead of at the commit flush. Nothing is written either way, so the outcome is the same.

## Findings

| source | as written | input that shows it | evidently intended | confidence | as-written member | corrected member |
|---|---|---|---|---|---|---|
| app/routers/auth.py:78 | `expires_delta or timedelta(minutes=30)` treats a zero timedelta as missing | `expires_delta=timedelta(0)`: the token is valid for 30 minutes | a zero lifetime gives a token that is expired immediately | not executed; low (no caller passes zero) | Auth.ZeroDeltaAsWritten | Auth.CreateAccessToken |
| app/routers/collections.py:145-157 | `update_collection` renames without checking the new name, while `create_collection` (lines 105-108) refuses any name a collection already has | user 2 renames "music" to "reading", the name of user 1's collection | refuse the taken name, keeping collection names unique so that `add_link` and `remove_link` find exactly one collection by name | not executed; medium | CollectionsRouter.UpdateCollectionAsWrittenDuplicates | CollectionsRouter.UpdateCollection |
