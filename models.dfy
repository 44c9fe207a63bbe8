/** The tables of the database (app/models.py) as rows keyed by primary key,
    the whole database as one value, and the constraints every committed state
    satisfies. */
module Models {
  import opened Wrappers
  import opened Crypto

  /** Seconds since the epoch, UTC (utcnow() and the DateTime columns). */
  type Time = int

  /** Primary keys: identity columns counting up from 1. */
  type Id = nat

  /** The values the links_type_check constraint admits. */
  const AllowedLinkTypes: set<string> := {"website", "book", "article", "music", "video"}
  const DefaultLinkType: string := "website"

  /** Both opaque tokens (email verification and password reset) live 30 minutes. */
  const TokenTtl: int := 30 * 60

  datatype User = User(email: string, passwordHash: Digest)

  datatype Collection = Collection(
    userId: Id, name: string, description: Option<string>, createdAt: Time, updatedAt: Time)

  datatype Link = Link(
    userId: Id, title: string, url: string, description: Option<string>, image: Option<string>,
    linkType: Option<string>, createdAt: Time, updatedAt: Time)

  datatype ResetToken = ResetToken(userId: Id, token: string, expiresAt: Time, createdAt: Time)

  datatype TempUser = TempUser(
    email: string, passwordHash: Digest, token: string, expiresAt: Time, createdAt: Time)

  /** A collection_links row (collection_id, link_id). The pair is the primary
      key, so the table is a set of pairs and no pair is stored twice. */
  type Membership = (Id, Id)

  /** The whole database. The next* fields are the identity sequences. */
  datatype State = State(
    users: map<Id, User>,
    collections: map<Id, Collection>,
    links: map<Id, Link>,
    memberships: set<Membership>,
    resetTokens: map<Id, ResetToken>,
    tempUsers: map<Id, TempUser>,
    nextUserId: Id,
    nextCollectionId: Id,
    nextLinkId: Id,
    nextResetId: Id,
    nextTempId: Id)

  /** What a request leaves behind: the committed state and its reply. */
  datatype Outcome<T> = Outcome(state: State, reply: Result<T>)

  function Empty(): State {
    State(map[], map[], map[], {}, map[], map[], 1, 1, 1, 1, 1)
  }

  // ---------------------------------------------------------------------
  // Constraints

  /** Every key was handed out by its sequence, so the next value is unused. */
  predicate IdsFresh(s: State) {
    && (forall id :: id in s.users ==> id < s.nextUserId)
    && (forall id :: id in s.collections ==> id < s.nextCollectionId)
    && (forall id :: id in s.links ==> id < s.nextLinkId)
    && (forall id :: id in s.resetTokens ==> id < s.nextResetId)
    && (forall id :: id in s.tempUsers ==> id < s.nextTempId)
  }

  /** users_email_key */
  predicate EmailsUnique(users: map<Id, User>) {
    forall a, b :: a in users && b in users && users[a].email == users[b].email ==> a == b
  }

  /** links_url_key */
  predicate UrlsUnique(links: map<Id, Link>) {
    forall a, b :: a in links && b in links && links[a].url == links[b].url ==> a == b
  }

  /** links_type_check: a CHECK constraint passes on NULL. */
  predicate TypeChecked(linkType: Option<string>) {
    linkType.None? || linkType.value in AllowedLinkTypes
  }

  /** password_tokens.token is unique. */
  predicate ResetTokensUnique(tokens: map<Id, ResetToken>) {
    forall a, b :: a in tokens && b in tokens && tokens[a].token == tokens[b].token ==> a == b
  }

  /** temp_users.email is unique. */
  predicate TempEmailsUnique(temps: map<Id, TempUser>) {
    forall a, b :: a in temps && b in temps && temps[a].email == temps[b].email ==> a == b
  }

  /** temp_users.token is unique. */
  predicate TempTokensUnique(temps: map<Id, TempUser>) {
    forall a, b :: a in temps && b in temps && temps[a].token == temps[b].token ==> a == b
  }

  /** Collection names are unique across all users. No database constraint
      says so; create_collection refuses a name that any collection has, and
      add_link and remove_link look a collection up by name alone. */
  predicate CollectionNamesUnique(collections: map<Id, Collection>) {
    forall a, b :: a in collections && b in collections && collections[a].name == collections[b].name ==> a == b
  }

  /** fk_user (collections, links), fk_collection, fk_link, and password_tokens.user_id. */
  predicate ForeignKeys(s: State) {
    && (forall id :: id in s.collections ==> s.collections[id].userId in s.users)
    && (forall id :: id in s.links ==> s.links[id].userId in s.users)
    && (forall m :: m in s.memberships ==> m.0 in s.collections && m.1 in s.links)
    && (forall id :: id in s.resetTokens ==> s.resetTokens[id].userId in s.users)
  }

  /** What every committed state satisfies. */
  predicate Consistent(s: State) {
    && IdsFresh(s)
    && EmailsUnique(s.users)
    && UrlsUnique(s.links)
    && (forall id :: id in s.links ==> TypeChecked(s.links[id].linkType))
    && ResetTokensUnique(s.resetTokens)
    && TempEmailsUnique(s.tempUsers)
    && TempTokensUnique(s.tempUsers)
    && CollectionNamesUnique(s.collections)
    && ForeignKeys(s)
  }

  lemma EmptyConsistent()
    ensures Consistent(Empty())
  {
  }

  // ---------------------------------------------------------------------
  // Lookups shared by the handlers

  /** The user with this email, if any: user_exists and the user selects of
      login, request_password_reset and verify_token_and_register. */
  function UserByEmail(users: map<Id, User>, email: string): (r: Option<Id>)
    requires EmailsUnique(users)
    ensures r.Some? ==> r.value in users && users[r.value].email == email
    ensures r.None? ==> forall id :: id in users ==> users[id].email != email
  {
    if exists id :: id in users && users[id].email == email then
      var id :| id in users && users[id].email == email;
      Some(id)
    else
      None
  }

  /** Links.url == url AND Links.user_id == uid (add_link, remove_link, get_link,
      delete_link, update_link); a NULL url matches no row. */
  function OwnedLinkByUrl(links: map<Id, Link>, uid: Id, url: Option<string>): (r: Option<Id>)
    requires UrlsUnique(links)
    ensures r.Some? ==> r.value in links && links[r.value].userId == uid && url == Some(links[r.value].url)
    ensures r.None? ==> forall id :: id in links && url == Some(links[id].url) ==> links[id].userId != uid
  {
    if exists id :: id in links && links[id].userId == uid && url == Some(links[id].url) then
      var id :| id in links && links[id].userId == uid && url == Some(links[id].url);
      Some(id)
    else
      None
  }

  // ---------------------------------------------------------------------
  // Deletes with their ON DELETE CASCADE effects

  /** DELETE FROM collections WHERE id IN ids: their collection_links rows go too. */
  function RemoveCollections(s: State, ids: set<Id>): (r: State)
    ensures forall id :: id in r.collections <==> id in s.collections && id !in ids
    ensures forall id :: id in r.collections ==> r.collections[id] == s.collections[id]
    ensures forall m :: m in r.memberships <==> m in s.memberships && m.0 !in ids
    ensures r == s.(collections := r.collections, memberships := r.memberships)
  {
    s.(collections := map id | id in s.collections && id !in ids :: s.collections[id],
       memberships := set m | m in s.memberships && m.0 !in ids)
  }

  /** DELETE FROM links WHERE id IN ids: their collection_links rows go too. */
  function RemoveLinks(s: State, ids: set<Id>): (r: State)
    ensures forall id :: id in r.links <==> id in s.links && id !in ids
    ensures forall id :: id in r.links ==> r.links[id] == s.links[id]
    ensures forall m :: m in r.memberships <==> m in s.memberships && m.1 !in ids
    ensures r == s.(links := r.links, memberships := r.memberships)
  {
    s.(links := map id | id in s.links && id !in ids :: s.links[id],
       memberships := set m | m in s.memberships && m.1 !in ids)
  }

  lemma RemoveCollectionsConsistent(s: State, ids: set<Id>)
    requires Consistent(s)
    ensures Consistent(RemoveCollections(s, ids))
  {
  }

  lemma RemoveLinksConsistent(s: State, ids: set<Id>)
    requires Consistent(s)
    ensures Consistent(RemoveLinks(s, ids))
  {
  }

  /** DELETE FROM users WHERE id = uid, at the database level. The user's
      collections and links cascade (and with them their collection_links rows);
      password_tokens.user_id has no ON DELETE action, so a user who still owns a
      reset token cannot be deleted. No handler deletes users. */
  function DeleteUser(s: State, uid: Id): (r: Result<State>)
    ensures r.Err? <==> exists t :: t in s.resetTokens && s.resetTokens[t].userId == uid
    ensures r.Ok? ==> uid !in r.value.users
    ensures r.Ok? ==> forall id :: id in r.value.collections ==> r.value.collections[id].userId != uid
    ensures r.Ok? ==> forall id :: id in r.value.links ==> r.value.links[id].userId != uid
    ensures r.Ok? ==> forall id :: id in s.users && id != uid ==> id in r.value.users && r.value.users[id] == s.users[id]
  {
    if exists t :: t in s.resetTokens && s.resetTokens[t].userId == uid then
      Err(ForeignKeyViolation)
    else
      var s1 := RemoveCollections(s, OwnedCollections(s, uid));
      var s2 := RemoveLinks(s1, OwnedLinks(s1, uid));
      Ok(s2.(users := s2.users - {uid}))
  }

  /** What deleting a user leaves alone: everyone else's collections and links,
      the collection_links rows whose collection and link both survive, and
      every other table and counter. */
  lemma DeleteUserFrame(s: State, uid: Id)
    requires Consistent(s) && DeleteUser(s, uid).Ok?
    ensures var r := DeleteUser(s, uid).value;
      && (forall id :: id in s.collections && s.collections[id].userId != uid ==>
            id in r.collections && r.collections[id] == s.collections[id])
      && (forall id :: id in s.links && s.links[id].userId != uid ==>
            id in r.links && r.links[id] == s.links[id])
      && (forall m :: m in r.memberships <==>
            m in s.memberships && m.0 in r.collections && m.1 in r.links)
      && r == s.(users := r.users, collections := r.collections, links := r.links, memberships := r.memberships)
  {
    var s1 := RemoveCollections(s, OwnedCollections(s, uid));
    var s2 := RemoveLinks(s1, OwnedLinks(s1, uid));
    assert DeleteUser(s, uid).value == s2.(users := s2.users - {uid});
  }

  function OwnedCollections(s: State, uid: Id): set<Id> {
    set id | id in s.collections && s.collections[id].userId == uid
  }

  function OwnedLinks(s: State, uid: Id): set<Id> {
    set id | id in s.links && s.links[id].userId == uid
  }

  /** Deleting a user leaves no dangling foreign key behind. */
  lemma DeleteUserConsistent(s: State, uid: Id)
    requires Consistent(s) && DeleteUser(s, uid).Ok?
    ensures Consistent(DeleteUser(s, uid).value)
  {
    var s1 := RemoveCollections(s, OwnedCollections(s, uid));
    RemoveCollectionsConsistent(s, OwnedCollections(s, uid));
    var s2 := RemoveLinks(s1, OwnedLinks(s1, uid));
    RemoveLinksConsistent(s1, OwnedLinks(s1, uid));
    var s3 := s2.(users := s2.users - {uid});
    assert DeleteUser(s, uid).value == s3;
    assert forall id :: id in s3.resetTokens ==> s3.resetTokens[id].userId != uid;
  }
}
