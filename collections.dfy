/** app/routers/collections.py: the caller's collections and the
    collection_links table. The caller is the user get_current_user resolved;
    verify_token_validity is taken to succeed. */
module CollectionsRouter {
  import opened Wrappers
  import opened Models
  import opened Schemas
  import opened Database

  // ---------------------------------------------------------------------
  // Lookups (scalar_one_or_none; a NULL parameter compiles to IS NULL and
  // matches no row, since name and url are NOT NULL)

  /** Collections.user_id == uid AND Collections.name == name. */
  function OwnedCollectionByName(cs: map<Id, Collection>, uid: Id, name: Option<string>): (r: Option<Id>)
    requires CollectionNamesUnique(cs)
    ensures r.Some? ==> r.value in cs && cs[r.value].userId == uid && name == Some(cs[r.value].name)
    ensures r.None? ==> forall id :: id in cs && name == Some(cs[id].name) ==> cs[id].userId != uid
  {
    if exists id :: id in cs && cs[id].userId == uid && name == Some(cs[id].name) then
      var id :| id in cs && cs[id].userId == uid && name == Some(cs[id].name);
      Some(id)
    else
      None
  }

  /** Collections.name == name, whoever owns it. */
  function CollectionByName(cs: map<Id, Collection>, name: Option<string>): (r: Option<Id>)
    requires CollectionNamesUnique(cs)
    ensures r.Some? ==> r.value in cs && name == Some(cs[r.value].name)
    ensures r.None? ==> forall id :: id in cs ==> name != Some(cs[id].name)
  {
    if exists id :: id in cs && name == Some(cs[id].name) then
      var id :| id in cs && name == Some(cs[id].name);
      Some(id)
    else
      None
  }

  /** The caller's collections called name: the rows delete_collection deletes. */
  function NamedOwned(s: State, uid: Id, name: Option<string>): set<Id> {
    set id | id in s.collections && s.collections[id].userId == uid && name == Some(s.collections[id].name)
  }

  predicate NameTakenByOther(cs: map<Id, Collection>, name: string, cid: Id) {
    exists id :: id in cs && id != cid && cs[id].name == name
  }

  // ---------------------------------------------------------------------
  // Reads

  /** get_collections: the caller's collections; having none is an error. */
  function GetCollections(s: State, uid: Id): (r: Result<map<Id, Collection>>)
    ensures r.Err? <==> forall id :: id in s.collections ==> s.collections[id].userId != uid
    ensures r.Err? ==> r.error == NoCollections
    ensures r.Ok? ==> forall id :: id in r.value <==> id in s.collections && s.collections[id].userId == uid
    ensures r.Ok? ==> forall id :: id in r.value ==> r.value[id] == s.collections[id]
  {
    if forall id :: id in s.collections ==> s.collections[id].userId != uid then
      Err(NoCollections)
    else
      Ok(map id | id in s.collections && s.collections[id].userId == uid :: s.collections[id])
  }

  /** get_collection: the caller's collection called name. */
  function GetCollection(s: State, uid: Id, name: Option<string>): (r: Result<Collection>)
    requires CollectionNamesUnique(s.collections)
    ensures r.Err? <==> forall id :: id in s.collections && name == Some(s.collections[id].name) ==> s.collections[id].userId != uid
    ensures r.Err? ==> r.error == CollectionNotFound
    ensures r.Ok? ==> r.value.userId == uid && name == Some(r.value.name)
    ensures r.Ok? ==> exists id :: id in s.collections && s.collections[id] == r.value
  {
    match OwnedCollectionByName(s.collections, uid, name)
    case None => Err(CollectionNotFound)
    case Some(cid) => Ok(s.collections[cid])
  }

  // ---------------------------------------------------------------------
  // The setattr loop of update_collection

  /** A name present in the update is a string: len() of None raises first. */
  predicate NameNotNull(u: CollectionUpdate) {
    u.name != Set(None)
  }

  /** setattr(collection, field, value) for the keys of the update, in order.
      An updated_at of None is assigned on the object only; the handler
      overwrites it before anything is flushed, so the row keeps its value. */
  function ApplyCollectionFields(c: Collection, u: CollectionUpdate, fields: seq<CollectionField>): Collection
    requires NameNotNull(u)
    requires forall f :: f in fields ==> CollectionFieldSet(u, f)
    decreases |fields|
  {
    if fields == [] then c
    else
      var last := fields[|fields| - 1];
      assert last in fields && CollectionFieldSet(u, last);
      assert forall f :: f in fields[..|fields| - 1] ==> f in fields;
      var prev := ApplyCollectionFields(c, u, fields[..|fields| - 1]);
      match last
      case NameField => prev.(name := u.name.value.value)
      case CollectionDescriptionField => prev.(description := u.description.value)
      case UpdatedAtField => if u.updatedAt.value.Some? then prev.(updatedAt := u.updatedAt.value.value) else prev
  }

  /** The row update_collection commits: each field present in the update
      takes its new value, the others keep theirs, and updated_at is now. */
  function UpdatedCollection(c: Collection, u: CollectionUpdate, now: Time): Collection
    requires NameNotNull(u)
  {
    c.(name := if u.name.Set? then u.name.value.value else c.name,
       description := if u.description.Set? then u.description.value else c.description,
       updatedAt := now)
  }

  /** Applying a list of present fields sets exactly those fields. */
  lemma {:induction false} ApplyCollectionFieldsEffect(c: Collection, u: CollectionUpdate, fields: seq<CollectionField>)
    requires NameNotNull(u)
    requires forall f :: f in fields ==> CollectionFieldSet(u, f)
    ensures var r := ApplyCollectionFields(c, u, fields);
      && r.userId == c.userId && r.createdAt == c.createdAt
      && r.name == (if NameField in fields then u.name.value.value else c.name)
      && r.description == (if CollectionDescriptionField in fields then u.description.value else c.description)
  {
    if fields != [] {
      var init := fields[..|fields| - 1];
      assert forall f :: f in init ==> f in fields;
      ApplyCollectionFieldsEffect(c, u, init);
      assert fields == init + [fields[|fields| - 1]];
    }
  }

  /** The loop over model_dump(exclude_unset=True) followed by the updated_at
      assignment yields UpdatedCollection. */
  lemma UpdateLoopCorrect(c: Collection, u: CollectionUpdate, now: Time)
    requires NameNotNull(u)
    ensures ApplyCollectionFields(c, u, CollectionUpdateKeys(u)).(updatedAt := now) == UpdatedCollection(c, u, now)
  {
    ApplyCollectionFieldsEffect(c, u, CollectionUpdateKeys(u));
  }

  // ---------------------------------------------------------------------
  // Specifications of the mutating handlers

  /** delete_collection: deletes the caller's collections called name (their
      collection_links rows cascade) and answers with the row count. */
  function DeleteCollectionSpec(s: State, uid: Id, name: Option<string>): Outcome<nat>
    requires Consistent(s)
  {
    if OwnedCollectionByName(s.collections, uid, name).None? then Outcome(s, Err(CollectionNotFound))
    else
      var ids := NamedOwned(s, uid, name);
      Outcome(RemoveCollections(s, ids), Ok(|ids|))
  }

  /** create_collection: a name any collection already has is refused; a
      missing name passes the lookup and fails the NOT NULL column. */
  function CreateCollectionSpec(s: State, uid: Id, name: Option<string>, description: Option<string>, now: Time): Outcome<Collection>
  {
    if exists id :: id in s.collections && name == Some(s.collections[id].name) then Outcome(s, Err(CollectionExists))
    else if name.None? then Outcome(s, Err(NotNullViolation))
    else
      var c := Collection(uid, name.value, description, now, now);
      Outcome(s.(collections := s.collections[s.nextCollectionId := c], nextCollectionId := s.nextCollectionId + 1), Ok(c))
  }

  /** update_collection as written: no check that the new name is free. */
  function UpdateCollectionAsWritten(s: State, uid: Id, name: Option<string>, u: CollectionUpdate, now: Time): Outcome<Collection>
    requires CollectionNamesUnique(s.collections)
  {
    match OwnedCollectionByName(s.collections, uid, name)
    case None => Outcome(s, Err(CollectionNotFound))
    case Some(cid) =>
      if u.name == Set(None) then Outcome(s, Err(NullValue))
      else if u.name.Set? && |u.name.value.value| < 1 then Outcome(s, Err(EmptyName))
      else
        var c := UpdatedCollection(s.collections[cid], u, now);
        Outcome(s.(collections := s.collections[cid := c]), Ok(c))
  }

  /** update_collection, corrected: a new name that another collection has is
      refused as create_collection refuses it. */
  function UpdateCollectionSpec(s: State, uid: Id, name: Option<string>, u: CollectionUpdate, now: Time): Outcome<Collection>
    requires CollectionNamesUnique(s.collections)
  {
    match OwnedCollectionByName(s.collections, uid, name)
    case None => Outcome(s, Err(CollectionNotFound))
    case Some(cid) =>
      if u.name == Set(None) then Outcome(s, Err(NullValue))
      else if u.name.Set? && |u.name.value.value| < 1 then Outcome(s, Err(EmptyName))
      else if u.name.Set? && NameTakenByOther(s.collections, u.name.value.value, cid) then Outcome(s, Err(CollectionExists))
      else
        var c := UpdatedCollection(s.collections[cid], u, now);
        Outcome(s.(collections := s.collections[cid := c]), Ok(c))
  }

  /** add_link: the link must be the caller's, the collection is found by name
      among all users' collections, and the pair must be new. */
  function AddLinkSpec(s: State, uid: Id, url: Option<string>, name: Option<string>): Outcome<Collection>
    requires Consistent(s)
  {
    match OwnedLinkByUrl(s.links, uid, url)
    case None => Outcome(s, Err(LinkNotFound))
    case Some(lid) =>
      match CollectionByName(s.collections, name)
      case None => Outcome(s, Err(CollectionNotFound))
      case Some(cid) =>
        if (cid, lid) in s.memberships then Outcome(s, Err(AlreadyInCollection))
        else Outcome(s.(memberships := s.memberships + {(cid, lid)}), Ok(s.collections[cid]))
  }

  /** remove_link: the same lookups; the pair must be present. */
  function RemoveLinkSpec(s: State, uid: Id, url: Option<string>, name: Option<string>): Outcome<Collection>
    requires Consistent(s)
  {
    match OwnedLinkByUrl(s.links, uid, url)
    case None => Outcome(s, Err(LinkNotFound))
    case Some(lid) =>
      match CollectionByName(s.collections, name)
      case None => Outcome(s, Err(CollectionNotFound))
      case Some(cid) =>
        if (cid, lid) !in s.memberships then Outcome(s, Err(NotInCollection))
        else Outcome(s.(memberships := s.memberships - {(cid, lid)}), Ok(s.collections[cid]))
  }

  // ---------------------------------------------------------------------
  // The handlers

  method DeleteCollection(db: Db, uid: Id, name: Option<string>) returns (r: Result<nat>)
    requires db.Valid()
    modifies db
    ensures db.Valid()
    ensures Outcome(db.Abs(), r) == DeleteCollectionSpec(old(db.Abs()), uid, name)
  {
    DeleteCollectionConsistent(db.Abs(), uid, name);
    var found := OwnedCollectionByName(db.collections, uid, name);
    if found.None? {
      return Err(CollectionNotFound);
    }
    var ids := NamedOwned(db.Abs(), uid, name);
    // DELETE ... WHERE name = :name AND user_id = :uid; collection_links cascades
    db.collections := map id | id in db.collections && id !in ids :: db.collections[id];
    db.memberships := set m | m in db.memberships && m.0 !in ids;
    r := Ok(|ids|);
  }

  method CreateCollection(db: Db, uid: Id, name: Option<string>, description: Option<string>, now: Time) returns (r: Result<Collection>)
    requires db.Valid() && uid in db.users
    modifies db
    ensures db.Valid()
    ensures Outcome(db.Abs(), r) == CreateCollectionSpec(old(db.Abs()), uid, name, description, now)
  {
    CreateCollectionConsistent(db.Abs(), uid, name, description, now);
    if CollectionByName(db.collections, name).Some? {
      return Err(CollectionExists);
    }
    if name.None? {
      return Err(NotNullViolation);
    }
    var c := Collection(uid, name.value, description, now, now);
    db.collections := db.collections[db.nextCollectionId := c];
    db.nextCollectionId := db.nextCollectionId + 1;
    r := Ok(c);
  }

  method UpdateCollection(db: Db, uid: Id, name: Option<string>, u: CollectionUpdate, now: Time) returns (r: Result<Collection>)
    requires db.Valid()
    modifies db
    ensures db.Valid()
    ensures Outcome(db.Abs(), r) == UpdateCollectionSpec(old(db.Abs()), uid, name, u, now)
  {
    UpdateCollectionConsistent(db.Abs(), uid, name, u, now);
    var found := OwnedCollectionByName(db.collections, uid, name);
    if found.None? {
      return Err(CollectionNotFound);
    }
    var cid := found.value;
    if u.name == Set(None) {
      return Err(NullValue);
    }
    if u.name.Set? && |u.name.value.value| < 1 {
      return Err(EmptyName);
    }
    if u.name.Set? && NameTakenByOther(db.collections, u.name.value.value, cid) {
      return Err(CollectionExists);
    }
    var keys := CollectionUpdateKeys(u);
    var row := db.collections[cid];
    var i := 0;
    while i < |keys|
      invariant 0 <= i <= |keys|
      invariant row == ApplyCollectionFields(db.collections[cid], u, keys[..i])
      decreases |keys| - i
    {
      assert keys[..i + 1][..i] == keys[..i];
      assert keys[i] in keys;
      // setattr(collection, field, value)
      match keys[i] {
        case NameField => row := row.(name := u.name.value.value);
        case CollectionDescriptionField => row := row.(description := u.description.value);
        case UpdatedAtField =>
          if u.updatedAt.value.Some? {
            row := row.(updatedAt := u.updatedAt.value.value);
          }
      }
      i := i + 1;
    }
    assert keys[..i] == keys;
    UpdateLoopCorrect(db.collections[cid], u, now);
    row := row.(updatedAt := now);
    db.collections := db.collections[cid := row];
    r := Ok(row);
  }

  method AddLink(db: Db, uid: Id, url: Option<string>, name: Option<string>) returns (r: Result<Collection>)
    requires db.Valid()
    modifies db
    ensures db.Valid()
    ensures Outcome(db.Abs(), r) == AddLinkSpec(old(db.Abs()), uid, url, name)
  {
    AddLinkConsistent(db.Abs(), uid, url, name);
    var link := OwnedLinkByUrl(db.links, uid, url);
    if link.None? {
      return Err(LinkNotFound);
    }
    var collection := CollectionByName(db.collections, name);
    if collection.None? {
      return Err(CollectionNotFound);
    }
    var pair := (collection.value, link.value);
    if pair in db.memberships {
      return Err(AlreadyInCollection);
    }
    db.memberships := db.memberships + {pair};
    r := Ok(db.collections[collection.value]);
  }

  method RemoveLink(db: Db, uid: Id, url: Option<string>, name: Option<string>) returns (r: Result<Collection>)
    requires db.Valid()
    modifies db
    ensures db.Valid()
    ensures Outcome(db.Abs(), r) == RemoveLinkSpec(old(db.Abs()), uid, url, name)
  {
    RemoveLinkConsistent(db.Abs(), uid, url, name);
    var link := OwnedLinkByUrl(db.links, uid, url);
    if link.None? {
      return Err(LinkNotFound);
    }
    var collection := CollectionByName(db.collections, name);
    if collection.None? {
      return Err(CollectionNotFound);
    }
    var pair := (collection.value, link.value);
    if pair !in db.memberships {
      return Err(NotInCollection);
    }
    db.memberships := db.memberships - {pair};
    r := Ok(db.collections[collection.value]);
  }

  // ---------------------------------------------------------------------
  // Consistency

  lemma DeleteCollectionConsistent(s: State, uid: Id, name: Option<string>)
    requires Consistent(s)
    ensures Consistent(DeleteCollectionSpec(s, uid, name).state)
  {
    RemoveCollectionsConsistent(s, NamedOwned(s, uid, name));
  }

  lemma CreateCollectionConsistent(s: State, uid: Id, name: Option<string>, description: Option<string>, now: Time)
    requires Consistent(s) && uid in s.users
    ensures Consistent(CreateCollectionSpec(s, uid, name, description, now).state)
  {
  }

  lemma UpdateCollectionConsistent(s: State, uid: Id, name: Option<string>, u: CollectionUpdate, now: Time)
    requires Consistent(s)
    ensures Consistent(UpdateCollectionSpec(s, uid, name, u, now).state)
  {
  }

  lemma AddLinkConsistent(s: State, uid: Id, url: Option<string>, name: Option<string>)
    requires Consistent(s)
    ensures Consistent(AddLinkSpec(s, uid, url, name).state)
  {
  }

  lemma RemoveLinkConsistent(s: State, uid: Id, url: Option<string>, name: Option<string>)
    requires Consistent(s)
    ensures Consistent(RemoveLinkSpec(s, uid, url, name).state)
  {
  }

  // ---------------------------------------------------------------------
  // Properties

  /** delete_collection fails exactly when the caller has no collection with
      that name; otherwise it deletes that one collection and its
      memberships, and every other collection, every link and every other
      membership stays. */
  lemma DeleteCollectionEffect(s: State, uid: Id, name: Option<string>)
    requires Consistent(s)
    ensures var o := DeleteCollectionSpec(s, uid, name);
      && (o.reply.Err? <==> forall id :: id in s.collections && name == Some(s.collections[id].name) ==> s.collections[id].userId != uid)
      && (o.reply.Err? ==> o.state == s)
      && (o.reply.Ok? ==> exists cid ::
            && cid in s.collections && s.collections[cid].userId == uid && name == Some(s.collections[cid].name)
            && o.reply.value == 1
            && o.state.collections == s.collections - {cid}
            && (forall m :: m in o.state.memberships <==> m in s.memberships && m.0 != cid)
            && o.state.links == s.links && o.state.users == s.users)
  {
    var found := OwnedCollectionByName(s.collections, uid, name);
    if found.Some? {
      var cid := found.value;
      assert NamedOwned(s, uid, name) == {cid};
      var r := DeleteCollectionSpec(s, uid, name).state;
      assert r.collections == s.collections - {cid};
    }
  }

  /** Another user's collections are never deleted by delete_collection. */
  lemma DeleteCollectionKeepsOthers(s: State, uid: Id, name: Option<string>)
    requires Consistent(s)
    ensures var r := DeleteCollectionSpec(s, uid, name).state;
      forall id :: id in s.collections && s.collections[id].userId != uid ==> id in r.collections && r.collections[id] == s.collections[id]
  {
  }

  /** create_collection succeeds exactly for a present name no collection has,
      adds one collection owned by the caller and keeps the rest. */
  lemma CreateCollectionEffect(s: State, uid: Id, name: Option<string>, description: Option<string>, now: Time)
    requires Consistent(s)
    ensures var o := CreateCollectionSpec(s, uid, name, description, now);
      && (o.reply.Ok? <==> name.Some? && forall id :: id in s.collections ==> s.collections[id].name != name.value)
      && (o.reply.Err? ==> o.state == s)
      && (o.reply.Ok? ==>
            && s.nextCollectionId !in s.collections
            && o.state.collections == s.collections[s.nextCollectionId := Collection(uid, name.value, description, now, now)]
            && o.state == s.(collections := o.state.collections, nextCollectionId := o.state.nextCollectionId))
  {
  }

  /** A second create with the same name, by anyone, fails. */
  lemma CreateCollectionTwice(s: State, uid: Id, other: Id, name: string, d1: Option<string>, d2: Option<string>, t1: Time, t2: Time)
    requires Consistent(s)
    requires CreateCollectionSpec(s, uid, Some(name), d1, t1).reply.Ok?
    ensures var s' := CreateCollectionSpec(s, uid, Some(name), d1, t1).state;
      CreateCollectionSpec(s', other, Some(name), d2, t2) == Outcome(s', Err(CollectionExists))
  {
    var s' := CreateCollectionSpec(s, uid, Some(name), d1, t1).state;
    assert s'.collections[s.nextCollectionId].name == name;
  }

  /** update_collection refuses a present empty name; on success the one
      collection changes exactly in the fields present plus updated_at, and
      nothing else in the database changes. */
  lemma UpdateCollectionEffect(s: State, uid: Id, name: Option<string>, u: CollectionUpdate, now: Time)
    requires Consistent(s)
    ensures var o := UpdateCollectionSpec(s, uid, name, u, now);
      && (u.name == Set(Some("")) ==> o.reply.Err?)
      && (o.reply.Err? ==> o.state == s)
      && (o.reply.Ok? ==> exists cid ::
            && cid in s.collections && s.collections[cid].userId == uid && name == Some(s.collections[cid].name)
            && o.state == s.(collections := s.collections[cid := o.reply.value])
            && o.reply.value.userId == uid && o.reply.value.createdAt == s.collections[cid].createdAt
            && o.reply.value.updatedAt == now
            && o.reply.value.name == (if u.name.Set? then u.name.value.value else s.collections[cid].name)
            && o.reply.value.description == (if u.description.Set? then u.description.value else s.collections[cid].description))
  {
  }

  /** The corrected update and the update as written agree unless the new
      name belongs to another collection. */
  lemma UpdateCollectionAgreesAsWritten(s: State, uid: Id, name: Option<string>, u: CollectionUpdate, now: Time)
    requires CollectionNamesUnique(s.collections)
    requires !(u.name.Set? && u.name.value.Some? &&
               exists id :: id in s.collections && s.collections[id].name == u.name.value.value && name != Some(s.collections[id].name))
    ensures UpdateCollectionSpec(s, uid, name, u, now) == UpdateCollectionAsWritten(s, uid, name, u, now)
  {
  }

  /** As written, renaming to a name another user's collection has leaves two
      collections with one name: the state is no longer consistent, and both
      add_link and remove_link then find more than one row for that name. */
  lemma UpdateCollectionAsWrittenDuplicates()
    ensures var s := State(
        map[1 := User("a@b.io", Crypto.Digest(0, "password1")), 2 := User("c@d.io", Crypto.Digest(0, "password2"))],
        map[1 := Collection(1, "reading", None, 0, 0), 2 := Collection(2, "music", None, 0, 0)],
        map[], {}, map[], map[], 3, 3, 1, 1, 1);
      var o := UpdateCollectionAsWritten(s, 2, Some("music"), CollectionUpdate(Set(Some("reading")), Unset, Unset), 10);
      && Consistent(s)
      && o.reply.Ok?
      && o.state.collections[1].name == o.state.collections[2].name
      && !Consistent(o.state)
  {
    var s := State(
        map[1 := User("a@b.io", Crypto.Digest(0, "password1")), 2 := User("c@d.io", Crypto.Digest(0, "password2"))],
        map[1 := Collection(1, "reading", None, 0, 0), 2 := Collection(2, "music", None, 0, 0)],
        map[], {}, map[], map[], 3, 3, 1, 1, 1);
    assert s.users[1].email != s.users[2].email;
    assert s.collections[1].name != s.collections[2].name;
    assert OwnedCollectionByName(s.collections, 2, Some("music")) == Some(2);
  }

  /** add_link never looks at who owns the collection: a caller can file
      their link into another user's collection. */
  lemma AddLinkAnyOwner(s: State, uid: Id, lid: Id, cid: Id)
    requires Consistent(s)
    requires lid in s.links && s.links[lid].userId == uid
    requires cid in s.collections && (cid, lid) !in s.memberships
    ensures var o := AddLinkSpec(s, uid, Some(s.links[lid].url), Some(s.collections[cid].name));
      o == Outcome(s.(memberships := s.memberships + {(cid, lid)}), Ok(s.collections[cid]))
  {
    assert OwnedLinkByUrl(s.links, uid, Some(s.links[lid].url)) == Some(lid);
    assert CollectionByName(s.collections, Some(s.collections[cid].name)) == Some(cid);
  }

  /** add_link succeeds exactly when the caller owns the link, the collection
      exists and the pair is new, and then adds exactly that pair. */
  lemma AddLinkEffect(s: State, uid: Id, url: Option<string>, name: Option<string>)
    requires Consistent(s)
    ensures var o := AddLinkSpec(s, uid, url, name);
      && (o.reply.Ok? <==> exists cid: Id, lid: Id ::
            && lid in s.links && s.links[lid].userId == uid && url == Some(s.links[lid].url)
            && cid in s.collections && name == Some(s.collections[cid].name)
            && (cid, lid) !in s.memberships)
      && (o.reply.Err? ==> o.state == s)
      && (o.reply.Ok? ==> exists cid: Id, lid: Id :: o.state == s.(memberships := s.memberships + {(cid, lid)}) && (cid, lid) !in s.memberships)
  {
    var o := AddLinkSpec(s, uid, url, name);
    if o.reply.Ok? {
      var lid := OwnedLinkByUrl(s.links, uid, url).value;
      var cid := CollectionByName(s.collections, name).value;
      assert o.state == s.(memberships := s.memberships + {(cid, lid)});
    }
  }

  /** remove_link_from_collection succeeds exactly when the caller owns a link
      with that URL, some collection has that name and the pair is present;
      then that one row goes and the collection is returned, and on any
      refusal nothing changes. */
  lemma RemoveLinkEffect(s: State, uid: Id, url: Option<string>, name: Option<string>)
    requires Consistent(s)
    ensures var o := RemoveLinkSpec(s, uid, url, name);
      && (o.reply.Ok? <==> exists cid: Id, lid: Id ::
            && lid in s.links && s.links[lid].userId == uid && url == Some(s.links[lid].url)
            && cid in s.collections && name == Some(s.collections[cid].name)
            && (cid, lid) in s.memberships)
      && (o.reply.Err? ==> o.state == s)
      && (o.reply.Ok? ==> exists cid: Id, lid: Id ::
            && cid in s.collections && o.reply.value == s.collections[cid]
            && (cid, lid) in s.memberships
            && o.state == s.(memberships := s.memberships - {(cid, lid)}))
  {
    var o := RemoveLinkSpec(s, uid, url, name);
    if o.reply.Ok? {
      var lid := OwnedLinkByUrl(s.links, uid, url).value;
      var cid := CollectionByName(s.collections, name).value;
      assert o.state == s.(memberships := s.memberships - {(cid, lid)});
    }
  }

  /** remove_link undoes add_link, and add_link undoes remove_link. */
  lemma AddThenRemoveLink(s: State, uid: Id, url: Option<string>, name: Option<string>)
    requires Consistent(s)
    requires AddLinkSpec(s, uid, url, name).reply.Ok?
    ensures var s' := AddLinkSpec(s, uid, url, name).state;
      Consistent(s') && RemoveLinkSpec(s', uid, url, name).state == s && RemoveLinkSpec(s', uid, url, name).reply.Ok?
  {
    AddLinkConsistent(s, uid, url, name);
    var s' := AddLinkSpec(s, uid, url, name).state;
    assert OwnedLinkByUrl(s'.links, uid, url) == OwnedLinkByUrl(s.links, uid, url);
    assert CollectionByName(s'.collections, name) == CollectionByName(s.collections, name);
    var cid := CollectionByName(s.collections, name).value;
    var lid := OwnedLinkByUrl(s.links, uid, url).value;
    assert s'.memberships - {(cid, lid)} == s.memberships;
  }

  lemma RemoveThenAddLink(s: State, uid: Id, url: Option<string>, name: Option<string>)
    requires Consistent(s)
    requires RemoveLinkSpec(s, uid, url, name).reply.Ok?
    ensures var s' := RemoveLinkSpec(s, uid, url, name).state;
      Consistent(s') && AddLinkSpec(s', uid, url, name).state == s && AddLinkSpec(s', uid, url, name).reply.Ok?
  {
    RemoveLinkConsistent(s, uid, url, name);
    var s' := RemoveLinkSpec(s, uid, url, name).state;
    assert OwnedLinkByUrl(s'.links, uid, url) == OwnedLinkByUrl(s.links, uid, url);
    assert CollectionByName(s'.collections, name) == CollectionByName(s.collections, name);
    var cid := CollectionByName(s.collections, name).value;
    var lid := OwnedLinkByUrl(s.links, uid, url).value;
    assert s'.memberships + {(cid, lid)} == s.memberships;
  }
}
