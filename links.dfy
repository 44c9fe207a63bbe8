/** app/routers/links.py: the caller's saved links. The page of a new link
    is an input: fetching and parsing it is outside the model. */
module LinksRouter {
  import opened Wrappers
  import opened Models
  import opened Schemas
  import opened Utils
  import opened Database

  /** The caller's links with this url: the rows delete_link deletes. */
  function OwnedWithUrl(s: State, uid: Id, url: Option<string>): set<Id> {
    set id | id in s.links && s.links[id].userId == uid && url == Some(s.links[id].url)
  }

  predicate UrlTaken(links: map<Id, Link>, url: Option<string>) {
    exists id :: id in links && url == Some(links[id].url)
  }

  // ---------------------------------------------------------------------
  // Reads

  /** get_links: exactly the caller's links; none is not an error. */
  function GetLinks(s: State, uid: Id): (r: map<Id, Link>)
    ensures forall id :: id in r <==> id in s.links && s.links[id].userId == uid
    ensures forall id :: id in r ==> r[id] == s.links[id]
  {
    map id | id in s.links && s.links[id].userId == uid :: s.links[id]
  }

  /** get_link: the caller's link with this url. */
  function GetLink(s: State, uid: Id, url: Option<string>): (r: Result<Link>)
    requires UrlsUnique(s.links)
    ensures r.Err? <==> forall id :: id in s.links && url == Some(s.links[id].url) ==> s.links[id].userId != uid
    ensures r.Err? ==> r.error == LinkNotFound
    ensures r.Ok? ==> r.value.userId == uid && url == Some(r.value.url)
    ensures r.Ok? ==> exists id :: id in s.links && s.links[id] == r.value
  {
    match OwnedLinkByUrl(s.links, uid, url)
    case None => Err(LinkNotFound)
    case Some(lid) => Ok(s.links[lid])
  }

  // ---------------------------------------------------------------------
  // The setattr loop of update_link

  /** A title present in the update is a string (links.title is NOT NULL). */
  predicate TitleNotNull(u: LinkUpdate) {
    u.title != Set(None)
  }

  /** setattr(link, field, value) for the keys of the update, in order. */
  function ApplyLinkFields(l: Link, u: LinkUpdate, fields: seq<LinkField>): Link
    requires TitleNotNull(u)
    requires forall f :: f in fields ==> LinkFieldSet(u, f)
    decreases |fields|
  {
    if fields == [] then l
    else
      var last := fields[|fields| - 1];
      assert last in fields && LinkFieldSet(u, last);
      assert forall f :: f in fields[..|fields| - 1] ==> f in fields;
      var prev := ApplyLinkFields(l, u, fields[..|fields| - 1]);
      match last
      case TitleField => prev.(title := u.title.value.value)
      case DescriptionField => prev.(description := u.description.value)
      case ImageField => prev.(image := u.image.value)
      case TypeField => prev.(linkType := u.linkType.value)
  }

  /** The row update_link commits: each field present in the update takes
      its new value, the others keep theirs, and updated_at is now. */
  function UpdatedLink(l: Link, u: LinkUpdate, now: Time): Link
    requires TitleNotNull(u)
  {
    l.(title := if u.title.Set? then u.title.value.value else l.title,
       description := if u.description.Set? then u.description.value else l.description,
       image := if u.image.Set? then u.image.value else l.image,
       linkType := if u.linkType.Set? then u.linkType.value else l.linkType,
       updatedAt := now)
  }

  /** Applying a list of present fields sets exactly those fields. */
  lemma {:induction false} ApplyLinkFieldsEffect(l: Link, u: LinkUpdate, fields: seq<LinkField>)
    requires TitleNotNull(u)
    requires forall f :: f in fields ==> LinkFieldSet(u, f)
    ensures var r := ApplyLinkFields(l, u, fields);
      && r.userId == l.userId && r.url == l.url && r.createdAt == l.createdAt && r.updatedAt == l.updatedAt
      && r.title == (if TitleField in fields then u.title.value.value else l.title)
      && r.description == (if DescriptionField in fields then u.description.value else l.description)
      && r.image == (if ImageField in fields then u.image.value else l.image)
      && r.linkType == (if TypeField in fields then u.linkType.value else l.linkType)
  {
    if fields != [] {
      var init := fields[..|fields| - 1];
      assert forall f :: f in init ==> f in fields;
      ApplyLinkFieldsEffect(l, u, init);
      assert fields == init + [fields[|fields| - 1]];
    }
  }

  /** The loop over model_dump(exclude_unset=True) followed by the updated_at
      assignment yields UpdatedLink. */
  lemma LinkUpdateLoopCorrect(l: Link, u: LinkUpdate, now: Time)
    requires TitleNotNull(u)
    ensures ApplyLinkFields(l, u, LinkUpdateKeys(u)).(updatedAt := now) == UpdatedLink(l, u, now)
  {
    ApplyLinkFieldsEffect(l, u, LinkUpdateKeys(u));
  }

  // ---------------------------------------------------------------------
  // Specifications of the mutating handlers

  /** add_url: a url any user has saved is refused before the page is read;
      otherwise the metadata becomes a new link owned by the caller. */
  function AddUrlSpec(s: State, uid: Id, url: Option<string>, page: Option<Page>, now: Time): Outcome<Link>
  {
    if UrlTaken(s.links, url) then Outcome(s, Err(LinkExists))
    else match GetMetadataFromLink(url, page)
      case Err(e) => Outcome(s, Err(e))
      case Ok(m) =>
        var l := Link(uid, m.title, m.url, m.description, m.image, Some(m.linkType), now, now);
        Outcome(s.(links := s.links[s.nextLinkId := l], nextLinkId := s.nextLinkId + 1), Ok(l))
  }

  /** delete_link: deletes the caller's link with this url (its
      collection_links rows cascade) and answers with the row count. */
  function DeleteLinkSpec(s: State, uid: Id, url: Option<string>): Outcome<nat>
    requires UrlsUnique(s.links)
  {
    if OwnedLinkByUrl(s.links, uid, url).None? then Outcome(s, Err(LinkNotFound))
    else
      var ids := OwnedWithUrl(s, uid, url);
      Outcome(RemoveLinks(s, ids), Ok(|ids|))
  }

  /** update_link: the caller's link; the dumped update must carry an allowed
      type; a NULL title fails the NOT NULL column at commit. */
  function UpdateLinkSpec(s: State, uid: Id, url: Option<string>, u: LinkUpdate, now: Time): Outcome<Link>
    requires UrlsUnique(s.links)
  {
    match OwnedLinkByUrl(s.links, uid, url)
    case None => Outcome(s, Err(LinkNotFound))
    case Some(lid) =>
      var t := DumpedLinkType(u, true);
      if t.None? || t.value !in AllowedLinkTypes then Outcome(s, Err(InvalidLinkType))
      else if !TitleNotNull(u) then Outcome(s, Err(NotNullViolation))
      else
        var l := UpdatedLink(s.links[lid], u, now);
        Outcome(s.(links := s.links[lid := l]), Ok(l))
  }

  // ---------------------------------------------------------------------
  // The handlers

  method AddUrl(db: Db, uid: Id, url: Option<string>, page: Option<Page>, now: Time) returns (r: Result<Link>)
    requires db.Valid() && uid in db.users
    modifies db
    ensures db.Valid()
    ensures Outcome(db.Abs(), r) == AddUrlSpec(old(db.Abs()), uid, url, page, now)
  {
    AddUrlConsistent(db.Abs(), uid, url, page, now);
    if UrlTaken(db.links, url) {
      return Err(LinkExists);
    }
    var metadata := GetMetadataFromLink(url, page);
    if metadata.Err? {
      return Err(metadata.error);
    }
    var m := metadata.value;
    var l := Link(uid, m.title, m.url, m.description, m.image, Some(m.linkType), now, now);
    db.links := db.links[db.nextLinkId := l];
    db.nextLinkId := db.nextLinkId + 1;
    r := Ok(l);
  }

  method DeleteLink(db: Db, uid: Id, url: Option<string>) returns (r: Result<nat>)
    requires db.Valid()
    modifies db
    ensures db.Valid()
    ensures Outcome(db.Abs(), r) == DeleteLinkSpec(old(db.Abs()), uid, url)
  {
    DeleteLinkConsistent(db.Abs(), uid, url);
    if OwnedLinkByUrl(db.links, uid, url).None? {
      return Err(LinkNotFound);
    }
    var ids := OwnedWithUrl(db.Abs(), uid, url);
    // DELETE ... WHERE url = :url AND user_id = :uid; collection_links cascades
    db.links := map id | id in db.links && id !in ids :: db.links[id];
    db.memberships := set m | m in db.memberships && m.1 !in ids;
    r := Ok(|ids|);
  }

  method UpdateLink(db: Db, uid: Id, url: Option<string>, u: LinkUpdate, now: Time) returns (r: Result<Link>)
    requires db.Valid()
    modifies db
    ensures db.Valid()
    ensures Outcome(db.Abs(), r) == UpdateLinkSpec(old(db.Abs()), uid, url, u, now)
  {
    UpdateLinkConsistent(db.Abs(), uid, url, u, now);
    var found := OwnedLinkByUrl(db.links, uid, url);
    if found.None? {
      return Err(LinkNotFound);
    }
    var lid := found.value;
    var t := DumpedLinkType(u, true);
    if t.None? || t.value !in AllowedLinkTypes {
      return Err(InvalidLinkType);
    }
    // a NULL title would make the flush at commit fail and roll back
    if !TitleNotNull(u) {
      return Err(NotNullViolation);
    }
    var keys := LinkUpdateKeys(u);
    var row := db.links[lid];
    var i := 0;
    while i < |keys|
      invariant 0 <= i <= |keys|
      invariant row == ApplyLinkFields(db.links[lid], u, keys[..i])
      decreases |keys| - i
    {
      assert keys[..i + 1][..i] == keys[..i];
      assert keys[i] in keys;
      // setattr(link, field, value)
      match keys[i] {
        case TitleField => row := row.(title := u.title.value.value);
        case DescriptionField => row := row.(description := u.description.value);
        case ImageField => row := row.(image := u.image.value);
        case TypeField => row := row.(linkType := u.linkType.value);
      }
      i := i + 1;
    }
    assert keys[..i] == keys;
    LinkUpdateLoopCorrect(db.links[lid], u, now);
    row := row.(updatedAt := now);
    db.links := db.links[lid := row];
    r := Ok(row);
  }

  // ---------------------------------------------------------------------
  // Consistency

  lemma AddUrlConsistent(s: State, uid: Id, url: Option<string>, page: Option<Page>, now: Time)
    requires Consistent(s) && uid in s.users
    ensures Consistent(AddUrlSpec(s, uid, url, page, now).state)
  {
  }

  lemma DeleteLinkConsistent(s: State, uid: Id, url: Option<string>)
    requires Consistent(s)
    ensures Consistent(DeleteLinkSpec(s, uid, url).state)
  {
    RemoveLinksConsistent(s, OwnedWithUrl(s, uid, url));
  }

  lemma UpdateLinkConsistent(s: State, uid: Id, url: Option<string>, u: LinkUpdate, now: Time)
    requires Consistent(s)
    ensures Consistent(UpdateLinkSpec(s, uid, url, u, now).state)
  {
  }

  // ---------------------------------------------------------------------
  // Properties

  /** add_url succeeds exactly when no user has saved the url and the
      metadata could be read; the new link is the caller's, carries the
      metadata, and nothing else changes. A refusal changes nothing. */
  lemma AddUrlEffect(s: State, uid: Id, url: Option<string>, page: Option<Page>, now: Time)
    requires Consistent(s)
    ensures var o := AddUrlSpec(s, uid, url, page, now);
      && (o.reply.Ok? <==> !UrlTaken(s.links, url) && GetMetadataFromLink(url, page).Ok?)
      && (o.reply.Err? ==> o.state == s)
      && (o.reply.Ok? ==>
            var m := GetMetadataFromLink(url, page).value;
            && o.reply.value == Link(uid, m.title, url.value, m.description, m.image, Some(m.linkType), now, now)
            && s.nextLinkId !in s.links
            && o.state.links == s.links[s.nextLinkId := o.reply.value]
            && o.state == s.(links := o.state.links, nextLinkId := o.state.nextLinkId))
  {
  }

  /** A saved url cannot be saved again, by its owner or anyone else. */
  lemma AddUrlTwice(s: State, uid: Id, other: Id, url: Option<string>, p1: Option<Page>, p2: Option<Page>, t1: Time, t2: Time)
    requires Consistent(s)
    requires AddUrlSpec(s, uid, url, p1, t1).reply.Ok?
    ensures var s' := AddUrlSpec(s, uid, url, p1, t1).state;
      AddUrlSpec(s', other, url, p2, t2) == Outcome(s', Err(LinkExists))
  {
    var s' := AddUrlSpec(s, uid, url, p1, t1).state;
    assert s'.links[s.nextLinkId].url == url.value;
  }

  /** A link added by add_url is what get_link answers with. */
  lemma AddUrlThenGetLink(s: State, uid: Id, url: Option<string>, page: Option<Page>, now: Time)
    requires Consistent(s) && uid in s.users
    requires AddUrlSpec(s, uid, url, page, now).reply.Ok?
    ensures var o := AddUrlSpec(s, uid, url, page, now);
      Consistent(o.state) && GetLink(o.state, uid, url) == Ok(o.reply.value)
  {
    AddUrlConsistent(s, uid, url, page, now);
    var o := AddUrlSpec(s, uid, url, page, now);
    var m := GetMetadataFromLink(url, page).value;
    assert o.state.links[s.nextLinkId] == o.reply.value && o.reply.value.url == m.url == url.value;
    assert OwnedLinkByUrl(o.state.links, uid, url).Some?;
  }

  /** delete_link fails exactly when the caller has no link with that url;
      otherwise it deletes that link and its memberships and nothing else. */
  lemma DeleteLinkEffect(s: State, uid: Id, url: Option<string>)
    requires Consistent(s)
    ensures var o := DeleteLinkSpec(s, uid, url);
      && (o.reply.Err? <==> forall id :: id in s.links && url == Some(s.links[id].url) ==> s.links[id].userId != uid)
      && (o.reply.Err? ==> o.state == s)
      && (o.reply.Ok? ==> exists lid ::
            && lid in s.links && s.links[lid].userId == uid && url == Some(s.links[lid].url)
            && o.reply.value == 1
            && o.state.links == s.links - {lid}
            && (forall m :: m in o.state.memberships <==> m in s.memberships && m.1 != lid)
            && o.state.collections == s.collections && o.state.users == s.users)
  {
    var found := OwnedLinkByUrl(s.links, uid, url);
    if found.Some? {
      var lid := found.value;
      assert OwnedWithUrl(s, uid, url) == {lid};
      var r := DeleteLinkSpec(s, uid, url).state;
      assert r.links == s.links - {lid};
    }
  }

  /** After delete_link, get_link for that url fails. */
  lemma DeleteLinkThenGetLink(s: State, uid: Id, url: Option<string>)
    requires Consistent(s)
    ensures var s' := DeleteLinkSpec(s, uid, url).state;
      Consistent(s') && GetLink(s', uid, url) == Err(LinkNotFound)
  {
    DeleteLinkConsistent(s, uid, url);
  }

  /** The exclude_unset dump has no type when the update omits it, so such an
      update is always refused, even though LinkUpdate declares a default. */
  lemma UpdateLinkOmittedTypeRejected(s: State, uid: Id, url: Option<string>, u: LinkUpdate, now: Time)
    requires Consistent(s)
    requires u.linkType.Unset?
    ensures var o := UpdateLinkSpec(s, uid, url, u, now);
      o.state == s && (o.reply == Err(LinkNotFound) || o.reply == Err(InvalidLinkType))
  {
  }

  /** update_link succeeds exactly for the caller's link with an allowed
      type present and a non-null title; it changes exactly the present
      fields plus updated_at of that one link, and nothing else. */
  lemma UpdateLinkEffect(s: State, uid: Id, url: Option<string>, u: LinkUpdate, now: Time)
    requires Consistent(s)
    ensures var o := UpdateLinkSpec(s, uid, url, u, now);
      && (o.reply.Err? ==> o.state == s)
      && (o.reply.Ok? <==>
            OwnedLinkByUrl(s.links, uid, url).Some? && u.linkType.Set? && u.linkType.value.Some?
            && u.linkType.value.value in AllowedLinkTypes && TitleNotNull(u))
      && (o.reply.Ok? ==> exists lid ::
            && lid in s.links && s.links[lid].userId == uid && url == Some(s.links[lid].url)
            && o.state == s.(links := s.links[lid := o.reply.value])
            && o.reply.value.userId == uid && o.reply.value.url == s.links[lid].url
            && o.reply.value.createdAt == s.links[lid].createdAt && o.reply.value.updatedAt == now
            && o.reply.value.linkType == u.linkType.value
            && o.reply.value.title == (if u.title.Set? then u.title.value.value else s.links[lid].title)
            && o.reply.value.description == (if u.description.Set? then u.description.value else s.links[lid].description)
            && o.reply.value.image == (if u.image.Set? then u.image.value else s.links[lid].image))
  {
  }
}
