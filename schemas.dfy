/** app/schemas.py: the request validators and the update schemas whose set
    fields the update handlers copy onto a row. */
module Schemas {
  import opened Wrappers
  import opened Models
  import opened Utils

  // ---------------------------------------------------------------------
  // UserCreate

  /** v.split(c)[-1]: the text after the last c, or all of v when c is absent. */
  function AfterLast(v: string, c: char): (r: string)
    ensures |r| <= |v| && r == v[|v| - |r|..]
    ensures c !in r
    ensures |r| < |v| ==> v[|v| - |r| - 1] == c
  {
    if v == [] then []
    else if v[|v| - 1] == c then []
    else AfterLast(v[..|v| - 1], c) + [v[|v| - 1]]
  }

  /** p + [c] + d with no c in d: split(c)[-1] is d. */
  lemma {:induction false} AfterLastAppend(p: string, c: char, d: string)
    requires c !in d
    ensures AfterLast(p + [c] + d, c) == d
  {
    var v := p + [c] + d;
    if d != [] {
      var d' := d[..|d| - 1];
      assert v[..|v| - 1] == p + [c] + d';
      AfterLastAppend(p, c, d');
      assert d == d' + [d[|d| - 1]];
    }
  }

  /** The address an EmailStr field hands on: email-validator's normalised
      form, whose domain (the text after the last '@') is lower-cased while
      the local part is kept. An address without '@' is refused. */
  function NormalizeEmail(v: string): (r: Result<string>)
    ensures r.Err? <==> '@' !in v
    ensures r.Err? ==> r.error == InvalidEmail
    ensures r.Ok? ==> |r.value| == |v|
    ensures r.Ok? ==> var k := |v| - |AfterLast(v, '@')|;
      && 0 < k && v[k - 1] == '@'
      && (forall i :: 0 <= i < k ==> r.value[i] == v[i])
      && (forall i :: k <= i < |v| ==> r.value[i] == LowerChar(v[i]))
  {
    if '@' !in v then Err(InvalidEmail)
    else
      var d := AfterLast(v, '@');
      Ok(v[..|v| - |d|] + Lower(d))
  }

  /** Two addresses that differ only in the case of their domain normalise to
      the same address. */
  lemma NormalizeEmailDomainCase(local: string, d1: string, d2: string)
    requires '@' !in d1 && '@' !in d2 && Lower(d1) == Lower(d2)
    ensures NormalizeEmail(local + "@" + d1) == NormalizeEmail(local + "@" + d2)
  {
    AfterLastAppend(local, '@', d1);
    AfterLastAppend(local, '@', d2);
    assert (local + "@" + d1)[..|local| + 1] == local + "@";
    assert (local + "@" + d2)[..|local| + 1] == local + "@";
  }

  /** validate_email_format: an '@', and a '.' somewhere after the last '@'. */
  function ValidateEmail(v: string): (r: Result<string>)
    ensures r.Ok? ==> r.value == v
    ensures r.Err? ==> r.error == InvalidEmail
  {
    if '@' !in v || '.' !in AfterLast(v, '@') then Err(InvalidEmail) else Ok(v)
  }

  /** The accepted emails, stated by position: some '@' has no '@' after it
      and a '.' after it. */
  lemma ValidateEmailExactly(v: string)
    ensures ValidateEmail(v).Ok? <==>
      exists i :: 0 <= i < |v| && v[i] == '@' && '@' !in v[i + 1..] && '.' in v[i + 1..]
  {
    var r := AfterLast(v, '@');
    if '@' in v {
      var k := |v| - |r| - 1;
      assert v[k + 1..] == r;
    }
  }

  /** validate_password_length */
  function ValidatePassword(v: string): (r: Result<string>)
    ensures r.Ok? <==> |v| >= 8
    ensures r.Ok? ==> r.value == v
    ensures r.Err? ==> r.error == WeakPassword
  {
    if |v| < 8 then Err(WeakPassword) else Ok(v)
  }

  // ---------------------------------------------------------------------
  // Collection

  /** handle_links_loading: None becomes [], any other iterable the list of
      its elements in order. */
  function HandleLinksLoading<T>(v: Option<seq<T>>): (r: seq<T>)
    ensures v.None? ==> r == []
    ensures v.Some? ==> |r| == |v.value| && forall i :: 0 <= i < |r| ==> r[i] == v.value[i]
  {
    if v.None? then [] else v.value
  }

  // ---------------------------------------------------------------------
  // Update schemas

  /** A field of a request body: left out by the client, or given (possibly null). */
  datatype Field<T> = Unset | Set(value: T)

  /** LinkUpdate; its declared defaults are "" for the text fields and "website" for type. */
  datatype LinkUpdate = LinkUpdate(
    title: Field<Option<string>>,
    description: Field<Option<string>>,
    image: Field<Option<string>>,
    linkType: Field<Option<string>>)

  /** CollectionUpdate; an updated_at given by the client is overwritten by the handler. */
  datatype CollectionUpdate = CollectionUpdate(
    name: Field<Option<string>>,
    description: Field<Option<string>>,
    updatedAt: Field<Option<Time>>)

  /** The declared default of LinkBase.type and LinkUpdate.type. */
  const DefaultSchemaLinkType: string := "website"

  /** update_data.model_dump(exclude_unset=excludeUnset).get('type'). */
  function DumpedLinkType(u: LinkUpdate, excludeUnset: bool): (r: Option<string>)
    ensures u.linkType.Set? ==> r == u.linkType.value
    ensures u.linkType.Unset? && excludeUnset ==> r == None
    ensures u.linkType.Unset? && !excludeUnset ==> r == Some(DefaultLinkType)
  {
    match u.linkType
    case Set(t) => t
    case Unset => if excludeUnset then None else Some(DefaultSchemaLinkType)
  }

  /** The fields of LinkUpdate, in declaration order. */
  datatype LinkField = TitleField | DescriptionField | ImageField | TypeField

  /** The fields of CollectionUpdate, in declaration order. */
  datatype CollectionField = NameField | CollectionDescriptionField | UpdatedAtField

  predicate LinkFieldSet(u: LinkUpdate, f: LinkField) {
    match f
    case TitleField => u.title.Set?
    case DescriptionField => u.description.Set?
    case ImageField => u.image.Set?
    case TypeField => u.linkType.Set?
  }

  predicate CollectionFieldSet(u: CollectionUpdate, f: CollectionField) {
    match f
    case NameField => u.name.Set?
    case CollectionDescriptionField => u.description.Set?
    case UpdatedAtField => u.updatedAt.Set?
  }

  /** The keys of model_dump(exclude_unset=True), in order. */
  function LinkUpdateKeys(u: LinkUpdate): (keys: seq<LinkField>)
    ensures forall f :: f in keys <==> LinkFieldSet(u, f)
    ensures forall i, j :: 0 <= i < j < |keys| ==> keys[i] != keys[j]
  {
    (if u.title.Set? then [TitleField] else [])
    + (if u.description.Set? then [DescriptionField] else [])
    + (if u.image.Set? then [ImageField] else [])
    + (if u.linkType.Set? then [TypeField] else [])
  }

  /** The keys of model_dump(exclude_unset=True), in order. */
  function CollectionUpdateKeys(u: CollectionUpdate): (keys: seq<CollectionField>)
    ensures forall f :: f in keys <==> CollectionFieldSet(u, f)
    ensures forall i, j :: 0 <= i < j < |keys| ==> keys[i] != keys[j]
  {
    (if u.name.Set? then [NameField] else [])
    + (if u.description.Set? then [CollectionDescriptionField] else [])
    + (if u.updatedAt.Set? then [UpdatedAtField] else [])
  }
}
