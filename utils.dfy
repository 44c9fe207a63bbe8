/** app/utils.py: link-type normalisation and the choice of metadata fields
    from a fetched page. The fetch and the HTML parsing are not modelled: the
    tags the parser found are inputs. */
module Utils {
  import opened Wrappers
  import opened Models

  /** str.lower() on one character (ASCII letters only). */
  function LowerChar(c: char): char {
    if 'A' <= c <= 'Z' then (c as int + 32) as char else c
  }

  function Lower(s: string): (r: string)
    ensures |r| == |s|
    ensures forall i :: 0 <= i < |s| ==> r[i] == LowerChar(s[i])
  {
    if s == [] then [] else [LowerChar(s[0])] + Lower(s[1..])
  }

  /** s.split('.')[0]: the longest prefix without a dot. */
  function BeforeDot(s: string): (r: string)
    ensures r <= s
    ensures '.' !in r
    ensures |r| < |s| ==> s[|r|] == '.'
  {
    if s == [] || s[0] == '.' then [] else [s[0]] + BeforeDot(s[1..])
  }

  /** normalize_link_type: map og:type onto one of the allowed link types. */
  function NormalizeLinkType(ogType: Option<string>): (r: string)
    ensures r in AllowedLinkTypes
    ensures ogType == None || ogType == Some("") ==> r == DefaultLinkType
  {
    if ogType.None? || ogType.value == "" then
      DefaultLinkType
    else
      var t := BeforeDot(Lower(ogType.value));
      if t in AllowedLinkTypes then t else DefaultLinkType
  }

  /** The prefix before the first dot is t exactly when the string is t or
      starts with t followed by a dot. */
  lemma {:induction false} BeforeDotIs(u: string, t: string)
    requires '.' !in t
    ensures BeforeDot(u) == t <==> u == t || t + "." <= u
  {
    var r := BeforeDot(u);
    if t + "." <= u {
      assert u[|t|] == '.';
      assert r == u[..|r|] == t;
    }
    if r == t && u != t {
      assert u[..|t| + 1] == t + ".";
    }
  }

  /** A string without upper-case letters is its own lower-case form. */
  lemma {:induction false} LowerFixed(t: string)
    requires forall i :: 0 <= i < |t| ==> !('A' <= t[i] <= 'Z')
    ensures Lower(t) == t
  {
    if t != [] {
      LowerFixed(t[1..]);
    }
  }

  lemma {:induction false} BeforeDotFixed(t: string)
    requires forall i :: 0 <= i < |t| ==> t[i] != '.'
    ensures BeforeDot(t) == t
  {
    if t != [] {
      BeforeDotFixed(t[1..]);
    }
  }

  /** A string of lower-case letters is left alone by both steps. */
  lemma PlainFixed(t: string)
    requires forall i :: 0 <= i < |t| ==> 'a' <= t[i] <= 'z'
    ensures Lower(t) == t && BeforeDot(t) == t
  {
    LowerFixed(t);
    BeforeDotFixed(t);
  }

  lemma AllowedLower(t: string)
    requires t in AllowedLinkTypes
    ensures forall i :: 0 <= i < |t| ==> 'a' <= t[i] <= 'z'
  {
  }

  /** Every allowed type is lower case and has no dot. */
  lemma AllowedPlain(t: string)
    requires t in AllowedLinkTypes
    ensures Lower(t) == t && BeforeDot(t) == t
  {
    AllowedLower(t);
    PlainFixed(t);
  }

  /** Which og:type values normalise to a given allowed type: those whose lower
      case is that type, or that type followed by a dot and anything. */
  lemma NormalizeLinkTypeExactly(s: string, t: string)
    requires s != "" && t in AllowedLinkTypes && t != DefaultLinkType
    ensures NormalizeLinkType(Some(s)) == t <==> Lower(s) == t || t + "." <= Lower(s)
  {
    AllowedLower(t);
    BeforeDotIs(Lower(s), t);
  }

  /** Normalising an already normalised type changes nothing. */
  lemma NormalizeLinkTypeIdempotent(ogType: Option<string>)
    ensures NormalizeLinkType(Some(NormalizeLinkType(ogType))) == NormalizeLinkType(ogType)
  {
    AllowedPlain(NormalizeLinkType(ogType));
  }

  /** The case the source's comment names: "video.other" becomes "video". */
  lemma NormalizeVideoOther()
    ensures NormalizeLinkType(Some("video.other")) == "video"
  {
    LowerFixed("video.other");
    assert "video" + "." <= "video.other";
    NormalizeLinkTypeExactly("video.other", "video");
  }

  /** An og:type that is not an allowed type falls back to "website". */
  lemma NormalizeUnknown()
    ensures NormalizeLinkType(Some("profile")) == DefaultLinkType
  {
    PlainFixed("profile");
  }

  // ---------------------------------------------------------------------
  // get_metadata_from_link, minus the fetch and the parse

  /** A meta tag the parser found; its content attribute may be missing. */
  datatype MetaTag = MetaTag(content: Option<string>)

  /** The tags looked for in a fetched page; None where find() found nothing.
      `title` is the text of the <title> element. */
  datatype Page = Page(
    ogTitle: Option<MetaTag>,
    ogDescription: Option<MetaTag>,
    ogImage: Option<MetaTag>,
    ogType: Option<MetaTag>,
    title: Option<string>,
    metaDescription: Option<MetaTag>)

  /** The dictionary handed to LinkCreate. */
  datatype Metadata = Metadata(
    title: string, url: string, description: Option<string>, image: Option<string>, linkType: string)

  /** tag["content"]: a KeyError when the attribute is missing. */
  function Content(tag: MetaTag): (r: Result<string>)
    ensures r.Ok? <==> tag.content.Some?
    ensures r.Ok? ==> r.value == tag.content.value
  {
    if tag.content.Some? then Ok(tag.content.value) else Err(MissingAttribute)
  }

  /** Whether every tag the field selection reads has a content attribute. */
  predicate ContentsPresent(p: Page) {
    && (p.ogTitle.Some? ==> p.ogTitle.value.content.Some?)
    && (p.ogDescription.Some? ==> p.ogDescription.value.content.Some?)
    && (p.ogDescription.None? && p.metaDescription.Some? ==> p.metaDescription.value.content.Some?)
    && (p.ogImage.Some? ==> p.ogImage.value.content.Some?)
  }

  /** get_metadata_from_link: `page` is None when the request failed. */
  function GetMetadataFromLink(url: Option<string>, page: Option<Page>): (r: Result<Metadata>)
    ensures url == None || url == Some("") ==> r == Err(InvalidUrl)
    ensures r.Ok? <==> url.Some? && url.value != "" && page.Some? && ContentsPresent(page.value)
    ensures r.Ok? ==> r.value.url == url.value && r.value.linkType in AllowedLinkTypes
  {
    if url.None? || url.value == "" then
      Err(InvalidUrl)
    else if page.None? then
      Err(FetchFailed)
    else
      var p := page.value;
      var linkType := if p.ogType.Some? then NormalizeLinkType(p.ogType.value.content) else DefaultLinkType;
      var title :=
        if p.ogTitle.Some? then Content(p.ogTitle.value)
        else if p.title.Some? then Ok(p.title.value)
        else Ok(url.value);
      var description :=
        if p.ogDescription.Some? then
          (var c := Content(p.ogDescription.value); if c.Ok? then Ok(Some(c.value)) else Err(c.error))
        else if p.metaDescription.Some? then
          (var c := Content(p.metaDescription.value); if c.Ok? then Ok(Some(c.value)) else Err(c.error))
        else Ok(None);
      var image :=
        if p.ogImage.Some? then
          (var c := Content(p.ogImage.value); if c.Ok? then Ok(Some(c.value)) else Err(c.error))
        else Ok(None);
      if title.Err? then Err(title.error)
      else if description.Err? then Err(description.error)
      else if image.Err? then Err(image.error)
      else Ok(Metadata(title.value, url.value, description.value, image.value, linkType))
  }

  /** The fallbacks: title from og:title, else <title>, else the url;
      description from og:description, else meta description, else None;
      type "website" unless og:type is present, then its normalised content. */
  lemma MetadataFallbacks(url: string, p: Page)
    requires url != "" && ContentsPresent(p)
    ensures var m := GetMetadataFromLink(Some(url), Some(p)).value;
      && m.title == (if p.ogTitle.Some? then p.ogTitle.value.content.value
                     else if p.title.Some? then p.title.value else url)
      && m.description == (if p.ogDescription.Some? then p.ogDescription.value.content
                           else if p.metaDescription.Some? then p.metaDescription.value.content else None)
      && m.image == (if p.ogImage.Some? then p.ogImage.value.content else None)
      && m.linkType == (if p.ogType.Some? then NormalizeLinkType(p.ogType.value.content) else DefaultLinkType)
  {
  }
}
