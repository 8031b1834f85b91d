/** `_create_article` (feed.py): one parsed feed entry becomes an article row.
    feedparser's entry dictionary and `mktime` are collaborators: an entry is
    given with the keys it has and the timestamps `mktime` makes of them. */
module Entries {
  import opened Records

  /** A timestamp key of the entry: missing, present but not convertible
      (None, or a value `mktime` refuses with TypeError or ValueError), or converted. */
  datatype Stamp = Absent | Unusable | At(seconds: int)

  /** The keys `_create_article` reads. `content` is the list under the `content`
      key, each element reduced to its `value`, or None when the key is missing. */
  datatype Entry = Entry(
    id: Option<string>,
    link: Option<string>,
    title: Option<string>,
    author: Option<string>,
    content: Option<seq<string>>,
    summary: Option<string>,
    enclosureLink: Option<string>,
    enclosureMime: Option<string>,
    updated: Stamp,
    published: Stamp)

  /** `id or link or title`: the first truthy one, else whatever the title holds. */
  function Guid(e: Entry): (r: Option<string>)
    ensures Truthy(e.id) ==> r == e.id
    ensures !Truthy(e.id) && Truthy(e.link) ==> r == e.link
    // the title is the guid of last resort, truthy or not
    ensures !Truthy(e.id) && !Truthy(e.link) ==> r == e.title
    ensures r.None? <==> !Truthy(e.id) && !Truthy(e.link) && e.title.None?
    ensures r.Some? && r.value == "" <==> !Truthy(e.id) && !Truthy(e.link) && e.title == Some("")
  {
    if Truthy(e.id) then e.id else if Truthy(e.link) then e.link else e.title
  }

  /** The first content value when the key is there (IndexError on an empty list), else the summary. */
  function Content(e: Entry): (r: Result<Option<string>>)
    ensures r.Err? <==> e.content == Some([])
    ensures r.Err? ==> r.error == EmptyContentList
    ensures e.content.None? ==> r == Ok(e.summary)
    ensures r.Ok? && e.content.Some? ==> r.value == Some(e.content.value[0])
  {
    match e.content
    case None => Ok(e.summary)
    case Some(values) => if values == [] then Err(EmptyContentList) else Ok(Some(values[0]))
  }

  /** `updated_parsed`, or the clock when it cannot be converted. */
  function UpdatedDate(e: Entry, now: int): int
    requires !e.updated.Absent?
  {
    if e.updated.At? then e.updated.seconds else now
  }

  /** `published_parsed`, falling back to the updated date when missing or unusable. */
  function PubDate(e: Entry, now: int): int
    requires !e.updated.Absent?
  {
    if e.published.At? then e.published.seconds else UpdatedDate(e, now)
  }

  /** Whether `_create_article` raises, and with what; the checks run in the order
      the function evaluates them: content, guid, then the `updated_parsed` lookup. */
  function Failure(e: Entry): (r: Option<Error>)
    ensures r.None? <==> Content(e).Ok? && Guid(e).Some? && !e.updated.Absent?
  {
    if Content(e).Err? then Some(EmptyContentList)
    else if Guid(e).None? then Some(MissingGuid)
    else if e.updated.Absent? then Some(MissingUpdatedKey)
    else None
  }

  /** `_create_article`. A new row carries id 0 until the store assigns it one. */
  function CreateArticle(e: Entry, feedId: int, now: int, hash: Hasher): (r: Result<Article>)
    ensures r.Err? <==> Failure(e).Some?
    ensures r.Err? ==> r.error == Failure(e).value
    ensures r.Ok? ==> var a := r.value;
      && a.feedId == feedId
      && Some(a.guid) == Guid(e) && a.guidHash == hash(a.guid)
      && a.content == Content(e).value
      && a.title == e.title && a.url == e.link && a.author == e.author
      && a.enclosureLink == e.enclosureLink && a.enclosureMime == e.enclosureMime
      && a.updatedDate == Some(if e.updated.At? then e.updated.seconds else now)
      && a.pubDate == Some(if e.published.At? then e.published.seconds else a.updatedDate.value)
      && a.unread && !a.starred && a.lastModified == now
    ensures r.Ok? ==> GuidHash(e, hash) == Some(r.value.guidHash)
  {
    match Failure(e)
    case Some(why) => Err(why)
    case None =>
      var guid := Guid(e).value;
      Ok(Article(
        id := 0, feedId := feedId, title := e.title, content := Content(e).value, author := e.author,
        url := e.link, guid := guid, guidHash := hash(guid),
        enclosureLink := e.enclosureLink, enclosureMime := e.enclosureMime,
        pubDate := Some(PubDate(e, now)), updatedDate := Some(UpdatedDate(e, now)),
        lastModified := now, unread := true, starred := false))
  }

  /** The guid hash of an entry that normalises; it does not depend on the clock. */
  function GuidHash(e: Entry, hash: Hasher): (r: Option<string>)
    ensures r.Some? <==> Failure(e).None?
  {
    if Failure(e).None? then Some(hash(Guid(e).value)) else None
  }

  /** Whether an entry normalises, and the hash it gets, are the same at every clock reading. */
  lemma ClockIndependent(e: Entry, feedId: int, t1: int, t2: int, hash: Hasher)
    ensures CreateArticle(e, feedId, t1, hash).Ok? == CreateArticle(e, feedId, t2, hash).Ok?
    ensures CreateArticle(e, feedId, t1, hash).Ok? ==>
              CreateArticle(e, feedId, t1, hash).value.guidHash == CreateArticle(e, feedId, t2, hash).value.guidHash
  {
  }

  /** An entry whose id, link and title are all "" still gets a guid: the empty string. */
  lemma EmptyKeysGiveEmptyGuid(e: Entry, feedId: int, now: int, hash: Hasher)
    requires e.id == Some("") && e.link == Some("") && e.title == Some("")
    requires e.content.None? && e.updated.At?
    ensures CreateArticle(e, feedId, now, hash).Ok?
    ensures CreateArticle(e, feedId, now, hash).value.guid == ""
  {
  }

  /** Without an id or a link the guid is the title, and only a missing title fails. */
  lemma TitleIsLastResort(e: Entry)
    requires !Truthy(e.id) && !Truthy(e.link)
    ensures Guid(e).None? <==> e.title.None?
    ensures Guid(e).Some? ==> Guid(e) == e.title
  {
  }
}
