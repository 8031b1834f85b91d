/** feed.py's refresh engine and feed management as functions from one snapshot
    of the tables to the next. feedparser and the DNS resolver are collaborators:
    what they answer for a url is the `Network` input. */
module FeedLogic {
  import opened Records
  import opened Store
  import opened Entries
  import opened Ingestion
  import opened Ordering
  import UrlGuard
  import Schedule

  const DefaultMaxArticles := 50
  const FirstRefreshArticles := 10
  const RetentionAge := 90 * 24 * 60 * 60

  /** What feedparser makes of a url: a bozo result, or the feed-level keys and the entries. */
  datatype Document =
    | Malformed(detail: string)
    | Wellformed(title: Option<string>, favicon: Option<string>, link: Option<string>, entries: seq<Entry>)

  /** Everything the outside world answers about one url. */
  datatype FeedSource = FeedSource(location: UrlGuard.ParsedUrl, dns: UrlGuard.Resolution, document: Document)

  type Network = string -> FeedSource

  /** `_parse`: the SSRF guard first (localhost allowed only in testing mode), then the bozo check. */
  function Parse(src: FeedSource, testingMode: bool): (r: Result<Document>)
    ensures r.Ok? <==> UrlGuard.ValidateFeedUrl(src.location, src.dns, None, testingMode).None? && src.document.Wellformed?
    ensures r.Ok? ==> r.value == src.document
    ensures UrlGuard.ValidateFeedUrl(src.location, src.dns, None, testingMode).Some? ==>
              r == Err(SsrfBlocked(UrlGuard.ValidateFeedUrl(src.location, src.dns, None, testingMode).value))
    ensures r.Err? && r.error.FeedParsing? ==> src.document == Malformed(r.error.detail)
  {
    match UrlGuard.ValidateFeedUrl(src.location, src.dns, None, testingMode)
    case Some(why) => Err(SsrfBlocked(why))
    case None =>
      match src.document
      case Malformed(detail) => Err(FeedParsing(detail))
      case Wellformed(_, _, _, _) => Ok(src.document)
  }

  /** The entries `update` looks at: it breaks out of the loop at index `maxArticles`. */
  function Considered(entries: seq<Entry>, maxArticles: int): (r: seq<Entry>)
    ensures |r| == (if maxArticles <= 0 then 0 else if |entries| < maxArticles then |entries| else maxArticles)
    ensures r == entries[..|r|]
  {
    if maxArticles <= 0 then [] else if |entries| < maxArticles then entries else entries[..maxArticles]
  }

  // ---------------------------------------------------------------- retention

  /** The rows `clean_up_old_articles` selects for deletion. */
  predicate Expired(a: Article, feedId: int, observed: seq<string>, now: int) {
    && a.feedId == feedId
    && a.lastModified < now - RetentionAge
    && !a.unread
    && !a.starred
    && a.guidHash !in observed
  }

  /** The article table after `clean_up_old_articles(feedId, observed)`. */
  function Retain(articles: map<int, Article>, feedId: int, observed: seq<string>, now: int): (r: map<int, Article>)
    ensures forall k :: k in r <==> k in articles && !Expired(articles[k], feedId, observed, now)
    ensures forall k :: k in r ==> r[k] == articles[k]
  {
    map k | k in articles && !Expired(articles[k], feedId, observed, now) :: articles[k]
  }

  /** Only the feed's own read, unstarred, stale rows go; an observed hash is never deleted,
      and neither is anything unread, starred, recently modified or of another feed. */
  lemma RetainSpares(articles: map<int, Article>, feedId: int, observed: seq<string>, now: int, k: int)
    requires k in articles
    requires || articles[k].feedId != feedId || articles[k].unread || articles[k].starred
             || articles[k].lastModified >= now - RetentionAge || articles[k].guidHash in observed
    ensures k in Retain(articles, feedId, observed, now)
  {
  }

  /** Deleting rows keeps the table consistent. */
  lemma RetainKeepsValid(articles: map<int, Article>, nextId: int, feedId: int, observed: seq<string>, now: int, hash: Hasher)
    requires ArticlesValid(articles, nextId, hash)
    ensures ArticlesValid(Retain(articles, feedId, observed, now), nextId, hash)
  {
  }

  /** The four retention cases: 91 days stale, read, unstarred and unobserved goes;
      the same row starred, unread, or modified just now stays. */
  lemma RetentionCases(a: Article, now: int)
    requires !a.unread && !a.starred && a.lastModified == now - 91 * 24 * 60 * 60
    ensures Expired(a, a.feedId, [], now)
    ensures !Expired(a.(starred := true), a.feedId, [], now)
    ensures !Expired(a.(unread := true), a.feedId, [], now)
    ensures !Expired(a.(lastModified := now), a.feedId, [], now)
    ensures !Expired(a, a.feedId, [a.guidHash], now)
  {
  }

  // ---------------------------------------------------------------- refresh

  /** Articles of the feed published after `now` minus a week. */
  function RecentCount(articles: map<int, Article>, feedId: int, now: int): nat {
    |set k | k in articles && articles[k].feedId == feedId && articles[k].pubDate.Some?
                             && articles[k].pubDate.value > now - Schedule.Week|
  }

  /** The feed row after a failed parse. */
  function RecordFailure(f: Feed, e: Error): (r: Feed)
    ensures r.updateErrorCount == f.updateErrorCount + 1 && r.lastUpdateError == Some(e)
    ensures r.(updateErrorCount := f.updateErrorCount, lastUpdateError := f.lastUpdateError) == f
  {
    f.(updateErrorCount := f.updateErrorCount + 1, lastUpdateError := Some(e))
  }

  /** The feed row after a successful parse, before rescheduling. */
  function ClearErrors(f: Feed): Feed {
    if f.updateErrorCount > 0 then f.(updateErrorCount := 0, lastUpdateError := None) else f
  }

  /** The loop over the entries starting from the state's article table. */
  function IngestInto(s: State, doc: Document, feedId: int, maxArticles: int, now: int, hash: Hasher): Batch
    requires doc.Wellformed?
  {
    Ingest(Batch(s.articles, s.nextArticleId, [], 0), Considered(doc.entries, maxArticles), feedId, now, hash)
  }

  /** `update(feedId, maxArticles)`. */
  function Refresh(s: State, feedId: int, maxArticles: int, net: Network, testingMode: bool, now: int, jitter: int, hash: Hasher)
    : (r: Step<Outcome>)
    requires Schedule.ValidJitter(jitter)
    ensures feedId !in s.feeds ==> r == Step(Failed(NoFeed), s)
    ensures feedId in s.feeds ==> r.out == Done
    // only the feed's own row and the article table change; in the row, only the error and schedule fields
    ensures feedId in s.feeds ==>
      && r.after == s.(feeds := r.after.feeds, articles := r.after.articles, nextArticleId := r.after.nextArticleId)
      && feedId in r.after.feeds
      && r.after.feeds == s.feeds[feedId := r.after.feeds[feedId]]
      && r.after.feeds[feedId] == s.feeds[feedId].(updateErrorCount := r.after.feeds[feedId].updateErrorCount,
                                                   lastUpdateError := r.after.feeds[feedId].lastUpdateError,
                                                   nextUpdateTime := r.after.feeds[feedId].nextUpdateTime)
    // a failed parse bumps the error count by one, records the error, and changes nothing else
    ensures feedId in s.feeds && Parse(net(s.feeds[feedId].url), testingMode).Err? ==>
      r.after == s.(feeds := s.feeds[feedId := RecordFailure(s.feeds[feedId], Parse(net(s.feeds[feedId].url), testingMode).error)])
    // a successful one clears the error, and schedules the next poll no later than a day and a half hour from now
    ensures feedId in s.feeds && Parse(net(s.feeds[feedId].url), testingMode).Ok? ==>
      var g := r.after.feeds[feedId];
      && (s.feeds[feedId].updateErrorCount >= 0 ==> g.updateErrorCount == 0)
      && (s.feeds[feedId].updateErrorCount > 0 ==> g.lastUpdateError.None?)
      && g.nextUpdateTime.Some? && now <= g.nextUpdateTime.value <= now + Schedule.OneDay + Schedule.ThirtyMinutes
  {
    if feedId !in s.feeds then Step(Failed(NoFeed), s)
    else
      var f := s.feeds[feedId];
      match Parse(net(f.url), testingMode)
      case Err(e) => Step(Done, s.(feeds := s.feeds[feedId := RecordFailure(f, e)]))
      case Ok(doc) => Step(Done, Refreshed(s, feedId, doc, maxArticles, now, jitter, hash))
  }

  /** The tables after the feed's document was read: its entries ingested, its errors
      cleared, its next poll scheduled, and its expired articles removed. */
  function Refreshed(s: State, feedId: int, doc: Document, maxArticles: int, now: int, jitter: int, hash: Hasher): State
    requires feedId in s.feeds && doc.Wellformed? && Schedule.ValidJitter(jitter)
  {
    var b := IngestInto(s, doc, feedId, maxArticles, now, hash);
    var next := Schedule.NextUpdateTime(RecentCount(b.articles, feedId, now), now, jitter);
    var g := ClearErrors(s.feeds[feedId]).(nextUpdateTime := Some(next));
    s.(feeds := s.feeds[feedId := g], articles := Retain(b.articles, feedId, b.observed, now), nextArticleId := b.nextId)
  }

  /** Reading a document changes only this feed's row among the feeds: its errors are
      cleared and its next poll is set; the other tables stay and article ids only grow. */
  lemma RefreshedRow(s: State, feedId: int, doc: Document, maxArticles: int, now: int, jitter: int, hash: Hasher)
    requires feedId in s.feeds && doc.Wellformed? && Schedule.ValidJitter(jitter)
    ensures var r := Refreshed(s, feedId, doc, maxArticles, now, jitter, hash);
            var f := s.feeds[feedId];
      && r.feeds.Keys == s.feeds.Keys && (forall k :: k in s.feeds && k != feedId ==> r.feeds[k] == s.feeds[k])
      && r.feeds[feedId].updateErrorCount == (if f.updateErrorCount > 0 then 0 else f.updateErrorCount)
      && (f.updateErrorCount > 0 ==> r.feeds[feedId].lastUpdateError.None?)
      && r.feeds[feedId].nextUpdateTime.Some?
      && now <= r.feeds[feedId].nextUpdateTime.value <= now + Schedule.OneDay + Schedule.ThirtyMinutes
      && r.feeds[feedId].(updateErrorCount := f.updateErrorCount, lastUpdateError := f.lastUpdateError,
                          nextUpdateTime := f.nextUpdateTime) == f
      && r.folders == s.folders && r.credentials == s.credentials && r.nextFolderId == s.nextFolderId
      && r.nextFeedId == s.nextFeedId && r.nextArticleId >= s.nextArticleId
  {
  }

  /** The article table after a successful refresh: the old rows that survive retention
      keep their values, and every new row is an article of this feed. */
  lemma RefreshArticles(s: State, feedId: int, maxArticles: int, net: Network, testingMode: bool, now: int, jitter: int, hash: Hasher)
    requires Schedule.ValidJitter(jitter) && Consistent(s, hash) && feedId in s.feeds
    requires Parse(net(s.feeds[feedId].url), testingMode).Ok?
    ensures var after := Refresh(s, feedId, maxArticles, net, testingMode, now, jitter, hash).after;
            var observed := Observed(Considered(Parse(net(s.feeds[feedId].url), testingMode).value.entries, maxArticles), hash);
      // nothing but expired rows of this feed leaves
      && (forall k :: k in s.articles ==> (k in after.articles <==> !Expired(s.articles[k], feedId, observed, now)))
      && (forall k :: k in s.articles && k in after.articles ==> after.articles[k] == s.articles[k])
      // new rows belong to the feed and carry a hash that was not stored before
      && (forall k :: k in after.articles && k !in s.articles ==>
            after.articles[k].feedId == feedId && !HashInStore(s.articles, after.articles[k].guidHash))
      // every entry that normalised is stored afterwards
      && (forall h :: h in observed ==> HashInStore(after.articles, h))
  {
    var doc := Parse(net(s.feeds[feedId].url), testingMode).value;
    var es := Considered(doc.entries, maxArticles);
    var b0 := Batch(s.articles, s.nextArticleId, [], 0);
    IngestAdds(b0, es, feedId, now, hash);
    IngestObserves(b0, es, feedId, now, hash);
    var b := Ingest(b0, es, feedId, now, hash);
    assert b.observed == Observed(es, hash);
    var after := Refresh(s, feedId, maxArticles, net, testingMode, now, jitter, hash).after;
    assert after.articles == Retain(b.articles, feedId, b.observed, now);
    forall h | h in Observed(es, hash) ensures HashInStore(after.articles, h) {
      var k :| k in b.articles && b.articles[k].guidHash == h;
      assert k in after.articles;
    }
  }

  /** A refresh keeps the tables consistent. */
  lemma RefreshKeepsConsistent(s: State, feedId: int, maxArticles: int, net: Network, testingMode: bool, now: int, jitter: int, hash: Hasher)
    requires Schedule.ValidJitter(jitter) && Consistent(s, hash)
    ensures Consistent(Refresh(s, feedId, maxArticles, net, testingMode, now, jitter, hash).after, hash)
  {
    if feedId in s.feeds && Parse(net(s.feeds[feedId].url), testingMode).Ok? {
      RefreshedKeepsConsistent(s, feedId, Parse(net(s.feeds[feedId].url), testingMode).value, maxArticles, now, jitter, hash);
    }
  }

  /** Reading a document keeps the tables consistent. */
  lemma RefreshedKeepsConsistent(s: State, feedId: int, doc: Document, maxArticles: int, now: int, jitter: int, hash: Hasher)
    requires feedId in s.feeds && doc.Wellformed? && Schedule.ValidJitter(jitter) && Consistent(s, hash)
    ensures Consistent(Refreshed(s, feedId, doc, maxArticles, now, jitter, hash), hash)
  {
    var b0 := Batch(s.articles, s.nextArticleId, [], 0);
    var es := Considered(doc.entries, maxArticles);
    IngestKeepsValid(b0, es, feedId, now, hash);
    var b := Ingest(b0, es, feedId, now, hash);
    RetainKeepsValid(b.articles, b.nextId, feedId, b.observed, now, hash);
  }

  /** Refreshing twice with unchanged upstream content inserts nothing the second time,
      whatever the clock and the jitter say. */
  lemma RefreshTwiceInsertsNothing(s: State, feedId: int, maxArticles: int, net: Network, testingMode: bool,
                                   now1: int, jitter1: int, now2: int, jitter2: int, hash: Hasher)
    requires Schedule.ValidJitter(jitter1) && Schedule.ValidJitter(jitter2) && Consistent(s, hash)
    ensures var s1 := Refresh(s, feedId, maxArticles, net, testingMode, now1, jitter1, hash).after;
            var s2 := Refresh(s1, feedId, maxArticles, net, testingMode, now2, jitter2, hash).after;
            s2.nextArticleId == s1.nextArticleId && s2.articles.Keys <= s1.articles.Keys
  {
    var s1 := Refresh(s, feedId, maxArticles, net, testingMode, now1, jitter1, hash).after;
    if feedId in s.feeds && Parse(net(s.feeds[feedId].url), testingMode).Ok? {
      var doc := Parse(net(s.feeds[feedId].url), testingMode).value;
      var es := Considered(doc.entries, maxArticles);
      RefreshArticles(s, feedId, maxArticles, net, testingMode, now1, jitter1, hash);
      assert s1.feeds[feedId].url == s.feeds[feedId].url;
      KnownEntriesInsertNothing(Batch(s1.articles, s1.nextArticleId, [], 0), es, feedId, now2, hash);
    }
  }

  // ---------------------------------------------------------------- sweep selection

  /** The feeds `update_all` picks: not a mailing list, and never scheduled or due. */
  predicate Due(f: Feed, now: int) {
    !f.isMailingList && (f.nextUpdateTime.None? || f.nextUpdateTime.value <= now)
  }

  /** The ids of the due feeds, in id order. */
  function DueFeeds(s: State, now: int): (r: seq<int>)
    ensures forall k :: k in r <==> k in s.feeds && Due(s.feeds[k], now) && 0 <= k < s.nextFeedId
    ensures Increasing(r)
  {
    Ascending((set k | k in s.feeds && Due(s.feeds[k], now)), s.nextFeedId)
  }

  // ---------------------------------------------------------------- feed management

  /** `query(Feed).filter(Feed.url == url).first()`: the lowest id with that url. */
  function FindByUrl(s: State, url: string): (r: Option<int>)
    ensures r.Some? ==> r.value in s.feeds && s.feeds[r.value].url == url
    ensures r.Some? ==> forall k :: k in s.feeds && s.feeds[k].url == url && 0 <= k < s.nextFeedId ==> r.value <= k
    ensures r.None? ==> forall k :: k in s.feeds && 0 <= k < s.nextFeedId ==> s.feeds[k].url != url
  {
    var ids := set k | k in s.feeds && s.feeds[k].url == url;
    assert forall k :: k in ids <==> k in s.feeds && s.feeds[k].url == url;
    First(ids, s.nextFeedId)
  }

  /** In a consistent store the lookup finds the url exactly when some feed has it. */
  lemma FindByUrlFinds(s: State, url: string, hash: Hasher)
    requires Consistent(s, hash)
    ensures FindByUrl(s, url).Some? <==> UrlTaken(s.feeds, url)
  {
  }

  /** `get_by_url`. */
  function GetByUrl(s: State, url: string): (r: Result<Feed>)
    ensures r.Err? <==> FindByUrl(s, url).None?
    ensures r.Err? ==> r.error == NoFeed
    ensures r.Ok? ==> r.value.url == url && r.value in s.feeds.Values
  {
    match FindByUrl(s, url)
    case None => Err(NoFeed)
    case Some(k) => Ok(s.feeds[k])
  }

  /** Inserts a feed row under the next feed id. */
  function Insert(s: State, f: Feed): (r: State)
    ensures s.nextFeedId in r.feeds && r.nextFeedId == s.nextFeedId + 1
  {
    var id := s.nextFeedId;
    s.(feeds := s.feeds[id := f.(id := id)], nextFeedId := id + 1)
  }

  /** The checks `add` and `add_mailing_list` share, in their order. */
  function AddChecks(s: State, url: string, folderId: int): (r: Option<Error>)
    ensures r.None? <==> FindByUrl(s, url).None? && folderId in s.folders
    ensures FindByUrl(s, url).Some? ==> r == Some(FeedExists)
    ensures FindByUrl(s, url).None? && folderId !in s.folders ==> r == Some(NoFolder)
  {
    if FindByUrl(s, url).Some? then Some(FeedExists)
    else if folderId !in s.folders then Some(NoFolder)
    else None
  }

  /** `add(url, folderId)`: the row from `_create`, then a refresh of at most 10 articles.
      The source fetches the url twice, once in `_create` and again in `update`; `net`
      answers the first fetch and `refetch` the second, which may fail on its own. */
  function Add(s: State, url: string, folderId: int, net: Network, refetch: Network, testingMode: bool, now: int, jitter: int, hash: Hasher)
    : (r: Step<Result<int>>)
    requires Schedule.ValidJitter(jitter)
    ensures AddChecks(s, url, folderId).Some? ==> r == Step(Err(AddChecks(s, url, folderId).value), s)
    ensures AddChecks(s, url, folderId).None? && Parse(net(url), testingMode).Err? ==>
              r == Step(Err(Parse(net(url), testingMode).error), s)
    ensures AddChecks(s, url, folderId).None? && Parse(net(url), testingMode).Ok? && Parse(net(url), testingMode).value.title.None? ==>
              r == Step(Err(MissingFeedTitle), s)
    // the feed is added exactly when the checks pass and the first document parses with a title
    ensures r.out.Ok? <==> AddChecks(s, url, folderId).None? && Parse(net(url), testingMode).Ok?
                           && Parse(net(url), testingMode).value.title.Some?
    ensures r.out.Ok? ==> var id := r.out.value; var doc := Parse(net(url), testingMode).value;
      && id == s.nextFeedId && r.after.nextFeedId == id + 1
      && r.after.feeds.Keys == s.feeds.Keys + {id}
      && r.after.feeds[id].url == url && r.after.feeds[id].folderId == folderId
      && !r.after.feeds[id].isMailingList && r.after.feeds[id].added == now
      && r.after.feeds[id].title == doc.title
      && r.after.feeds[id].faviconLink == doc.favicon && r.after.feeds[id].link == doc.link
      && (forall k :: k in s.feeds && k != id ==> r.after.feeds[k] == s.feeds[k])
      && r.after.folders == s.folders
    // the feed is returned even when the second fetch fails: it then carries one recorded error and no schedule
    ensures r.out.Ok? && Parse(refetch(url), testingMode).Err? ==> var g := r.after.feeds[r.out.value];
      && g.updateErrorCount == 1 && g.lastUpdateError == Some(Parse(refetch(url), testingMode).error)
      && g.nextUpdateTime.None? && r.after.articles == s.articles
    ensures r.out.Ok? && Parse(refetch(url), testingMode).Ok? ==> var g := r.after.feeds[r.out.value];
      && g.updateErrorCount == 0 && g.lastUpdateError.None? && g.nextUpdateTime.Some?
      && now <= g.nextUpdateTime.value <= now + Schedule.OneDay + Schedule.ThirtyMinutes
  {
    if AddChecks(s, url, folderId).Some? then Step(Err(AddChecks(s, url, folderId).value), s)
    else match Parse(net(url), testingMode)
      case Err(e) => Step(Err(e), s)
      case Ok(doc) =>
        if doc.title.None? then Step(Err(MissingFeedTitle), s)
        else
          var id := s.nextFeedId;
          var row := Feed(id, url, doc.title, doc.favicon, doc.link, now, None, folderId, 0, false, 0, None, false);
          var s1 := Insert(s, row);
          Step(Ok(id), Refresh(s1, id, FirstRefreshArticles, refetch, testingMode, now, jitter, hash).after)
  }

  /** The first refresh of a new feed reads at most ten entries of the second fetch. Old rows
      go only when expired for the new feed and survivors keep their values; at most ten rows
      are added, all of the new feed and with hashes not stored before; every entry among the
      first ten that converts is stored afterwards; and the next poll is scheduled from the
      articles the feed has once those entries are in. */
  lemma AddIngestsFirstEntries(s: State, url: string, folderId: int, net: Network, refetch: Network,
                               testingMode: bool, now: int, jitter: int, hash: Hasher)
    requires Schedule.ValidJitter(jitter) && Consistent(s, hash)
    requires Add(s, url, folderId, net, refetch, testingMode, now, jitter, hash).out.Ok?
    requires Parse(refetch(url), testingMode).Ok?
    ensures var r := Add(s, url, folderId, net, refetch, testingMode, now, jitter, hash);
            var id := r.out.value;
            var doc := Parse(refetch(url), testingMode).value;
            var observed := Observed(Considered(doc.entries, FirstRefreshArticles), hash);
      && (forall k :: k in s.articles ==> (k in r.after.articles <==> !Expired(s.articles[k], id, observed, now)))
      && (forall k :: k in s.articles && k in r.after.articles ==> r.after.articles[k] == s.articles[k])
      && (forall k :: k in r.after.articles && k !in s.articles ==>
            && s.nextArticleId <= k < r.after.nextArticleId
            && r.after.articles[k].feedId == id && !HashInStore(s.articles, r.after.articles[k].guidHash))
      && s.nextArticleId <= r.after.nextArticleId <= s.nextArticleId + FirstRefreshArticles
      && (forall h :: h in observed ==> HashInStore(r.after.articles, h))
      && r.after.feeds[id].nextUpdateTime == Some(Schedule.NextUpdateTime(
           RecentCount(IngestInto(s, doc, id, FirstRefreshArticles, now, hash).articles, id, now), now, jitter))
  {
    var first := Parse(net(url), testingMode).value;
    var id := s.nextFeedId;
    var row := Feed(id, url, first.title, first.favicon, first.link, now, None, folderId, 0, false, 0, None, false);
    var s1 := Insert(s, row);
    InsertKeepsConsistent(s, row, hash);
    assert s1.feeds[id].url == url;
    RefreshArticles(s1, id, FirstRefreshArticles, refetch, testingMode, now, jitter, hash);
    var doc := Parse(refetch(url), testingMode).value;
    var es := Considered(doc.entries, FirstRefreshArticles);
    var b0 := Batch(s.articles, s.nextArticleId, [], 0);
    IngestAdds(b0, es, id, now, hash);
    var b := Ingest(b0, es, id, now, hash);
    var after := Refreshed(s1, id, doc, FirstRefreshArticles, now, jitter, hash);
    assert after == Add(s, url, folderId, net, refetch, testingMode, now, jitter, hash).after;
    assert after.nextArticleId == b.nextId;
    assert forall k :: k in after.articles ==> k in b.articles;
  }

  /** `add_mailing_list`: the same checks, no fetch, and the row is flagged as a mailing list. */
  function AddMailingList(s: State, fromAddress: string, title: string, folderId: int, now: int): (r: Step<Result<int>>)
    ensures AddChecks(s, fromAddress, folderId).Some? ==> r == Step(Err(AddChecks(s, fromAddress, folderId).value), s)
    ensures r.out.Ok? <==> AddChecks(s, fromAddress, folderId).None?
    ensures r.out.Ok? ==> var id := r.out.value;
      && id == s.nextFeedId && id in r.after.feeds
      && r.after == s.(feeds := s.feeds[id := r.after.feeds[id]], nextFeedId := id + 1)
      && r.after.feeds[id] == Feed(id, fromAddress, Some(title), None, None, now, None, folderId, 0, false, 0, None, true)
  {
    match AddChecks(s, fromAddress, folderId)
    case Some(e) => Step(Err(e), s)
    case None =>
      var id := s.nextFeedId;
      Step(Ok(id), Insert(s, Feed(id, fromAddress, Some(title), None, None, now, None, folderId, 0, false, 0, None, true)))
  }

  /** Adding a feed or a mailing list keeps the tables consistent. */
  lemma AddKeepsConsistent(s: State, url: string, folderId: int, net: Network, refetch: Network, testingMode: bool, now: int, jitter: int, hash: Hasher)
    requires Schedule.ValidJitter(jitter) && Consistent(s, hash)
    ensures Consistent(Add(s, url, folderId, net, refetch, testingMode, now, jitter, hash).after, hash)
  {
    var r := Add(s, url, folderId, net, refetch, testingMode, now, jitter, hash);
    if r.out.Ok? {
      var doc := Parse(net(url), testingMode).value;
      var id := s.nextFeedId;
      var row := Feed(id, url, doc.title, doc.favicon, doc.link, now, None, folderId, 0, false, 0, None, false);
      InsertKeepsConsistent(s, row, hash);
      RefreshKeepsConsistent(Insert(s, row), id, FirstRefreshArticles, refetch, testingMode, now, jitter, hash);
    }
  }

  lemma AddMailingListKeepsConsistent(s: State, fromAddress: string, title: string, folderId: int, now: int, hash: Hasher)
    requires Consistent(s, hash)
    ensures Consistent(AddMailingList(s, fromAddress, title, folderId, now).after, hash)
  {
    if AddChecks(s, fromAddress, folderId).None? {
      var id := s.nextFeedId;
      InsertKeepsConsistent(s, Feed(id, fromAddress, Some(title), None, None, now, None, folderId, 0, false, 0, None, true), hash);
    }
  }

  /** A new row whose url no feed has, in an existing folder, keeps the tables consistent. */
  lemma InsertKeepsConsistent(s: State, f: Feed, hash: Hasher)
    requires Consistent(s, hash) && FindByUrl(s, f.url).None? && f.folderId in s.folders && f.updateErrorCount >= 0
    ensures Consistent(Insert(s, f), hash)
  {
    var t := Insert(s, f);
    var id := s.nextFeedId;
    assert id !in s.feeds;
    forall j, k | j in t.feeds && k in t.feeds && t.feeds[j].url == t.feeds[k].url ensures j == k {
      if j != k && (j == id || k == id) {
        assert false;
      }
    }
  }

  /** `delete`: only the feed row goes; its articles stay in the table. */
  function Delete(s: State, feedId: int): (r: Step<Outcome>)
    ensures feedId !in s.feeds ==> r == Step(Failed(NoFeed), s)
    ensures feedId in s.feeds ==> r.out == Done && r.after == s.(feeds := s.feeds - {feedId})
  {
    if feedId !in s.feeds then Step(Failed(NoFeed), s)
    else Step(Done, s.(feeds := s.feeds - {feedId}))
  }

  /** `move_to_folder`: the feed is checked before the folder. */
  function Move(s: State, feedId: int, folderId: int): (r: Step<Outcome>)
    ensures feedId !in s.feeds ==> r == Step(Failed(NoFeed), s)
    ensures feedId in s.feeds && folderId !in s.folders ==> r == Step(Failed(NoFolder), s)
    ensures r.out.Done? <==> feedId in s.feeds && folderId in s.folders
    ensures r.out.Done? ==> r.after == s.(feeds := s.feeds[feedId := s.feeds[feedId].(folderId := folderId)])
  {
    if feedId !in s.feeds then Step(Failed(NoFeed), s)
    else if folderId !in s.folders then Step(Failed(NoFolder), s)
    else Step(Done, s.(feeds := s.feeds[feedId := s.feeds[feedId].(folderId := folderId)]))
  }

  /** `rename`: only the title changes. */
  function Rename(s: State, feedId: int, newTitle: string): (r: Step<Outcome>)
    ensures feedId !in s.feeds ==> r == Step(Failed(NoFeed), s)
    ensures feedId in s.feeds ==> r.out == Done
                                  && r.after == s.(feeds := s.feeds[feedId := s.feeds[feedId].(title := Some(newTitle))])
  {
    if feedId !in s.feeds then Step(Failed(NoFeed), s)
    else Step(Done, s.(feeds := s.feeds[feedId := s.feeds[feedId].(title := Some(newTitle))]))
  }

  /** Delete, move and rename keep the tables consistent; a deleted feed's articles remain. */
  lemma ManagementKeepsConsistent(s: State, feedId: int, folderId: int, newTitle: string, hash: Hasher)
    requires Consistent(s, hash)
    ensures Consistent(Delete(s, feedId).after, hash)
    ensures Consistent(Move(s, feedId, folderId).after, hash)
    ensures Consistent(Rename(s, feedId, newTitle).after, hash)
    ensures Delete(s, feedId).after.articles == s.articles
  {
  }
}
