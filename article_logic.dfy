/** article.py as functions over a snapshot of the tables: the item queries with
    their shared filter, the lookup by guid hash, the read/starred flags, and the
    older retention rule that compares guids instead of guid hashes. */
module ArticleLogic {
  import opened Records
  import opened Store
  import opened Ordering
  import FeedLogic

  // ---------------------------------------------------------------- queries

  /** The base query of each `get_*` function. */
  datatype Scope =
    | Everything              // get_all
    | OfFeed(feedId: int)     // get_by_feed
    | OfFolder(folderId: int) // get_by_folder: an inner join on the article's feed
    | StarredOnly             // get_starred

  /** The optional arguments `_filter_article_query` takes; a zero switches its filter off. */
  datatype Query = Query(maxResults: int, newestItemId: int, getRead: bool, oldestFirst: bool, lastModified: int)

  /** The defaults of the Python signatures. */
  const Defaults := Query(0, 0, true, true, 0)

  predicate InScope(a: Article, feeds: map<int, Feed>, scope: Scope) {
    match scope
    case Everything => true
    case OfFeed(id) => a.feedId == id
    // the join drops an article whose feed row is gone
    case OfFolder(id) => a.feedId in feeds && feeds[a.feedId].folderId == id
    case StarredOnly => a.starred
  }

  /** The three filters of `_filter_article_query`. */
  predicate PassesFilters(a: Article, q: Query) {
    && (q.getRead || a.unread)
    && (q.newestItemId <= 0 || a.id <= q.newestItemId)
    && (q.lastModified <= 0 || a.lastModified >= q.lastModified)
  }

  predicate Selected(s: State, scope: Scope, q: Query, k: int)
    requires k in s.articles
  {
    InScope(s.articles[k], s.feeds, scope) && PassesFilters(s.articles[k], q)
  }

  /** The keys of the selected rows, ordered by id in the requested direction. */
  function OrderedIds(s: State, scope: Scope, q: Query): (r: seq<int>)
    ensures forall k :: k in r <==> k in s.articles && Selected(s, scope, q, k) && 0 <= k < s.nextArticleId
    ensures q.oldestFirst ==> Increasing(r)
    ensures !q.oldestFirst ==> Decreasing(r)
  {
    var chosen := set k | k in s.articles && Selected(s, scope, q, k);
    assert forall k :: k in chosen <==> k in s.articles && Selected(s, scope, q, k);
    if q.oldestFirst then Ascending(chosen, s.nextArticleId) else Descending(chosen, s.nextArticleId)
  }

  /** `_filter_article_query` applied to a scope: the selected rows in id order, cut to
      `maxResults` when that is positive. */
  function Items(s: State, scope: Scope, q: Query): (r: seq<Article>)
    ensures |r| <= |OrderedIds(s, scope, q)|
    ensures q.maxResults > 0 ==> |r| <= q.maxResults
    ensures q.maxResults <= 0 ==> |r| == |OrderedIds(s, scope, q)|
    ensures forall i :: 0 <= i < |r| ==> OrderedIds(s, scope, q)[i] in s.articles && r[i] == s.articles[OrderedIds(s, scope, q)[i]]
    ensures forall i :: 0 <= i < |r| ==> r[i] in s.articles.Values
    ensures forall i :: 0 <= i < |r| ==> InScope(r[i], s.feeds, scope) && PassesFilters(r[i], q)
  {
    var ids := OrderedIds(s, scope, q);
    assert forall i :: 0 <= i < |ids| ==> ids[i] in ids;
    var n := if 0 < q.maxResults < |ids| then q.maxResults else |ids|;
    seq(n, i requires 0 <= i < n => s.articles[ids[i]])
  }

  /** `get_all`. */
  function GetAll(s: State, q: Query): (r: seq<Article>)
    ensures forall i :: 0 <= i < |r| ==> r[i] in s.articles.Values && PassesFilters(r[i], q)
  {
    Items(s, Everything, q)
  }

  /** `get_by_feed`. */
  function GetByFeed(s: State, feedId: int, q: Query): (r: seq<Article>)
    ensures forall i :: 0 <= i < |r| ==> r[i] in s.articles.Values && r[i].feedId == feedId && PassesFilters(r[i], q)
  {
    Items(s, OfFeed(feedId), q)
  }

  /** `get_by_folder`. */
  function GetByFolder(s: State, folderId: int, q: Query): (r: seq<Article>)
    ensures forall i :: 0 <= i < |r| ==>
      r[i] in s.articles.Values && r[i].feedId in s.feeds && s.feeds[r[i].feedId].folderId == folderId && PassesFilters(r[i], q)
  {
    Items(s, OfFolder(folderId), q)
  }

  /** `get_starred`. */
  function GetStarred(s: State, q: Query): (r: seq<Article>)
    ensures forall i :: 0 <= i < |r| ==> r[i] in s.articles.Values && r[i].starred && PassesFilters(r[i], q)
  {
    Items(s, StarredOnly, q)
  }

  /** Results come strictly in id order: ascending for `oldest_first`, else descending. */
  lemma ItemsOrdered(s: State, scope: Scope, q: Query, hash: Hasher)
    requires Consistent(s, hash)
    ensures var r := Items(s, scope, q);
            forall i, j :: 0 <= i < j < |r| ==> (if q.oldestFirst then r[i].id < r[j].id else r[i].id > r[j].id)
  {
    var ids := OrderedIds(s, scope, q);
    var r := Items(s, scope, q);
    forall i | 0 <= i < |r| ensures r[i].id == ids[i] {
      assert ids[i] in ids;
    }
  }

  /** Every selected row is returned, unless the limit cut the list: then all `maxResults`
      places are taken, each by a row that comes before it in the requested order. */
  lemma ItemsComplete(s: State, scope: Scope, q: Query, k: int, hash: Hasher)
    requires Consistent(s, hash)
    requires k in s.articles && InScope(s.articles[k], s.feeds, scope) && PassesFilters(s.articles[k], q)
    ensures var r := Items(s, scope, q);
      || (exists i :: 0 <= i < |r| && r[i] == s.articles[k])
      || (q.maxResults > 0 && |r| == q.maxResults
          && forall i :: 0 <= i < |r| ==> (if q.oldestFirst then r[i].id < k else r[i].id > k))
  {
    var ids := OrderedIds(s, scope, q);
    var r := Items(s, scope, q);
    assert k in ids;
    var p :| 0 <= p < |ids| && ids[p] == k;
    if p >= |r| {
      forall i | 0 <= i < |r| ensures if q.oldestFirst then r[i].id < k else r[i].id > k {
        assert ids[i] in ids;
        assert r[i].id == ids[i];
      }
    } else {
      assert r[p] == s.articles[k];
    }
  }

  /** With no filter and no limit, `get_all` lists the whole table. */
  lemma GetAllListsEveryRow(s: State, hash: Hasher)
    requires Consistent(s, hash)
    ensures |GetAll(s, Defaults)| == |s.articles|
    ensures forall k :: k in s.articles ==> exists i :: 0 <= i < |GetAll(s, Defaults)| && GetAll(s, Defaults)[i] == s.articles[k]
  {
    var ids := OrderedIds(s, Everything, Defaults);
    var chosen := set k | k in s.articles && Selected(s, Everything, Defaults, k);
    assert chosen == s.articles.Keys;
    AscendingCount(chosen, s.nextArticleId);
    assert Below(chosen, s.nextArticleId) == s.articles.Keys;
    assert GetAll(s, Defaults) == Items(s, Everything, Defaults);
    forall k | k in s.articles ensures exists i :: 0 <= i < |GetAll(s, Defaults)| && GetAll(s, Defaults)[i] == s.articles[k] {
      ItemsComplete(s, Everything, Defaults, k, hash);
    }
  }

  // ---------------------------------------------------------------- lookup

  /** `get_by_guid_hash`: the first row of the feed with that hash, else NoArticleError. */
  function GetByGuidHash(s: State, feedId: int, guidHash: string): (r: Result<Article>)
    ensures r.Ok? ==> r.value in s.articles.Values && r.value.feedId == feedId && r.value.guidHash == guidHash
    ensures r.Err? ==> r.error == NoArticle
  {
    var ids := set k | k in s.articles && s.articles[k].feedId == feedId && s.articles[k].guidHash == guidHash;
    assert forall k :: k in ids <==> k in s.articles && s.articles[k].feedId == feedId && s.articles[k].guidHash == guidHash;
    match First(ids, s.nextArticleId)
    case None => Err(NoArticle)
    case Some(k) => Ok(s.articles[k])
  }

  /** Every stored article is found again by its feed and its hash, and a miss means no row
      of that feed carries the hash. */
  lemma GetByGuidHashFinds(s: State, feedId: int, guidHash: string, hash: Hasher)
    requires Consistent(s, hash)
    ensures forall k :: k in s.articles && s.articles[k].feedId == feedId && s.articles[k].guidHash == guidHash ==>
              GetByGuidHash(s, feedId, guidHash) == Ok(s.articles[k])
    ensures GetByGuidHash(s, feedId, guidHash).Err? <==>
              forall k :: k in s.articles ==> !(s.articles[k].feedId == feedId && s.articles[k].guidHash == guidHash)
  {
    var ids := set k | k in s.articles && s.articles[k].feedId == feedId && s.articles[k].guidHash == guidHash;
    assert forall k :: k in ids <==> k in s.articles && s.articles[k].feedId == feedId && s.articles[k].guidHash == guidHash;
    var r := GetByGuidHash(s, feedId, guidHash);
    match First(ids, s.nextArticleId)
    case None =>
      assert r == Err(NoArticle);
    case Some(j) =>
      assert r == Ok(s.articles[j]);
      forall k | k in s.articles && s.articles[k].feedId == feedId && s.articles[k].guidHash == guidHash
        ensures r == Ok(s.articles[k])
      {
        assert j == k;
      }
  }

  // ---------------------------------------------------------------- flags

  /** The two flags the mark operations set. */
  datatype Flag = UnreadFlag | StarredFlag

  function FlagOf(a: Article, flag: Flag): bool {
    if flag == UnreadFlag then a.unread else a.starred
  }

  /** One row after its flag is set; `stamp` is the new `last_modified`, if the operation sets one. */
  function Flagged(a: Article, flag: Flag, value: bool, stamp: Option<int>): (r: Article)
    ensures FlagOf(r, flag) == value
    ensures FlagOf(r, if flag == UnreadFlag then StarredFlag else UnreadFlag) == FlagOf(a, if flag == UnreadFlag then StarredFlag else UnreadFlag)
    ensures r.lastModified == stamp.GetOr(a.lastModified)
    ensures r.(unread := a.unread, starred := a.starred, lastModified := a.lastModified) == a
  {
    var b := if flag == UnreadFlag then a.(unread := value) else a.(starred := value);
    if stamp.Some? then b.(lastModified := stamp.value) else b
  }

  /** The article table with the rows under `chosen` flagged and the others as they were. */
  function MarkRows(articles: map<int, Article>, chosen: set<int>, flag: Flag, value: bool, stamp: Option<int>)
    : map<int, Article>
  {
    map k | k in articles :: if k in chosen then Flagged(articles[k], flag, value, stamp) else articles[k]
  }

  /** The rows `filter(Article.id.in_(item_ids))` selects. */
  function WithIds(articles: map<int, Article>, ids: seq<int>): set<int> {
    set k | k in articles && articles[k].id in ids
  }

  /** `mark_as_read`, `mark_as_unread`, `mark_as_starred` and `mark_as_unstarred`: every listed row
      gets the flag and the current time; the result is how many rows the query found. */
  function MarkIds(s: State, ids: seq<int>, flag: Flag, value: bool, now: int): (r: Step<int>)
    ensures r.after == s.(articles := r.after.articles) && r.after.articles.Keys == s.articles.Keys
    ensures forall k :: k in s.articles && s.articles[k].id in ids ==>
              && FlagOf(r.after.articles[k], flag) == value && r.after.articles[k].lastModified == now
              && r.after.articles[k] == Flagged(s.articles[k], flag, value, Some(now))
    ensures forall k :: k in s.articles && s.articles[k].id !in ids ==> r.after.articles[k] == s.articles[k]
    ensures r.out == |WithIds(s.articles, ids)|
  {
    var chosen := WithIds(s.articles, ids);
    Step(|chosen|, s.(articles := MarkRows(s.articles, chosen, flag, value, Some(now))))
  }

  /** In a consistent store the count is the number of listed ids that exist, so never more
      than the list is long, and exactly its length for distinct existing ids. */
  lemma MarkIdsCount(s: State, ids: seq<int>, flag: Flag, value: bool, now: int, hash: Hasher)
    requires Consistent(s, hash)
    ensures MarkIds(s, ids, flag, value, now).out == |set x | x in ids && x in s.articles|
    ensures MarkIds(s, ids, flag, value, now).out <= |ids|
    ensures (forall i :: 0 <= i < |ids| ==> ids[i] in s.articles) && (forall i, j :: 0 <= i < j < |ids| ==> ids[i] != ids[j])
            ==> MarkIds(s, ids, flag, value, now).out == |ids|
  {
    var chosen := WithIds(s.articles, ids);
    assert forall x :: x in chosen <==> x in ids && x in s.articles;
    assert chosen == set x | x in ids && x in s.articles;
    ListedAtMost(ids, chosen);
    if (forall i :: 0 <= i < |ids| ==> ids[i] in s.articles) && (forall i, j :: 0 <= i < j < |ids| ==> ids[i] != ids[j]) {
      DistinctExactly(ids);
      assert chosen == set x | x in ids;
    }
  }

  /** Marking twice is marking once, apart from the time stamp. */
  lemma MarkIdsIdempotent(s: State, ids: seq<int>, flag: Flag, value: bool, now1: int, now2: int)
    ensures var once := MarkIds(s, ids, flag, value, now1).after;
            var twice := MarkIds(once, ids, flag, value, now2).after;
            twice.articles == MarkIds(s, ids, flag, value, now2).after.articles
  {
    var once := MarkIds(s, ids, flag, value, now1).after;
    var twice := MarkIds(once, ids, flag, value, now2).after;
    var direct := MarkIds(s, ids, flag, value, now2).after;
    forall k | k in s.articles ensures twice.articles[k] == direct.articles[k] {
      assert once.articles[k].id == s.articles[k].id;
      if s.articles[k].id in ids {
        FlaggedTwice(s.articles[k], flag, value, now1, now2);
      }
    }
    assert twice.articles.Keys == direct.articles.Keys;
  }

  /** Setting a flag again to the same value keeps only the later stamp. */
  lemma FlaggedTwice(a: Article, flag: Flag, value: bool, now1: int, now2: int)
    ensures Flagged(Flagged(a, flag, value, Some(now1)), flag, value, Some(now2)) == Flagged(a, flag, value, Some(now2))
  {
  }

  /** `mark_as_unread` undoes `mark_as_read` on a row that was unread (and likewise for the star):
      the row comes back with only its time stamp changed. */
  lemma MarkIdsUndo(s: State, ids: seq<int>, flag: Flag, value: bool, now1: int, now2: int, k: int)
    requires k in s.articles && s.articles[k].id in ids && FlagOf(s.articles[k], flag) == value
    ensures var once := MarkIds(s, ids, flag, !value, now1).after;
            MarkIds(once, ids, flag, value, now2).after.articles[k] == s.articles[k].(lastModified := now2)
  {
    var once := MarkIds(s, ids, flag, !value, now1).after;
    assert once.articles[k].id == s.articles[k].id;
  }

  /** Setting flags keeps the tables consistent. */
  lemma MarkRowsKeepsValid(articles: map<int, Article>, nextId: int, chosen: set<int>, flag: Flag, value: bool,
                           stamp: Option<int>, hash: Hasher)
    requires ArticlesValid(articles, nextId, hash)
    ensures ArticlesValid(MarkRows(articles, chosen, flag, value, stamp), nextId, hash)
  {
    var r := MarkRows(articles, chosen, flag, value, stamp);
    assert forall k :: k in r ==> r[k].id == articles[k].id && r[k].guid == articles[k].guid && r[k].guidHash == articles[k].guidHash;
  }

  /** `mark_all_as_read(newestItemId)`: every row up to that id is read and stamped. */
  function MarkAllAsRead(s: State, newestItemId: int, now: int): (r: Step<int>)
    ensures r.after == s.(articles := r.after.articles) && r.after.articles.Keys == s.articles.Keys
    ensures forall k :: k in s.articles && s.articles[k].id <= newestItemId ==>
              r.after.articles[k] == s.articles[k].(unread := false, lastModified := now)
    ensures forall k :: k in s.articles && s.articles[k].id > newestItemId ==> r.after.articles[k] == s.articles[k]
    ensures r.out == |set k | k in s.articles && s.articles[k].id <= newestItemId|
  {
    var chosen := set k | k in s.articles && s.articles[k].id <= newestItemId;
    Step(|chosen|, s.(articles := MarkRows(s.articles, chosen, UnreadFlag, false, Some(now))))
  }

  /** After `mark_all_as_read(n)` an unread-only query bounded by `n` finds nothing. */
  lemma MarkAllAsReadLeavesNoUnread(s: State, newestItemId: int, now: int, scope: Scope, q: Query)
    requires newestItemId > 0 && q.newestItemId == newestItemId && !q.getRead
    ensures Items(MarkAllAsRead(s, newestItemId, now).after, scope, q) == []
  {
    var t := MarkAllAsRead(s, newestItemId, now).after;
    var ids := OrderedIds(t, scope, q);
    NoMembers(ids);
  }

  /** `mark_read_by_feed(feedId, newestItemId)`: the feed must exist; its rows up to that id
      are read, and their time stamps are left alone. */
  function MarkReadByFeed(s: State, feedId: int, newestItemId: int): (r: Step<Outcome>)
    ensures feedId !in s.feeds ==> r == Step(Failed(NoFeed), s)
    ensures feedId in s.feeds ==> r.out == Done
    ensures r.after == s.(articles := r.after.articles) && r.after.articles.Keys == s.articles.Keys
    ensures feedId in s.feeds ==> forall k :: k in s.articles ==>
              r.after.articles[k] == (if s.articles[k].feedId == feedId && s.articles[k].id <= newestItemId
                                      then s.articles[k].(unread := false) else s.articles[k])
  {
    if feedId !in s.feeds then Step(Failed(NoFeed), s)
    else
      var chosen := set k | k in s.articles && s.articles[k].feedId == feedId && s.articles[k].id <= newestItemId;
      Step(Done, s.(articles := MarkRows(s.articles, chosen, UnreadFlag, false, None)))
  }

  /** After `mark_read_by_feed` the feed's unread-only query bounded by the same id finds
      nothing, and no row's `last_modified` moved, so a `lastModified` sync does not see it. */
  lemma MarkReadByFeedLeavesNoUnread(s: State, feedId: int, newestItemId: int, q: Query)
    requires feedId in s.feeds && newestItemId > 0 && q.newestItemId == newestItemId && !q.getRead
    ensures Items(MarkReadByFeed(s, feedId, newestItemId).after, OfFeed(feedId), q) == []
    ensures forall k :: k in s.articles ==> MarkReadByFeed(s, feedId, newestItemId).after.articles[k].lastModified == s.articles[k].lastModified
  {
    var t := MarkReadByFeed(s, feedId, newestItemId).after;
    var ids := OrderedIds(t, OfFeed(feedId), q);
    NoMembers(ids);
  }

  /** The `mark_as_*` operations keep the tables consistent. */
  lemma MarksKeepConsistent(s: State, ids: seq<int>, flag: Flag, value: bool, now: int, hash: Hasher)
    requires Consistent(s, hash)
    ensures Consistent(MarkIds(s, ids, flag, value, now).after, hash)
  {
    MarkRowsKeepsValid(s.articles, s.nextArticleId, WithIds(s.articles, ids), flag, value, Some(now), hash);
  }

  /** `mark_all_as_read` keeps the tables consistent. */
  lemma MarkAllKeepsConsistent(s: State, newestItemId: int, now: int, hash: Hasher)
    requires Consistent(s, hash)
    ensures Consistent(MarkAllAsRead(s, newestItemId, now).after, hash)
  {
    var upTo := set k | k in s.articles && s.articles[k].id <= newestItemId;
    MarkRowsKeepsValid(s.articles, s.nextArticleId, upTo, UnreadFlag, false, Some(now), hash);
  }

  /** `mark_read_by_feed` keeps the tables consistent. */
  lemma MarkByFeedKeepsConsistent(s: State, feedId: int, newestItemId: int, hash: Hasher)
    requires Consistent(s, hash)
    ensures Consistent(MarkReadByFeed(s, feedId, newestItemId).after, hash)
  {
    var ofFeed := set k | k in s.articles && s.articles[k].feedId == feedId && s.articles[k].id <= newestItemId;
    MarkRowsKeepsValid(s.articles, s.nextArticleId, ofFeed, UnreadFlag, false, None, hash);
  }

  // ---------------------------------------------------------------- the guid-based retention rule

  /** The rows article.py's `clean_up_old_articles` deletes: they match on the guid itself. */
  predicate GuidExpired(a: Article, feedId: int, guids: seq<string>, now: int) {
    && a.feedId == feedId
    && a.guid !in guids
    && !a.unread
    && !a.starred
    && a.lastModified < now - FeedLogic.RetentionAge
  }

  /** Some entry dict lacks its "id" key. */
  predicate SomeIdMissing(entryIds: seq<Option<string>>) {
    exists i :: 0 <= i < |entryIds| && entryIds[i].None?
  }

  /** The entries' ids, once all are present. */
  function EntryGuids(entryIds: seq<Option<string>>): (r: seq<string>)
    requires !SomeIdMissing(entryIds)
    ensures |r| == |entryIds|
    ensures forall i :: 0 <= i < |r| ==> entryIds[i] == Some(r[i])
  {
    seq(|entryIds|, i requires 0 <= i < |entryIds| => entryIds[i].value)
  }

  /** The feed is looked up first, then the entries' ids are collected (a missing one raises),
      then the expired rows are deleted. */
  function LegacyCleanUp(s: State, feedId: int, entryIds: seq<Option<string>>, now: int): (r: Step<Outcome>)
    ensures feedId !in s.feeds ==> r == Step(Failed(NoFeed), s)
    ensures feedId in s.feeds && SomeIdMissing(entryIds) ==> r == Step(Failed(MissingEntryId), s)
    ensures r.out == Done <==> feedId in s.feeds && !SomeIdMissing(entryIds)
    ensures r.after == s.(articles := r.after.articles)
    ensures r.out == Done ==>
      && (forall k :: k in r.after.articles <==> k in s.articles && !GuidExpired(s.articles[k], feedId, EntryGuids(entryIds), now))
      && (forall k :: k in r.after.articles ==> r.after.articles[k] == s.articles[k])
  {
    if feedId !in s.feeds then Step(Failed(NoFeed), s)
    else if SomeIdMissing(entryIds) then Step(Failed(MissingEntryId), s)
    else
      var guids := EntryGuids(entryIds);
      Step(Done, s.(articles := map k | k in s.articles && !GuidExpired(s.articles[k], feedId, guids, now) :: s.articles[k]))
  }

  /** The hash of each guid, in order: what the refresh loop observes for entries that normalise. */
  function Hashes(guids: seq<string>, hash: Hasher): (r: seq<string>)
    ensures |r| == |guids|
    ensures forall i :: 0 <= i < |guids| ==> r[i] == hash(guids[i])
  {
    seq(|guids|, i requires 0 <= i < |guids| => hash(guids[i]))
  }

  /** The hash-based rule of feed.py deletes no more than the guid-based one: a row whose guid hash
      is not observed has a guid that is not listed. */
  lemma HashRuleDeletesNoMore(s: State, feedId: int, entryIds: seq<Option<string>>, now: int, hash: Hasher)
    requires Consistent(s, hash) && feedId in s.feeds && !SomeIdMissing(entryIds)
    ensures var guids := EntryGuids(entryIds);
            forall k :: k in LegacyCleanUp(s, feedId, entryIds, now).after.articles ==>
                        k in s.articles && !FeedLogic.Expired(s.articles[k], feedId, Hashes(guids, hash), now)
  {
    var guids := EntryGuids(entryIds);
    var hs := Hashes(guids, hash);
    forall k | k in LegacyCleanUp(s, feedId, entryIds, now).after.articles
      ensures k in s.articles && !FeedLogic.Expired(s.articles[k], feedId, hs, now)
    {
      var a := s.articles[k];
      if FeedLogic.Expired(a, feedId, hs, now) {
        assert false;
      }
    }
  }

  /** The legacy rule keeps the tables consistent. */
  lemma LegacyCleanUpKeepsConsistent(s: State, feedId: int, entryIds: seq<Option<string>>, now: int, hash: Hasher)
    requires Consistent(s, hash)
    ensures Consistent(LegacyCleanUp(s, feedId, entryIds, now).after, hash)
  {
  }
}
