/** article.py's updates on the database: each selects its rows, then walks them
    and sets the columns in place, and is proved to leave the tables exactly as
    `ArticleLogic` says. The item queries only read, and are the functions there. */
module Articles {
  import opened Records
  import opened Store
  import opened Ordering
  import opened ArticleLogic

  /** The loop the mark operations share: sets the flag on each selected row, in id order,
      and returns how many rows there were. */
  method MarkSelected(db: Database, chosen: set<int>, flag: Flag, value: bool, stamp: Option<int>) returns (count: int)
    requires ArticlesValid(db.articles, db.nextArticleId, db.hash)
    requires forall k :: k in chosen ==> k in db.articles
    modifies db
    ensures count == |chosen|
    ensures db.Snapshot() == old(db.Snapshot()).(articles := MarkRows(old(db.articles), chosen, flag, value, stamp))
  {
    var items := Ascending(chosen, db.nextArticleId);
    AscendingCount(chosen, db.nextArticleId);
    assert Below(chosen, db.nextArticleId) == chosen;
    assert forall x :: x in items <==> x in chosen;
    ghost var original := db.articles;
    ghost var done: set<int> := {};
    var i := 0;
    while i < |items|
      invariant 0 <= i <= |items|
      invariant forall x :: x in done <==> x in items[..i]
      invariant db.articles == MarkRows(original, done, flag, value, stamp)
      invariant db.Snapshot() == old(db.Snapshot()).(articles := db.articles)
    {
      var id := items[i];
      assert id !in done by {
        assert forall j :: 0 <= j < i ==> items[j] < items[i];
      }
      assert items[..i + 1] == items[..i] + [id];
      MarkOneMore(original, done, id, flag, value, stamp);
      db.articles := db.articles[id := Flagged(db.articles[id], flag, value, stamp)];
      done := done + {id};
      i := i + 1;
    }
    assert items[..i] == items;
    assert forall x :: x in done <==> x in chosen;
    assert done == chosen;
    count := |items|;
  }

  /** Flagging one more row of the table. */
  lemma MarkOneMore(articles: map<int, Article>, done: set<int>, id: int, flag: Flag, value: bool, stamp: Option<int>)
    requires id in articles && id !in done
    ensures id in MarkRows(articles, done, flag, value, stamp)
    ensures MarkRows(articles, done + {id}, flag, value, stamp)
            == MarkRows(articles, done, flag, value, stamp)[id := Flagged(MarkRows(articles, done, flag, value, stamp)[id], flag, value, stamp)]
  {
  }

  /** `mark_as_read(itemIds)`. */
  method MarkAsRead(db: Database, itemIds: seq<int>, now: int) returns (count: int)
    requires db.Valid()
    modifies db
    ensures db.Valid()
    ensures Step(count, db.Snapshot()) == MarkIds(old(db.Snapshot()), itemIds, UnreadFlag, false, now)
  {
    count := MarkListed(db, itemIds, UnreadFlag, false, now);
  }

  /** `mark_as_unread(itemIds)`. */
  method MarkAsUnread(db: Database, itemIds: seq<int>, now: int) returns (count: int)
    requires db.Valid()
    modifies db
    ensures db.Valid()
    ensures Step(count, db.Snapshot()) == MarkIds(old(db.Snapshot()), itemIds, UnreadFlag, true, now)
  {
    count := MarkListed(db, itemIds, UnreadFlag, true, now);
  }

  /** `mark_as_starred(itemIds)`. */
  method MarkAsStarred(db: Database, itemIds: seq<int>, now: int) returns (count: int)
    requires db.Valid()
    modifies db
    ensures db.Valid()
    ensures Step(count, db.Snapshot()) == MarkIds(old(db.Snapshot()), itemIds, StarredFlag, true, now)
  {
    count := MarkListed(db, itemIds, StarredFlag, true, now);
  }

  /** `mark_as_unstarred(itemIds)`. */
  method MarkAsUnstarred(db: Database, itemIds: seq<int>, now: int) returns (count: int)
    requires db.Valid()
    modifies db
    ensures db.Valid()
    ensures Step(count, db.Snapshot()) == MarkIds(old(db.Snapshot()), itemIds, StarredFlag, false, now)
  {
    count := MarkListed(db, itemIds, StarredFlag, false, now);
  }

  /** The body the four `mark_as_*` functions share: the rows whose id is listed. */
  method MarkListed(db: Database, itemIds: seq<int>, flag: Flag, value: bool, now: int) returns (count: int)
    requires db.Valid()
    modifies db
    ensures db.Valid()
    ensures Step(count, db.Snapshot()) == MarkIds(old(db.Snapshot()), itemIds, flag, value, now)
  {
    MarksKeepConsistent(db.Snapshot(), itemIds, flag, value, now, db.hash);
    var chosen := WithIds(db.articles, itemIds);
    count := MarkSelected(db, chosen, flag, value, Some(now));
  }

  /** `mark_all_as_read(newestItemId)`. */
  method MarkAllAsRead(db: Database, newestItemId: int, now: int) returns (count: int)
    requires db.Valid()
    modifies db
    ensures db.Valid()
    ensures Step(count, db.Snapshot()) == ArticleLogic.MarkAllAsRead(old(db.Snapshot()), newestItemId, now)
  {
    MarkAllKeepsConsistent(db.Snapshot(), newestItemId, now, db.hash);
    var chosen := set k | k in db.articles && db.articles[k].id <= newestItemId;
    count := MarkSelected(db, chosen, UnreadFlag, false, Some(now));
  }

  /** `mark_read_by_feed(feedId, newestItemId)`. */
  method MarkReadByFeed(db: Database, feedId: int, newestItemId: int) returns (r: Outcome)
    requires db.Valid()
    modifies db
    ensures db.Valid()
    ensures Step(r, db.Snapshot()) == ArticleLogic.MarkReadByFeed(old(db.Snapshot()), feedId, newestItemId)
  {
    MarkByFeedKeepsConsistent(db.Snapshot(), feedId, newestItemId, db.hash);
    if feedId !in db.feeds {
      return Failed(NoFeed);
    }
    var chosen := set k | k in db.articles && db.articles[k].feedId == feedId && db.articles[k].id <= newestItemId;
    var _ := MarkSelected(db, chosen, UnreadFlag, false, None);
    r := Done;
  }

  /** The set comprehension over the entries: their "id" keys in order, or `None` at the
      first entry without one (the KeyError). */
  method CollectGuids(entryIds: seq<Option<string>>) returns (guids: Option<seq<string>>)
    ensures guids.None? <==> SomeIdMissing(entryIds)
    ensures guids.Some? ==> guids.value == EntryGuids(entryIds)
  {
    var found: seq<string> := [];
    var j := 0;
    while j < |entryIds|
      invariant 0 <= j <= |entryIds|
      invariant |found| == j && forall i :: 0 <= i < j ==> entryIds[i] == Some(found[i])
    {
      if entryIds[j].None? {
        return None;
      }
      found := found + [entryIds[j].value];
      j := j + 1;
    }
    guids := Some(found);
  }

  /** Deletes the selected rows one by one, in id order. */
  method DeleteSelected(db: Database, chosen: set<int>)
    requires ArticlesValid(db.articles, db.nextArticleId, db.hash)
    modifies db
    ensures db.Snapshot() == old(db.Snapshot()).(articles := map k | k in old(db.articles) && k !in chosen :: old(db.articles)[k])
  {
    var doomed := Ascending(chosen, db.nextArticleId);
    ghost var original := db.articles;
    var i := 0;
    while i < |doomed|
      invariant 0 <= i <= |doomed|
      invariant forall k :: k in db.articles <==> k in original && k !in doomed[..i]
      invariant forall k :: k in db.articles ==> db.articles[k] == original[k]
      invariant db.Snapshot() == old(db.Snapshot()).(articles := db.articles)
    {
      assert doomed[..i + 1] == doomed[..i] + [doomed[i]];
      db.articles := db.articles - {doomed[i]};
      i := i + 1;
    }
    assert doomed[..i] == doomed;
    var kept := map k | k in original && k !in chosen :: original[k];
    forall k ensures k in db.articles <==> k in kept {
      assert k in db.articles <==> k in original && k !in doomed;
    }
    assert db.articles.Keys == kept.Keys;
    assert forall k :: k in kept ==> db.articles[k] == kept[k];
  }

  /** article.py's `clean_up_old_articles(feedId, entryIds)`. */
  method LegacyCleanUp(db: Database, feedId: int, entryIds: seq<Option<string>>, now: int) returns (r: Outcome)
    requires db.Valid()
    modifies db
    ensures db.Valid()
    ensures Step(r, db.Snapshot()) == ArticleLogic.LegacyCleanUp(old(db.Snapshot()), feedId, entryIds, now)
  {
    LegacyCleanUpKeepsConsistent(db.Snapshot(), feedId, entryIds, now, db.hash);
    if feedId !in db.feeds {
      return Failed(NoFeed);
    }
    var guids := CollectGuids(entryIds);
    if guids.None? {
      return Failed(MissingEntryId);
    }
    ghost var original := db.articles;
    var selected := set k | k in db.articles && GuidExpired(db.articles[k], feedId, guids.value, now);
    DeleteSelected(db, selected);
    var kept := ArticleLogic.LegacyCleanUp(old(db.Snapshot()), feedId, entryIds, now).after.articles;
    assert forall k :: k in selected <==> k in original && GuidExpired(original[k], feedId, guids.value, now);
    assert db.articles.Keys == kept.Keys;
    r := Done;
  }
}
