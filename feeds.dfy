/** feed.py's operations on the database. Each method updates the tables in place
    and is proved to leave them exactly as `FeedLogic` says, and consistent. */
module Feeds {
  import opened Records
  import opened Store
  import opened Entries
  import opened Ingestion
  import opened FeedLogic
  import Schedule
  import Articles

  /** `clean_up_old_articles`: selects the expired rows, then deletes them one by one. */
  method CleanUpOldArticles(db: Database, feedId: int, observed: seq<string>, now: int)
    requires ArticlesValid(db.articles, db.nextArticleId, db.hash)
    modifies db
    ensures ArticlesValid(db.articles, db.nextArticleId, db.hash)
    ensures db.Snapshot() == old(db.Snapshot()).(articles := Retain(old(db.articles), feedId, observed, now))
  {
    RetainKeepsValid(db.articles, db.nextArticleId, feedId, observed, now, db.hash);
    var selected := set k | k in db.articles && Expired(db.articles[k], feedId, observed, now);
    ghost var original := db.articles;
    Articles.DeleteSelected(db, selected);
    ghost var kept := Retain(original, feedId, observed, now);
    assert forall k :: k in db.articles <==> k in kept;
    assert db.articles.Keys == kept.Keys;
  }

  /** The entry loop of `update`: at most `maxArticles` entries, each inserted unless its
      guid hash is stored already; returns the observed hashes and the number inserted. */
  method IngestEntries(db: Database, entries: seq<Entry>, maxArticles: int, feedId: int, now: int)
    returns (observed: seq<string>, added: nat)
    modifies db
    ensures Batch(db.articles, db.nextArticleId, observed, added)
            == Ingest(Batch(old(db.articles), old(db.nextArticleId), [], 0), Considered(entries, maxArticles), feedId, now, db.hash)
    ensures db.Snapshot() == old(db.Snapshot()).(articles := db.articles, nextArticleId := db.nextArticleId)
  {
    ghost var b0 := Batch(db.articles, db.nextArticleId, [], 0);
    ghost var considered := Considered(entries, maxArticles);
    observed, added := [], 0;
    var i := 0;
    while i < |entries|
      invariant 0 <= i <= |considered|
      invariant Batch(db.articles, db.nextArticleId, observed, added) == Ingest(b0, entries[..i], feedId, now, db.hash)
      invariant db.Snapshot() == old(db.Snapshot()).(articles := db.articles, nextArticleId := db.nextArticleId)
    {
      if i >= maxArticles {
        break;
      }
      var created := CreateArticle(entries[i], feedId, now, db.hash);
      if created.Ok? {
        var a := created.value;
        observed := observed + [a.guidHash];
        if !HashInStore(db.articles, a.guidHash) {
          db.articles := db.articles[db.nextArticleId := a.(id := db.nextArticleId)];
          db.nextArticleId := db.nextArticleId + 1;
          added := added + 1;
        }
      }
      assert entries[..i + 1][..i] == entries[..i];
      i := i + 1;
    }
    assert entries[..i] == considered;
  }

  /** The successful branch of `update`: the errors cleared, the entries ingested, the next
      poll scheduled, and the expired articles removed. */
  method ReadDocument(db: Database, feedId: int, doc: Document, maxArticles: int, now: int, jitter: int)
    requires db.Valid() && feedId in db.feeds && doc.Wellformed? && Schedule.ValidJitter(jitter)
    modifies db
    ensures db.Valid()
    ensures db.Snapshot() == Refreshed(old(db.Snapshot()), feedId, doc, maxArticles, now, jitter, db.hash)
  {
    ghost var s := db.Snapshot();
    RefreshedKeepsConsistent(s, feedId, doc, maxArticles, now, jitter, db.hash);
    var feed := db.feeds[feedId];
    if feed.updateErrorCount > 0 {
      feed := feed.(updateErrorCount := 0, lastUpdateError := None);
      db.feeds := db.feeds[feedId := feed];
    }
    assert feed == ClearErrors(s.feeds[feedId]);
    ghost var considered := Considered(doc.entries, maxArticles);
    var observed, added := IngestEntries(db, doc.entries, maxArticles, feedId, now);
    ghost var b := IngestInto(s, doc, feedId, maxArticles, now, db.hash);
    assert db.articles == b.articles && db.nextArticleId == b.nextId && observed == b.observed;
    IngestKeepsValid(Batch(s.articles, s.nextArticleId, [], 0), considered, feedId, now, db.hash);
    var count := RecentCount(db.articles, feedId, now);
    var g := feed.(nextUpdateTime := Some(Schedule.NextUpdateTime(count, now, jitter)));
    db.feeds := db.feeds[feedId := g];
    assert db.feeds == s.feeds[feedId := g];
    CleanUpOldArticles(db, feedId, observed, now);
    assert db.articles == Retain(b.articles, feedId, b.observed, now);
  }

  /** `update(feedId, maxArticles)`. */
  method Update(db: Database, feedId: int, maxArticles: int, net: Network, testingMode: bool, now: int, jitter: int)
    returns (r: Outcome)
    requires db.Valid() && Schedule.ValidJitter(jitter)
    modifies db
    ensures db.Valid()
    ensures Step(r, db.Snapshot()) == Refresh(old(db.Snapshot()), feedId, maxArticles, net, testingMode, now, jitter, db.hash)
  {
    RefreshKeepsConsistent(db.Snapshot(), feedId, maxArticles, net, testingMode, now, jitter, db.hash);
    if feedId !in db.feeds {
      return Failed(NoFeed);
    }
    var feed := db.feeds[feedId];
    var parsed := Parse(net(feed.url), testingMode);
    if parsed.Err? {
      db.feeds := db.feeds[feedId := RecordFailure(feed, parsed.error)];
      return Done;
    }
    ReadDocument(db, feedId, parsed.value, maxArticles, now, jitter);
    r := Done;
  }

  /** `add(url, folderId)`: `net` answers the fetch in `_create`, `refetch` the one in `update`. */
  method Add(db: Database, url: string, folderId: int, net: Network, refetch: Network, testingMode: bool, now: int, jitter: int)
    returns (r: Result<int>)
    requires db.Valid() && Schedule.ValidJitter(jitter)
    modifies db
    ensures db.Valid()
    ensures Step(r, db.Snapshot()) == FeedLogic.Add(old(db.Snapshot()), url, folderId, net, refetch, testingMode, now, jitter, db.hash)
  {
    ghost var s := db.Snapshot();
    if FindByUrl(db.Snapshot(), url).Some? {
      return Err(FeedExists);
    }
    if folderId !in db.folders {
      return Err(NoFolder);
    }
    assert AddChecks(s, url, folderId).None?;
    var parsed := Parse(net(url), testingMode);
    if parsed.Err? {
      return Err(parsed.error);
    }
    var doc := parsed.value;
    if doc.title.None? {
      return Err(MissingFeedTitle);
    }
    var id := db.nextFeedId;
    var row := Feed(id, url, doc.title, doc.favicon, doc.link, now, None, folderId, 0, false, 0, None, false);
    InsertKeepsConsistent(s, row, db.hash);
    db.feeds := db.feeds[id := row];
    db.nextFeedId := id + 1;
    assert db.Snapshot() == Insert(s, row);
    var _ := Update(db, id, FirstRefreshArticles, refetch, testingMode, now, jitter);
    r := Ok(id);
  }

  /** `add_mailing_list(fromAddress, title, folderId)`. */
  method AddMailingList(db: Database, fromAddress: string, title: string, folderId: int, now: int) returns (r: Result<int>)
    requires db.Valid()
    modifies db
    ensures db.Valid()
    ensures Step(r, db.Snapshot()) == FeedLogic.AddMailingList(old(db.Snapshot()), fromAddress, title, folderId, now)
  {
    AddMailingListKeepsConsistent(db.Snapshot(), fromAddress, title, folderId, now, db.hash);
    if FindByUrl(db.Snapshot(), fromAddress).Some? {
      return Err(FeedExists);
    }
    if folderId !in db.folders {
      return Err(NoFolder);
    }
    var id := db.nextFeedId;
    db.feeds := db.feeds[id := Feed(id, fromAddress, Some(title), None, None, now, None, folderId, 0, false, 0, None, true)];
    db.nextFeedId := id + 1;
    r := Ok(id);
  }

  method Delete(db: Database, feedId: int) returns (r: Outcome)
    requires db.Valid()
    modifies db
    ensures db.Valid()
    ensures Step(r, db.Snapshot()) == FeedLogic.Delete(old(db.Snapshot()), feedId)
  {
    ManagementKeepsConsistent(db.Snapshot(), feedId, 0, "", db.hash);
    if feedId !in db.feeds {
      return Failed(NoFeed);
    }
    db.feeds := db.feeds - {feedId};
    r := Done;
  }

  method MoveToFolder(db: Database, feedId: int, folderId: int) returns (r: Outcome)
    requires db.Valid()
    modifies db
    ensures db.Valid()
    ensures Step(r, db.Snapshot()) == FeedLogic.Move(old(db.Snapshot()), feedId, folderId)
  {
    ManagementKeepsConsistent(db.Snapshot(), feedId, folderId, "", db.hash);
    if feedId !in db.feeds {
      return Failed(NoFeed);
    }
    if folderId !in db.folders {
      return Failed(NoFolder);
    }
    db.feeds := db.feeds[feedId := db.feeds[feedId].(folderId := folderId)];
    r := Done;
  }

  method Rename(db: Database, feedId: int, newTitle: string) returns (r: Outcome)
    requires db.Valid()
    modifies db
    ensures db.Valid()
    ensures Step(r, db.Snapshot()) == FeedLogic.Rename(old(db.Snapshot()), feedId, newTitle)
  {
    ManagementKeepsConsistent(db.Snapshot(), feedId, 0, newTitle, db.hash);
    if feedId !in db.feeds {
      return Failed(NoFeed);
    }
    db.feeds := db.feeds[feedId := db.feeds[feedId].(title := Some(newTitle))];
    r := Done;
  }
}
