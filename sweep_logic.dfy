/** feed.py's `update_all`: refresh every due feed, then read every mailbox. The clock
    is read once, and the random jitter of each feed's schedule is an input. */
module SweepLogic {
  import opened Records
  import opened Store
  import opened FeedLogic
  import opened MailLogic
  import Schedule

  /** The jitter `_calculate_next_update_time` draws for each feed id. */
  type Jitters = int -> int

  ghost predicate ValidJitters(jitters: Jitters) {
    forall k :: Schedule.ValidJitter(jitters(k))
  }

  /** `for feed in feeds_to_update: update(feed.id)`, with the default article limit.
      Feeds are neither added nor removed, and a feed changes only in its error and
      schedule fields; `RefreshAllOutcome` says which feeds change and how. */
  function RefreshAll(s: State, ids: seq<int>, net: Network, testingMode: bool, now: int, jitters: Jitters, hash: Hasher)
    : (r: State)
    requires ValidJitters(jitters)
    ensures r.folders == s.folders && r.credentials == s.credentials
    ensures r.nextFolderId == s.nextFolderId && r.nextFeedId == s.nextFeedId
    ensures r.feeds.Keys == s.feeds.Keys
    ensures forall k :: k in s.feeds ==>
              r.feeds[k] == s.feeds[k].(updateErrorCount := r.feeds[k].updateErrorCount,
                                        lastUpdateError := r.feeds[k].lastUpdateError,
                                        nextUpdateTime := r.feeds[k].nextUpdateTime)
  {
    if ids == [] then s
    else
      var t := RefreshAll(s, ids[..|ids| - 1], net, testingMode, now, jitters, hash);
      Refresh(t, ids[|ids| - 1], DefaultMaxArticles, net, testingMode, now, jitters(ids[|ids| - 1]), hash).after
  }

  /** The refresh loop over one more feed. */
  lemma RefreshAllNext(s: State, ids: seq<int>, i: int, net: Network, testingMode: bool, now: int, jitters: Jitters, hash: Hasher)
    requires ValidJitters(jitters) && 0 <= i < |ids|
    ensures RefreshAll(s, ids[..i + 1], net, testingMode, now, jitters, hash)
            == Refresh(RefreshAll(s, ids[..i], net, testingMode, now, jitters, hash), ids[i], DefaultMaxArticles,
                       net, testingMode, now, jitters(ids[i]), hash).after
  {
    assert ids[..i + 1][..i] == ids[..i];
  }

  /** What the refresh loop does to each feed. An unlisted feed does not change. A listed
      feed whose document parses is scheduled again within a day and a half hour; one whose
      document does not parse has the error recorded and counted. */
  lemma {:induction false} RefreshAllOutcome(s: State, ids: seq<int>, net: Network, testingMode: bool, now: int,
                                             jitters: Jitters, hash: Hasher)
    requires ValidJitters(jitters)
    ensures var r := RefreshAll(s, ids, net, testingMode, now, jitters, hash);
      && (forall k :: k in s.feeds && k !in ids ==> r.feeds[k] == s.feeds[k])
      && (forall k :: k in s.feeds && k in ids && Parse(net(s.feeds[k].url), testingMode).Ok? ==>
            r.feeds[k].nextUpdateTime.Some? && now <= r.feeds[k].nextUpdateTime.value <= now + Schedule.OneDay + Schedule.ThirtyMinutes)
      && (forall k :: k in s.feeds && k in ids && Parse(net(s.feeds[k].url), testingMode).Err? ==>
            r.feeds[k].updateErrorCount > s.feeds[k].updateErrorCount
            && r.feeds[k].lastUpdateError == Some(Parse(net(s.feeds[k].url), testingMode).error))
    decreases |ids|
  {
    if ids != [] {
      var init := ids[..|ids| - 1];
      var last := ids[|ids| - 1];
      RefreshAllOutcome(s, init, net, testingMode, now, jitters, hash);
      var t := RefreshAll(s, init, net, testingMode, now, jitters, hash);
      var r := RefreshAll(s, ids, net, testingMode, now, jitters, hash);
      assert r == Refresh(t, last, DefaultMaxArticles, net, testingMode, now, jitters(last), hash).after;
      forall k | k in s.feeds
        ensures k !in ids ==> r.feeds[k] == s.feeds[k]
        ensures k in ids && Parse(net(s.feeds[k].url), testingMode).Ok? ==>
                  r.feeds[k].nextUpdateTime.Some? && now <= r.feeds[k].nextUpdateTime.value <= now + Schedule.OneDay + Schedule.ThirtyMinutes
        ensures k in ids && Parse(net(s.feeds[k].url), testingMode).Err? ==>
                  r.feeds[k].updateErrorCount > s.feeds[k].updateErrorCount
                  && r.feeds[k].lastUpdateError == Some(Parse(net(s.feeds[k].url), testingMode).error)
      {
        assert k in ids <==> k in init || k == last;
        RefreshTouchesOne(t, last, k, net, testingMode, now, jitters(last), hash);
      }
    }
  }

  /** One refresh changes only its own feed: rescheduled when the document parses, the error
      counted when it does not. */
  lemma RefreshTouchesOne(t: State, feedId: int, k: int, net: Network, testingMode: bool, now: int, jitter: int, hash: Hasher)
    requires Schedule.ValidJitter(jitter) && k in t.feeds
    ensures var r := Refresh(t, feedId, DefaultMaxArticles, net, testingMode, now, jitter, hash).after;
      && k in r.feeds && r.feeds[k].url == t.feeds[k].url
      && (k != feedId ==> r.feeds[k] == t.feeds[k])
      && (k == feedId && Parse(net(t.feeds[k].url), testingMode).Ok? ==>
            r.feeds[k].nextUpdateTime.Some? && now <= r.feeds[k].nextUpdateTime.value <= now + Schedule.OneDay + Schedule.ThirtyMinutes)
      && (k == feedId && Parse(net(t.feeds[k].url), testingMode).Err? ==>
            r.feeds[k].updateErrorCount == t.feeds[k].updateErrorCount + 1
            && r.feeds[k].lastUpdateError == Some(Parse(net(t.feeds[k].url), testingMode).error))
  {
  }

  /** `update_all()`: the due feeds in id order, then `fetch_emails_from_all_mailboxes()`. */
  function UpdateAll(s: State, net: Network, testingMode: bool, now: int, jitters: Jitters, inbox: Inbox,
                     rootFolderId: int, hash: Hasher): (r: Step<Outcome>)
    requires ValidJitters(jitters)
    ensures r.after.folders == s.folders && r.after.credentials == s.credentials
    ensures s.credentials == [] ==> r.out == Done
  {
    var t := RefreshAll(s, DueFeeds(s, now), net, testingMode, now, jitters, hash);
    FetchAll(t, t.credentials, inbox, rootFolderId, now, hash)
  }

  /** The feed refreshes keep the tables consistent. */
  lemma {:induction false} RefreshAllKeepsConsistent(s: State, ids: seq<int>, net: Network, testingMode: bool, now: int,
                                                     jitters: Jitters, hash: Hasher)
    requires ValidJitters(jitters) && Consistent(s, hash)
    ensures Consistent(RefreshAll(s, ids, net, testingMode, now, jitters, hash), hash)
    decreases |ids|
  {
    if ids != [] {
      var init := ids[..|ids| - 1];
      var last := ids[|ids| - 1];
      RefreshAllKeepsConsistent(s, init, net, testingMode, now, jitters, hash);
      var t := RefreshAll(s, init, net, testingMode, now, jitters, hash);
      RefreshKeepsConsistent(t, last, DefaultMaxArticles, net, testingMode, now, jitters(last), hash);
    }
  }

  /** The whole sweep keeps the tables consistent. */
  lemma UpdateAllKeepsConsistent(s: State, net: Network, testingMode: bool, now: int, jitters: Jitters, inbox: Inbox,
                                 rootFolderId: int, hash: Hasher)
    requires ValidJitters(jitters) && Consistent(s, hash)
    ensures Consistent(UpdateAll(s, net, testingMode, now, jitters, inbox, rootFolderId, hash).after, hash)
  {
    var t := RefreshAll(s, DueFeeds(s, now), net, testingMode, now, jitters, hash);
    RefreshAllKeepsConsistent(s, DueFeeds(s, now), net, testingMode, now, jitters, hash);
    FetchAllKeeps(t, t.credentials, inbox, rootFolderId, now, hash);
  }

  /** A feed that is not due, and in particular every mailing list, leaves the sweep as it was. */
  lemma SweepSkipsFeedsNotDue(s: State, net: Network, testingMode: bool, now: int, jitters: Jitters, inbox: Inbox,
                              rootFolderId: int, hash: Hasher)
    requires ValidJitters(jitters) && Consistent(s, hash)
    ensures var after := UpdateAll(s, net, testingMode, now, jitters, inbox, rootFolderId, hash).after;
      && (forall k :: k in s.feeds && !Due(s.feeds[k], now) ==> k in after.feeds && after.feeds[k] == s.feeds[k])
      && (forall k :: k in s.feeds && s.feeds[k].isMailingList ==> k in after.feeds && after.feeds[k] == s.feeds[k])
  {
    var due := DueFeeds(s, now);
    var t := RefreshAll(s, due, net, testingMode, now, jitters, hash);
    RefreshAllOutcome(s, due, net, testingMode, now, jitters, hash);
    SweepKeepsRefreshedRows(s, net, testingMode, now, jitters, inbox, rootFolderId, hash);
    assert forall k :: k in s.feeds && !Due(s.feeds[k], now) ==> k !in due;
  }

  /** A due feed comes out of the sweep rescheduled, or with its parse error counted. */
  lemma SweepRefreshesDueFeeds(s: State, net: Network, testingMode: bool, now: int, jitters: Jitters, inbox: Inbox,
                               rootFolderId: int, hash: Hasher)
    requires ValidJitters(jitters) && Consistent(s, hash)
    ensures var after := UpdateAll(s, net, testingMode, now, jitters, inbox, rootFolderId, hash).after;
      && (forall k :: k in s.feeds && Due(s.feeds[k], now) && Parse(net(s.feeds[k].url), testingMode).Ok? ==>
            k in after.feeds && after.feeds[k].nextUpdateTime.Some?
            && now <= after.feeds[k].nextUpdateTime.value <= now + Schedule.OneDay + Schedule.ThirtyMinutes)
      && (forall k :: k in s.feeds && Due(s.feeds[k], now) && Parse(net(s.feeds[k].url), testingMode).Err? ==>
            k in after.feeds && after.feeds[k].updateErrorCount > s.feeds[k].updateErrorCount)
  {
    var due := DueFeeds(s, now);
    RefreshAllOutcome(s, due, net, testingMode, now, jitters, hash);
    SweepKeepsRefreshedRows(s, net, testingMode, now, jitters, inbox, rootFolderId, hash);
    assert forall k :: k in s.feeds && Due(s.feeds[k], now) ==> k in due;
  }

  /** The mail half of the sweep leaves the feed rows the refreshes produced. */
  lemma SweepKeepsRefreshedRows(s: State, net: Network, testingMode: bool, now: int, jitters: Jitters, inbox: Inbox,
                                rootFolderId: int, hash: Hasher)
    requires ValidJitters(jitters) && Consistent(s, hash)
    ensures var t := RefreshAll(s, DueFeeds(s, now), net, testingMode, now, jitters, hash);
            var after := UpdateAll(s, net, testingMode, now, jitters, inbox, rootFolderId, hash).after;
            forall k :: k in s.feeds ==> k in after.feeds && after.feeds[k] == t.feeds[k]
  {
    var t := RefreshAll(s, DueFeeds(s, now), net, testingMode, now, jitters, hash);
    RefreshAllKeepsConsistent(s, DueFeeds(s, now), net, testingMode, now, jitters, hash);
    FetchAllKeeps(t, t.credentials, inbox, rootFolderId, now, hash);
  }
}
