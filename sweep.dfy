/** `update_all` on the database: each due feed is refreshed in place, then every mailbox
    is read, and the tables end as `SweepLogic` says. */
module Sweep {
  import opened Records
  import opened Store
  import opened SweepLogic
  import FeedLogic
  import MailLogic
  import Feeds
  import Mail

  /** `update_all()`. */
  method UpdateAll(db: Database, net: FeedLogic.Network, testingMode: bool, now: int, jitters: Jitters,
                   inbox: MailLogic.Inbox, rootFolderId: int) returns (r: Outcome)
    requires db.Valid() && ValidJitters(jitters)
    modifies db
    ensures db.Valid()
    ensures Step(r, db.Snapshot()) == SweepLogic.UpdateAll(old(db.Snapshot()), net, testingMode, now, jitters, inbox, rootFolderId, db.hash)
  {
    var due := FeedLogic.DueFeeds(db.Snapshot(), now);
    RefreshListed(db, due, net, testingMode, now, jitters);
    r := Mail.FetchAll(db, inbox, rootFolderId, now);
  }

  /** The loop of `update_all` over the due feeds. */
  method RefreshListed(db: Database, ids: seq<int>, net: FeedLogic.Network, testingMode: bool, now: int, jitters: Jitters)
    requires db.Valid() && ValidJitters(jitters)
    modifies db
    ensures db.Valid()
    ensures db.Snapshot() == RefreshAll(old(db.Snapshot()), ids, net, testingMode, now, jitters, db.hash)
  {
    ghost var start := db.Snapshot();
    var i := 0;
    while i < |ids|
      invariant 0 <= i <= |ids|
      invariant db.Valid()
      invariant db.Snapshot() == RefreshAll(start, ids[..i], net, testingMode, now, jitters, db.hash)
    {
      RefreshAllNext(start, ids, i, net, testingMode, now, jitters, db.hash);
      var _ := Feeds.Update(db, ids[i], FeedLogic.DefaultMaxArticles, net, testingMode, now, jitters(ids[i]));
      i := i + 1;
    }
    assert ids[..i] == ids;
  }
}
