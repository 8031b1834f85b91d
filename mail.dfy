/** email.py's operations on the database. Each method works on the tables in place and is
    proved to leave them, and to answer, exactly as `MailLogic` says. */
module Mail {
  import opened Records
  import opened Store
  import opened MailLogic
  import FeedLogic
  import Feeds

  /** The walk over the parts with `break`: the index of the first inline part of the type. */
  method FindPart(parts: seq<Part>, contentType: string) returns (r: Option<nat>)
    ensures r == FirstPart(parts, contentType)
  {
    r := None;
    var i := 0;
    while i < |parts|
      invariant 0 <= i <= |parts|
      invariant forall j :: 0 <= j < i ==> !Candidate(parts[j], contentType)
    {
      if parts[i].contentType == contentType && !Text.Contains(parts[i].disposition.GetOr("None"), "attachment") {
        r := Some(i);
        break;
      }
      i := i + 1;
    }
  }

  /** The content `process_email` stores: the html part, else the plain part, else the
      payload of a single-part message. */
  method ExtractContent(body: Body) returns (content: string)
    ensures content == SelectBody(body)
  {
    if body.SinglePart? {
      return body.payload;
    }
    content := "";
    var html := FindPart(body.parts, "text/html");
    if html.Some? {
      content := body.parts[html.value].payload;
    }
    if content == "" {
      var plain := FindPart(body.parts, "text/plain");
      if plain.Some? {
        content := body.parts[plain.value].payload;
      }
    }
  }

  /** `process_email(raw_email)`. */
  method ProcessEmail(db: Database, m: Email, rootFolderId: int, now: int) returns (r: Outcome)
    requires db.Valid()
    modifies db
    ensures db.Valid()
    ensures Step(r, db.Snapshot()) == MailLogic.ProcessEmail(old(db.Snapshot()), m, rootFolderId, now, db.hash)
  {
    ProcessKeepsConsistent(db.Snapshot(), m, rootFolderId, now, db.hash);
    var sender := SenderAddress(m.from);
    if !IsMailingList(m.headerNames) {
      return Done;
    }
    var title := FeedTitle(m.from);
    if title.Err? {
      return Failed(title.error);
    }
    var content := ExtractContent(m.body);
    r := FileMessage(db, sender, title.value, m.subject, content, rootFolderId, now);
  }

  /** The session block of `process_email`: the sender's feed, then the article. */
  method FileMessage(db: Database, sender: string, title: string, subject: string, content: string,
                     rootFolderId: int, now: int) returns (r: Outcome)
    requires db.Valid()
    modifies db
    ensures db.Valid()
    ensures Step(r, db.Snapshot()) == MailLogic.FileMessage(old(db.Snapshot()), sender, title, subject, content, rootFolderId, now, db.hash)
  {
    var found := FindSenderFeed(db, sender, title, rootFolderId, now);
    if found.Err? {
      return Failed(found.error);
    }
    var a := EmailArticle(found.value, sender, subject, content, now, db.hash);
    if !HashInStore(db.articles, a.guidHash) {
      NewArticleKeepsValid(db.articles, db.nextArticleId, db.hash, a);
      var id := db.nextArticleId;
      db.articles := db.articles[id := a.(id := id)];
      db.nextArticleId := id + 1;
    }
    r := Done;
  }

  /** The sender's feed: the one whose url is the address, else a new one. */
  method FindSenderFeed(db: Database, sender: string, title: string, rootFolderId: int, now: int) returns (r: Result<int>)
    requires db.Valid()
    modifies db
    ensures db.Valid()
    ensures Step(r, db.Snapshot()) == SenderFeed(old(db.Snapshot()), sender, title, rootFolderId, now)
  {
    FeedLogic.AddMailingListKeepsConsistent(db.Snapshot(), sender, title, rootFolderId, now, db.hash);
    var existing := FeedLogic.FindByUrl(db.Snapshot(), sender);
    if existing.Some? {
      return Ok(existing.value);
    }
    r := Feeds.AddMailingList(db, sender, title, rootFolderId, now);
  }

  /** One UNSEEN message: processed and flagged when its fetch succeeded. */
  method Deliver(db: Database, d: Delivery, seen: seq<int>, rootFolderId: int, now: int) returns (f: Fetch)
    requires db.Valid()
    modifies db
    ensures db.Valid()
    ensures Step(f, db.Snapshot()) == DeliverOne(old(db.Snapshot()), seen, d, rootFolderId, now, db.hash)
  {
    if d.fetched.None? {
      return Fetch(seen, Done);
    }
    var p := ProcessEmail(db, d.fetched.value, rootFolderId, now);
    if p.Failed? {
      return Fetch(seen, p);
    }
    f := Fetch(seen + [d.uid], Done);
  }

  /** `fetch_emails(credential)`: returns the uids it flagged `\Seen` and how it ended. */
  method FetchEmails(db: Database, credential: Credential, inbox: Inbox, rootFolderId: int, now: int) returns (f: Fetch)
    requires db.Valid()
    modifies db
    ensures db.Valid()
    ensures Step(f, db.Snapshot()) == MailLogic.FetchEmails(old(db.Snapshot()), credential, inbox, rootFolderId, now, db.hash)
  {
    if credential.protocol != "imap" {
      return Fetch([], Failed(UnsupportedProtocol(credential.protocol)));
    }
    var mailbox := inbox(credential);
    if !mailbox.loginOk {
      return Fetch([], Failed(MailboxLogin));
    }
    if !mailbox.searchOk {
      return Fetch([], Done);
    }
    f := ProcessMessages(db, mailbox.messages, rootFolderId, now);
  }

  /** The loop of `fetch_emails` over the UNSEEN messages. */
  method ProcessMessages(db: Database, ds: seq<Delivery>, rootFolderId: int, now: int) returns (f: Fetch)
    requires db.Valid()
    modifies db
    ensures db.Valid()
    ensures Step(f, db.Snapshot()) == ProcessDeliveries(old(db.Snapshot()), ds, rootFolderId, now, db.hash)
  {
    ghost var start := db.Snapshot();
    var seen: seq<int> := [];
    var i := 0;
    while i < |ds|
      invariant 0 <= i <= |ds|
      invariant db.Valid()
      invariant Step(Fetch(seen, Done), db.Snapshot()) == ProcessDeliveries(start, ds[..i], rootFolderId, now, db.hash)
    {
      DeliveriesNext(start, ds, i, rootFolderId, now, db.hash);
      f := Deliver(db, ds[i], seen, rootFolderId, now);
      if f.outcome.Failed? {
        DeliveriesStopAtFailure(start, ds, i + 1, rootFolderId, now, db.hash);
        return;
      }
      seen := f.seen;
      i := i + 1;
    }
    assert ds[..i] == ds;
    f := Fetch(seen, Done);
  }

  /** `fetch_emails_from_all_mailboxes()`: every stored account in turn. */
  method FetchAll(db: Database, inbox: Inbox, rootFolderId: int, now: int) returns (r: Outcome)
    requires db.Valid()
    modifies db
    ensures db.Valid()
    ensures Step(r, db.Snapshot()) == MailLogic.FetchAll(old(db.Snapshot()), old(db.credentials), inbox, rootFolderId, now, db.hash)
  {
    var credentials := db.credentials;
    ghost var start := db.Snapshot();
    var i := 0;
    while i < |credentials|
      invariant 0 <= i <= |credentials|
      invariant db.Valid()
      invariant Step(Done, db.Snapshot()) == MailLogic.FetchAll(start, credentials[..i], inbox, rootFolderId, now, db.hash)
    {
      FetchAllNext(start, credentials, i, inbox, rootFolderId, now, db.hash);
      var f := FetchEmails(db, credentials[i], inbox, rootFolderId, now);
      if f.outcome.Failed? {
        FetchAllStopsAtFailure(start, credentials, i + 1, inbox, rootFolderId, now, db.hash);
        return f.outcome;
      }
      i := i + 1;
    }
    assert credentials[..i] == credentials;
    r := Done;
  }

  /** `add_credentials(...)`: the account is stored only when a test login succeeds. */
  method AddCredentials(db: Database, credential: Credential, inbox: Inbox) returns (r: Outcome)
    requires db.Valid()
    modifies db
    ensures db.Valid()
    ensures Step(r, db.Snapshot()) == MailLogic.AddCredentials(old(db.Snapshot()), credential, inbox)
  {
    if !inbox(credential).loginOk {
      return Failed(EmailConnection);
    }
    db.credentials := db.credentials + [credential];
    r := Done;
  }
}
