# headless-rss core, modelled in Dafny

headless-rss is a self-hosted feed aggregator. It polls RSS/Atom feeds and turns
newsletters from IMAP mailboxes into feeds. It stores folders, feeds and articles in
SQLite and serves them through a Nextcloud-News-compatible API. This project models
the core behind that API:

- **Polling feeds** (`src/feed.py`):
  - the SSRF guard;
  - turning an entry into an article;
  - the update loop with its store-wide guid-hash deduplication;
  - the 90-day retention rule;
  - the poll schedule;
  - `update_all`;
  - adding, renaming, moving and deleting feeds.
- **Articles** (`src/article.py`):
  - the four list queries and their filters;
  - lookup by guid hash;
  - the read/starred marks;
  - the older guid-based cleanup.
- **Newsletters** (`src/email.py`):
  - reading the From header;
  - detecting a mailing list;
  - choosing the body;
  - filing a message under one feed per sender;
  - the per-mailbox loop and the all-mailboxes sweep;
  - storing credentials.
- **Text around extraction and summaries** (`src/content.py`):
  - `strip_html`, `normalize_text` and the trim to 8000 characters;
  - the post-processing of `extract_article` and `summarize_article_with_llm`.
- **Folders** (`src/folder.py`): create, rename, delete.

How the model is organised:

- The database is the class `Store.Database`. Its map fields (folders, feeds, articles)
  and its credentials list are updated in place by the imperative modules:
  - `Feeds`
  - `Articles`
  - `Folders`
  - `Mail`
  - `Sweep`
- Each method is proved to end in exactly the tables, and the answer, that a pure
  function of the old tables gives. Each method that stands for a function of the
  source is also proved to keep the store consistent (`Store.Consistent`); the
  helpers it calls for one step or one loop state only their effect on the tables.
  These pure functions live in:
  - `FeedLogic`
  - `ArticleLogic`
  - `FolderLogic`
  - `MailLogic`
  - `SweepLogic`
- The properties are lemmas about those functions.
- Collaborators are inputs. Each is a function or value given to the operation:
  - feedparser;
  - DNS;
  - IMAP;
  - the MIME parser;
  - the LLM;
  - trafilatura;
  - the clock;
  - `random.randint`;
  - the guid digest.

The code behaves differently from what one might expect in these places, and the model follows the code:

- Deleting a feed or a folder does not delete that feed's articles. `get_by_folder`'s
  inner join then hides them.
- Article deduplication on insert is store-wide: a guid hash stored under any feed
  blocks the insert.
- `mark_read_by_feed` does not touch `last_modified`.
- An html part whose payload is empty falls back to the plain-text part.
- The newsletter path has no cleanup of its own.
- Once a feed has 302400 or more recent articles, the poll interval rounds to 0, so the
  next update time is `now` itself.

## Model

| member | source | states |
|---|---|---|
| UrlGuard.CheckScheme | src/feed.py:44-49 | only `http` and `https` pass; any other scheme is refused with its name |
| UrlGuard.CheckHostname | src/feed.py:52-59 | a missing or empty hostname is refused; `localhost`, `127.0.0.1` and `::1` (any case) are refused exactly when localhost is not allowed |
| UrlGuard.CheckAddress | src/feed.py:62-86 | private (non-loopback), link-local, unspecified, multicast addresses and 169.254.169.254 are always refused; loopback is refused exactly when localhost is not allowed; any other address passes |
| UrlGuard.CheckAddresses | src/feed.py:117-131 | passes iff every resolved address passes; otherwise the verdict is the first refused address's, and addresses `ipaddress` cannot parse are skipped |
| UrlGuard.ValidateFeedUrl | src/feed.py:89-132 | the checks run in order: scheme, hostname, addresses. A DNS failure leaves only the scheme and hostname checks. Any refused address refuses the URL. With no explicit flag, testing mode decides whether localhost is allowed |
| UrlGuard.ValidateMatchesPolicy | src/feed.py:89-132 | the guard refuses a URL if and only if it is unsafe by the documented policy (bad scheme, no host, localhost name when not allowed, or some refused address) |
| UrlGuard.RefusesKnownAttacks | src/feed.py:89-132 | `file:` URLs, `localhost`, a 192.168 address and the cloud metadata address are refused |
| Content.ValidateUrl | src/content.py:254-297 | content.py's copy of the guard gives the same verdict as feed.py's; with no flag it uses testing mode |
| Content.StripHtml | src/content.py:23-24 | each tag (a '<', at least one character other than '>', then '>') becomes one space, so the result is never longer than its input |
| Content.StripHtmlLeavesNoTag | src/content.py:23-24 | after stripping, no `<...>` tag remains anywhere |
| Content.StripHtmlKeepsPlainText | src/content.py:23-24 | text that contains no tag is returned unchanged |
| Content.StripHtmlIdempotent | src/content.py:23-24 | stripping twice is stripping once |
| Content.StripHtmlAddsNoCloser | src/content.py:23-24 | stripping text without '>' yields text without '>' |
| Content.CollapseLeavesSingleSpaces | src/content.py:31 | after `\s+` becomes one space, no two whitespace characters are adjacent |
| Content.NormalizeText | src/content.py:27-32 | falsy input gives "". Otherwise the result has no surrounding whitespace, no adjacent whitespace, no tag and no upper-case ASCII letter |
| Content.NormalizeCleanText | src/content.py:27-32 | a text with no tag, no surrounding and no adjacent whitespace normalises to its lower-case form |
| Content.NormalizeIdempotent | src/content.py:27-32 | normalising a normalised text changes nothing |
| Content.CollapseSpaces | src/content.py:31 | `re.sub(r"\s+", " ", ...)`: the result is never longer, and a text that starts with a non-space keeps its first character |
| Content.TrimArticleText | src/content.py:111-112 | the result is the input's prefix of length min(length, 8000); `None` gives "" |
| Content.ExtractArticle | src/content.py:35-70 | an empty url or a refused url gives None; a result is non-empty, stripped, and a part of what extraction returned |
| Content.SummarizeArticle | src/content.py:73-104 | a summary comes back iff the LLM is enabled, the stripped and trimmed text is non-empty, the call answered with text, and the JSON holds a non-blank summary. The summary is exactly the stripped `summary` field followed by " (AI generated)" |
| Entries.Guid | src/feed.py:248 | `id or link or title`: the first truthy of the three, else whatever the title holds |
| Entries.Content | src/feed.py:243-245 | the first element of the content list if the key is present (IndexError on an empty list), else the summary |
| Entries.Failure | src/feed.py:243-253 | an entry fails exactly when its content list is empty, it has no guid, or it lacks the `updated_parsed` key |
| Entries.CreateArticle | src/feed.py:236-273 | a failing entry gives its error; otherwise the row carries the entry's fields, the hash of its guid, updated date (or now) and published date (or updated date), unread, unstarred, stamped now |
| Entries.UpdatedDate | src/feed.py:252-255 | `updated_parsed` in seconds, or the clock when it cannot be converted (definition; used by `Entries.CreateArticle`) |
| Entries.PubDate | src/feed.py:257-260 | `published_parsed` in seconds, or the updated date when it is missing or cannot be converted (definition; used by `Entries.CreateArticle`) |
| Entries.GuidHash | src/feed.py:236-273 | an entry has a guid hash exactly when it converts |
| Entries.ClockIndependent | src/feed.py:236-273 | whether an entry converts, and its hash, do not depend on the clock |
| Entries.EmptyKeysGiveEmptyGuid | src/feed.py:248-250 | id, link and title all "" give the guid "", not an error |
| Entries.TitleIsLastResort | src/feed.py:248-250 | with no truthy id or link, the guid is the title and is missing only when the title is |
| Ingestion.Observed | src/feed.py:211-216 | the hashes of the considered entries that convert, in order, at most one per entry (the list the loop appends to; `Ingestion.IngestObserves` states that the loop builds it and stores each hash) |
| Ingestion.IngestEntry | src/feed.py:214-225 | one pass of the entry loop (definition; its effect is stated by `Ingestion.IngestEntryEffect`) |
| Ingestion.IngestEntryEffect | src/feed.py:214-225 | an entry that raises leaves the batch as it was. One that converts has its hash observed and stored. It is inserted under the next id, and counted, exactly when no row had its hash |
| Ingestion.Ingest | src/feed.py:211-225 | the loop over the entries in source order: the insert count grows by the number of ids handed out, and the observed list only grows |
| Ingestion.IngestAppend | src/feed.py:211-225 | the loop over `xs + ys` is the loop over `xs` followed by the loop over `ys` |
| Ingestion.ObservedAppend | src/feed.py:211-216 | the observed hashes of `xs + ys` are those of `xs` then those of `ys` |
| Ingestion.IngestAdds | src/feed.py:211-225 | old rows stay as they were. New rows get fresh ids, belong to the feed, are unread and unstarred, and carry a hash not stored before. The insert count matches the id advance |
| Ingestion.IngestObserves | src/feed.py:211-222 | the loop observes, in order, the hash of every entry that converts, and every observed hash is stored afterwards |
| Ingestion.IngestKeepsValid | src/feed.py:211-225 | the loop keeps ids keyed, hashes digesting guids and hashes unique |
| Ingestion.KnownEntriesInsertNothing | src/feed.py:218-222 | if every observed hash is already stored, the loop inserts nothing |
| Ingestion.SkipsFailingEntry | src/feed.py:224-225 | an entry whose conversion raises is skipped as if it were not there |
| Ingestion.DuplicateInsertsOnce | src/feed.py:218-222 | the same new entry twice in one document is inserted once and observed twice |
| Ingestion.HashStays | src/feed.py:218-222 | a stored hash stays stored while rows are only added |
| FeedLogic.Parse | src/feed.py:164-178 | a document comes back iff the url passes the guard and feedparser's bozo flag is clear; a refused url gives the SSRF error |
| FeedLogic.Considered | src/feed.py:211-213 | the first `max_articles` entries (none when the limit is not positive) |
| FeedLogic.Retain | src/feed.py:468-492 | exactly the rows that are not expired survive, unchanged. Expired means: this feed, read, unstarred, last modified over 90 days ago, hash not observed |
| FeedLogic.Expired | src/feed.py:475-485 | the five deletion conditions: this feed, modified over 90 days ago, read, unstarred, hash not observed (definition; see `FeedLogic.Retain` and `FeedLogic.RetentionCases`) |
| FeedLogic.RetainSpares | src/feed.py:478-485 | an unread, starred, recent, other-feed or still-published row is never deleted |
| FeedLogic.RetainKeepsValid | src/feed.py:468-492 | cleanup keeps the article table consistent |
| FeedLogic.RetentionCases | src/feed.py:478-485 | a read, unstarred row 91 days old is deleted; starring it, marking it unread, touching it or seeing it in the feed saves it |
| FeedLogic.Refresh | src/feed.py:181-233 | missing feed gives NoFeedError. Otherwise only the feed's error and schedule fields and the article table change. A failed parse bumps the error count and records the error. A good one clears the error and schedules the next poll between now and now + 24.5 hours |
| FeedLogic.RecordFailure | src/feed.py:197-202 | after a failed parse the error count rises by one and the error is recorded; the rest of the row stays |
| FeedLogic.Refreshed | src/feed.py:203-233 | the tables after a good parse (definition; its effect is stated by `FeedLogic.RefreshedRow` and `FeedLogic.RefreshArticles`) |
| FeedLogic.RefreshedRow | src/feed.py:203-233 | only the feed's own row changes among the feeds. A positive error count is cleared with its error. The next poll lies between now and now plus 24.5 hours. Folders, credentials and the feed counter stay, and article ids only grow |
| FeedLogic.RecentCount | src/feed.py:308-315 | the number of the feed's articles published in the last week (definition; used by `Schedule.NextUpdateTime`) |
| FeedLogic.RefreshArticles | src/feed.py:207-233 | after a good refresh, only this feed's expired rows are gone. Surviving rows are unchanged. New rows belong to the feed and carry a hash not stored before. Every observed entry's hash is stored |
| FeedLogic.RefreshKeepsConsistent | src/feed.py:181-233 | a refresh keeps the tables consistent |
| FeedLogic.RefreshTwiceInsertsNothing | src/feed.py:218-222 | refreshing again with the same upstream document inserts no article |
| FeedLogic.DueFeeds | src/feed.py:281-289 | the due feeds in id order: not a mailing list, and never scheduled or scheduled at or before now |
| FeedLogic.Due | src/feed.py:281-288 | not a mailing list, and never scheduled or scheduled at or before now (definition; see `FeedLogic.DueFeeds`) |
| FeedLogic.FindByUrl | src/feed.py:352 | the lowest feed id with that url, or none when no feed has it |
| FeedLogic.FindByUrlFinds | src/feed.py:352 | in a consistent store the lookup succeeds iff some feed has the url |
| FeedLogic.GetByUrl | src/feed.py:344-355 | the feed with that url, or NoFeedError exactly when none has it |
| FeedLogic.Insert | src/feed.py:143-161 | a new feed row takes the next feed id |
| FeedLogic.AddChecks | src/feed.py:369-376 | a taken url raises FeedExistsError before a missing folder raises NoFolderError |
| FeedLogic.Add | src/feed.py:358-384 | the checks run first, then the first parse, then the title taken from it; the feed is added exactly when all three pass. The new row takes the next id, has the given url and folder, the first document's title, favicon and link, and is no mailing list. The refresh reads the url a second time: if that parse fails the row has one recorded error and no schedule and no article is added; if it succeeds the row has no error and is scheduled within 24.5 hours |
| FeedLogic.AddIngestsFirstEntries | src/feed.py:377-383 | `update(new_feed.id, max_articles=10)` after a good second fetch: old rows go only when expired for the new feed and survivors stay as they were; at most ten rows are added, all of the new feed with hashes not stored before; every converting entry among the first ten is stored; the next poll is computed from the feed's articles once those entries are in |
| FeedLogic.AddMailingList | src/feed.py:387-412 | same checks as `add`. On success exactly one row is added: the next id, a mailing list titled as given, no schedule |
| FeedLogic.AddKeepsConsistent | src/feed.py:358-384 | adding a feed keeps the tables consistent (urls stay unique) |
| FeedLogic.AddMailingListKeepsConsistent | src/feed.py:387-412 | adding a mailing list keeps the tables consistent |
| FeedLogic.InsertKeepsConsistent | src/feed.py:143-161 | inserting a feed with a fresh url into an existing folder keeps the tables consistent |
| FeedLogic.Delete | src/feed.py:415-426 | NoFeedError for a missing feed; otherwise exactly that row goes |
| FeedLogic.Move | src/feed.py:429-448 | NoFeedError, then NoFolderError; otherwise only the feed's folder changes |
| FeedLogic.Rename | src/feed.py:451-465 | NoFeedError for a missing feed; otherwise only the title changes |
| FeedLogic.ManagementKeepsConsistent | src/feed.py:415-465 | delete, move and rename keep the tables consistent; delete leaves the article table as it was |
| Schedule.RoundHalfEven | src/feed.py:323 | Python's `round`: within half of the exact quotient, ties to the even integer |
| Schedule.QuietMeansNoArticles | src/feed.py:316 | `count / 7 <= 0.1` holds exactly when the count is 0 |
| Schedule.Interval | src/feed.py:316-325 | no recent article gives a day plus the jitter (at most half an hour either way). One to three articles give the 12-hour cap. From four on the result is `RoundHalfEven(151200, count)`: within half of 151200/count, ties to the even integer |
| Schedule.CapBoundary | src/feed.py:323-325 | the cap `min(..., twelve_hours)` bites for one to three articles in the week and never from four on |
| Schedule.PositiveBelowFlood | src/feed.py:323-325 | with recent articles, the interval is positive exactly when there are fewer than 302400 of them |
| Schedule.EightADay | src/feed.py:323 | 56 articles in the week give 45 minutes |
| Schedule.OneAWeek | src/feed.py:323-325 | one article in the week gives the 12-hour cap |
| Schedule.NextUpdateTime | src/feed.py:299-332 | the next poll is `now` plus the interval: later than now exactly below 302400 recent articles |
| Feeds.Update | src/feed.py:181-233 | `update` on the database ends exactly as `FeedLogic.Refresh` says and keeps it consistent |
| Feeds.ReadDocument | src/feed.py:203-233 | after a successful parse, the row's errors are cleared, the entries ingested, the next poll set and the expired articles removed, exactly as `FeedLogic.Refreshed` says |
| Feeds.IngestEntries | src/feed.py:208-225 | the entry loop in place equals `Ingestion.Ingest` over the considered entries |
| Feeds.CleanUpOldArticles | src/feed.py:468-492 | deleting the selected rows one by one leaves exactly `FeedLogic.Retain` |
| Feeds.Add | src/feed.py:358-384 | `add` in place equals `FeedLogic.Add`, with the first read and the refresh read given separately |
| Feeds.AddMailingList | src/feed.py:387-412 | `add_mailing_list` in place equals `FeedLogic.AddMailingList` |
| Feeds.Delete | src/feed.py:415-426 | `delete` in place equals `FeedLogic.Delete` |
| Feeds.MoveToFolder | src/feed.py:429-448 | `move_to_folder` in place equals `FeedLogic.Move` |
| Feeds.Rename | src/feed.py:451-465 | `rename` in place equals `FeedLogic.Rename` |
| ArticleLogic.OrderedIds | src/article.py:107-124 | exactly the selected rows' ids, ascending for oldest-first and descending otherwise |
| ArticleLogic.InScope | src/article.py:31-90 | the row belongs to the query's scope: all, one feed, a folder through an existing feed, or starred (definition) |
| ArticleLogic.PassesFilters | src/article.py:115-122 | the unread, newest-id and last-modified filters (definition; see `ArticleLogic.Items` and `ArticleLogic.ItemsComplete`) |
| ArticleLogic.Selected | src/article.py:107-122 | in scope and passing the filters (definition; see `ArticleLogic.OrderedIds`) |
| ArticleLogic.Items | src/article.py:107-130 | the rows in that order, cut to `max_results` when positive. Every row returned is stored, in scope and passes the unread, newest-id and last-modified filters |
| ArticleLogic.GetAll | src/article.py:31-43 | every row returned is stored and passes the filters |
| ArticleLogic.GetByFeed | src/article.py:46-59 | every row returned belongs to the feed and passes the filters |
| ArticleLogic.GetByFolder | src/article.py:62-75 | every row returned belongs to an existing feed of the folder and passes the filters |
| ArticleLogic.GetStarred | src/article.py:78-90 | every row returned is starred and passes the filters |
| ArticleLogic.ItemsOrdered | src/article.py:124 | the returned rows are strictly ordered by id in the requested direction |
| ArticleLogic.ItemsComplete | src/article.py:107-130 | a row in scope that passes the filters is returned, unless the limit was reached by rows that come before it |
| ArticleLogic.GetAllListsEveryRow | src/article.py:31-43 | with default arguments every stored row is listed, once each |
| ArticleLogic.GetByGuidHash | src/article.py:93-104 | the row found belongs to the feed and has the hash; otherwise NoArticleError |
| ArticleLogic.GetByGuidHashFinds | src/article.py:93-104 | a stored row of the feed with that hash is found; the lookup fails exactly when there is none |
| ArticleLogic.Flagged | src/article.py:133-185 | the flag gets its value, the other flag stays, `last_modified` is stamped when a stamp is given; nothing else changes |
| ArticleLogic.MarkRows | src/article.py:136-141 | the chosen rows flagged, the others unchanged (definition; see `ArticleLogic.MarkIds`) |
| ArticleLogic.MarkIds | src/article.py:133-174 | exactly the rows whose id is listed get the flag and the timestamp; the others are unchanged; the count is the number of rows changed |
| ArticleLogic.MarkIdsCount | src/article.py:136-141 | the count is the number of distinct listed ids that exist, at most the list length, and exactly the length for distinct existing ids |
| ArticleLogic.MarkIdsIdempotent | src/article.py:133-174 | marking twice is marking once (with the later timestamp) |
| ArticleLogic.MarkIdsUndo | src/article.py:133-174 | clearing then setting a flag that was set restores the row but for its timestamp |
| ArticleLogic.MarkRowsKeepsValid | src/article.py:133-185 | marking keeps the article table consistent |
| ArticleLogic.MarkAllAsRead | src/article.py:177-185 | rows up to the given id become read and stamped; the rest are unchanged; the count is the number of such rows |
| ArticleLogic.MarkAllAsReadLeavesNoUnread | src/article.py:177-185 | afterwards an unread-only query up to that id returns nothing |
| ArticleLogic.MarkReadByFeed | src/article.py:11-28 | NoFeedError for a missing feed. Otherwise the feed's rows up to the id become read, without a timestamp, and nothing else changes |
| ArticleLogic.MarkReadByFeedLeavesNoUnread | src/article.py:11-28 | afterwards the feed has no unread row up to that id, and no `last_modified` changed |
| ArticleLogic.MarksKeepConsistent | src/article.py:133-174 | the four `mark_as_*` operations keep the tables consistent |
| ArticleLogic.MarkAllKeepsConsistent | src/article.py:177-185 | `mark_all_as_read` keeps the tables consistent |
| ArticleLogic.MarkByFeedKeepsConsistent | src/article.py:11-28 | `mark_read_by_feed` keeps the tables consistent |
| ArticleLogic.EntryGuids | src/article.py:202 | the entries' ids, one per entry, in order |
| ArticleLogic.LegacyCleanUp | src/article.py:188-218 | NoFeedError first, then KeyError for an entry without id. Otherwise exactly the feed's read, unstarred rows untouched for 90 days whose guid is not listed are deleted |
| ArticleLogic.GuidExpired | src/article.py:205-211 | the legacy deletion conditions, matching on the guid itself (definition; see `ArticleLogic.HashRuleDeletesNoMore`) |
| ArticleLogic.HashRuleDeletesNoMore | src/article.py:188-218 | every row the guid rule keeps is also kept by feed.py's hash rule |
| ArticleLogic.LegacyCleanUpKeepsConsistent | src/article.py:188-218 | the legacy cleanup keeps the tables consistent |
| ArticleLogic.Hashes | src/article.py:202 | one digest per guid, in order |
| Articles.MarkSelected | src/article.py:136-141 | the row loop sets the flag on exactly the selected rows and returns their number |
| Articles.MarkListed | src/article.py:133-174 | the body the four `mark_as_*` functions share equals `ArticleLogic.MarkIds` and keeps the store consistent |
| Articles.MarkAsRead | src/article.py:133-141 | `mark_as_read` in place equals `ArticleLogic.MarkIds` clearing unread |
| Articles.MarkAsUnread | src/article.py:144-152 | `mark_as_unread` in place equals `ArticleLogic.MarkIds` setting unread |
| Articles.MarkAsStarred | src/article.py:155-163 | `mark_as_starred` in place equals `ArticleLogic.MarkIds` setting starred |
| Articles.MarkAsUnstarred | src/article.py:166-174 | `mark_as_unstarred` in place equals `ArticleLogic.MarkIds` clearing starred |
| Articles.MarkAllAsRead | src/article.py:177-185 | `mark_all_as_read` in place equals `ArticleLogic.MarkAllAsRead` |
| Articles.MarkReadByFeed | src/article.py:11-28 | `mark_read_by_feed` in place equals `ArticleLogic.MarkReadByFeed` |
| Articles.CollectGuids | src/article.py:202 | the set comprehension fails exactly when some entry has no id, and otherwise lists the ids |
| Articles.DeleteSelected | src/article.py:215-216 | deleting one by one removes exactly the selected rows |
| Articles.LegacyCleanUp | src/article.py:188-218 | the legacy cleanup in place equals `ArticleLogic.LegacyCleanUp` |
| FolderLogic.Create | src/folder.py:16-42 | a taken name raises FolderExistsError before an empty name raises InvalidFolderNameError. Otherwise one folder with a fresh id and the name is added and nothing else changes |
| FolderLogic.Rename | src/folder.py:66-92 | NoFolderError, then FolderExistsError, then InvalidFolderNameError; otherwise only that folder's name changes |
| FolderLogic.Delete | src/folder.py:49-63 | NoFolderError for a missing folder. Otherwise the folder and exactly its feeds go, and the articles stay |
| FolderLogic.CreateKeepsConsistent | src/folder.py:16-42 | creating keeps the tables consistent and adds exactly one folder |
| FolderLogic.RenameKeepsConsistent | src/folder.py:66-92 | renaming keeps the tables consistent |
| FolderLogic.DeleteKeepsConsistent | src/folder.py:49-63 | deleting keeps the tables consistent and leaves no feed in the deleted folder |
| FolderLogic.RenameToOwnNameFails | src/folder.py:82-85 | renaming a folder to its current name raises FolderExistsError |
| FolderLogic.EmptyNameCheckedAfterExistence | src/folder.py:27-34 | when a folder named "" exists, creating "" reports FolderExistsError, not an invalid name |
| FolderLogic.NamesStayUnique | src/folder.py:16-92 | after a create and a rename, no two folders share a name |
| Folders.Create | src/folder.py:16-42 | `create` in place equals `FolderLogic.Create` |
| Folders.Rename | src/folder.py:66-92 | `rename` in place equals `FolderLogic.Rename` |
| Folders.Delete | src/folder.py:49-63 | `delete` in place equals `FolderLogic.Delete` |
| MailLogic.SenderAddress | src/email.py:152-154 | without '<' the whole header; with one, the text after the last '<' with '>' and whitespace stripped, which is shorter and holds no '<' |
| MailLogic.FeedTitle | src/email.py:157-162 | with both '<' and '>', the stripped display name before the first '<'. Otherwise the label after the first '@' (no '@' or '.'), and IndexError exactly when there is no '@' either |
| MailLogic.NamedAddress | src/email.py:152-162 | for `name<address>` the sender is the address and the title is the stripped name |
| MailLogic.TitledAddress | src/email.py:152-162 | for `Title <address>` the sender is the address and the title is `Title` |
| MailLogic.ListTestHeaders | src/email.py:152-162 | "Example List <list1@example.com>" and "Another List <list2@example.com>" give those addresses and titles |
| MailLogic.DomainLabel | src/email.py:160-161 | a bare `user@domain.rest` sender is titled `domain` |
| MailLogic.DomainTitle | src/email.py:160-161 | without both brackets the title is the text after the first '@' up to the next '@' or '.', or to the end |
| MailLogic.SecondAtCut | src/email.py:160-161 | a second '@' ends the label: "user@host@rest" is titled "host" |
| MailLogic.SpaceAfterCloser | src/email.py:152-154 | `name<address> ` gives `address>`: the space after '>' stops `strip(">")` |
| MailLogic.BareAddressTitle | src/email.py:157-162 | "news@example.com" is titled "example"; "news" raises IndexError |
| MailLogic.FirstPart | src/email.py:112-117 | the walk stops at the first inline part of the type; none means no part qualifies |
| MailLogic.SelectBody | src/email.py:110-126 | single part: its payload. Multipart: the html payload if non-empty, else the plain one. A non-empty result is the payload of an inline html or plain part |
| MailLogic.AttachmentsIgnored | src/email.py:115-122 | a part whose Content-Disposition mentions `attachment` never supplies the content: the message reads the same without it |
| MailLogic.EmailGuidInjective | src/email.py:189 | for senders without ':', the guid `sender:subject` determines sender and subject |
| MailLogic.SenderFeed | src/email.py:91-107 | the existing feed with the sender's url, changing nothing. Otherwise a missing root folder gives NoFolderError, or exactly one new row: the next feed id, a mailing list titled as given in the root folder. Articles never change |
| MailLogic.FileMessage | src/email.py:91-148 | old rows stay; at most one feed and one article are added; afterwards the sender has a feed and the message's hash is stored |
| MailLogic.FileMessageFiles | src/email.py:139-148 | a hash stored under any feed blocks the insert. Otherwise the new row is the message (subject, sender, content, guid `sender:subject`) under the sender's feed: the one found by url, else the new one |
| MailLogic.EmailArticle | src/email.py:182-195 | the row made of a message, unread and unstarred, with guid `sender:subject` (definition; see `MailLogic.FileMessageFiles`) |
| MailLogic.EmailGuid | src/email.py:189 | `from_address + ":" + subject` (definition; see `MailLogic.EmailGuidInjective`) |
| MailLogic.IsMailingList | src/email.py:177-179 | a `List-Unsubscribe` header is present, its name compared in any case (definition; see `MailLogic.ProcessEmail`) |
| MailLogic.ProcessEmail | src/email.py:77-149 | mail without a List-Unsubscribe header (name in any case) is ignored. A From header without '@' or '<...>' raises and changes nothing. Otherwise the message is filed as `FileMessage` says |
| MailLogic.ProcessEmailFiles | src/email.py:77-149 | a list message whose hash is stored changes no article; a new one becomes one article of its sender's feed, with the selected body as its content |
| MailLogic.ProcessKeepsConsistent | src/email.py:77-149 | processing keeps the tables consistent |
| MailLogic.DeliverOneMarks | src/email.py:58-66 | a message is flagged seen exactly when its fetch succeeded and processing went through; a failed fetch never fails the loop |
| MailLogic.DeliverOne | src/email.py:57-65 | one turn of the message loop (definition; see `MailLogic.DeliverOneMarks`) |
| MailLogic.FetchEmailsMakesKnown | src/email.py:41-67 | reading a mailbox keeps every row, and a read that went through leaves the account readable and each fetched message known |
| MailLogic.OneFeedPerSender | src/email.py:88-106 | afterwards exactly one feed has the sender's url; a sender that had one gets no new feed |
| MailLogic.KnownMessageChangesNothing | src/email.py:145-148 | a message whose sender has a feed and whose hash is stored changes nothing |
| MailLogic.ProcessIdempotent | src/email.py:77-149 | processing a message twice is processing it once |
| MailLogic.KnownStays | src/email.py:145-148 | a message stays known while rows are only added |
| MailLogic.ProcessMakesKnown | src/email.py:77-149 | processing keeps old rows, and a message that went through is known afterwards |
| MailLogic.FetchedUids | src/email.py:58-62 | at most one flagged uid per delivery |
| MailLogic.ProcessDeliveries | src/email.py:57-66 | the loop never touches folders or credentials, only adds feeds and articles, and flags at most one uid per message |
| MailLogic.DeliveriesMarkFetched | src/email.py:57-66 | only fetched messages are flagged, in order. All of them are flagged unless processing raised. The loop keeps the tables consistent |
| MailLogic.DeliveriesStopAtFailure | src/email.py:60-61 | an exception from `process_email` ends the loop: later messages are neither processed nor flagged |
| MailLogic.DeliveriesMakeKnown | src/email.py:57-66 | a loop that went through leaves every fetched message known |
| MailLogic.KnownDeliveriesChangeNothing | src/email.py:57-66 | known messages change nothing and are all flagged |
| MailLogic.MailboxReadTwice | src/email.py:57-66 | reading the same messages again changes nothing and flags the same uids |
| MailLogic.FetchEmails | src/email.py:41-67 | a protocol other than imap raises NotImplementedError; a failed login raises; a failed search returns; otherwise the loop runs |
| MailLogic.FetchEmailsMarks | src/email.py:41-67 | only fetched messages are flagged, all of them when nothing failed, and the tables stay consistent |
| MailLogic.FetchAll | src/email.py:31-38 | no accounts: nothing happens. Otherwise folders and credentials stay and old rows stay |
| MailLogic.FetchAllStopsAtFailure | src/email.py:37-38 | an exception from one mailbox ends the sweep |
| MailLogic.FetchAllKeeps | src/email.py:31-38 | the sweep keeps the tables consistent and every old feed and article row unchanged |
| MailLogic.AllKnownStays | src/email.py:145-148 | known messages stay known while rows are only added |
| MailLogic.FetchAllMakesKnown | src/email.py:31-67 | a sweep that went through leaves every account readable and all its messages known |
| MailLogic.KnownAccountsChangeNothing | src/email.py:31-67 | accounts whose messages are all known are read without changing anything |
| MailLogic.MailboxesReadTwice | src/email.py:31-67 | after a sweep that went through, a second sweep whose servers give the same answers goes through and changes nothing |
| MailLogic.AddCredentials | src/email.py:16-28 | the credential is appended iff a test login succeeds; otherwise EmailConnectionError and nothing changes |
| Mail.FindPart | src/email.py:112-117 | the walk with `break` finds `MailLogic.FirstPart` |
| Mail.ExtractContent | src/email.py:110-126 | the content chosen equals `MailLogic.SelectBody` |
| Mail.ProcessEmail | src/email.py:77-149 | `process_email` in place equals `MailLogic.ProcessEmail` |
| Mail.FileMessage | src/email.py:88-148 | the session block in place equals `MailLogic.FileMessage` |
| Mail.FindSenderFeed | src/email.py:88-106 | the feed lookup, or the new mailing-list feed, in place equals `MailLogic.SenderFeed` |
| Mail.ProcessMessages | src/email.py:57-66 | the message loop in place equals `MailLogic.ProcessDeliveries` |
| Mail.Deliver | src/email.py:58-66 | one fetched message in place: processed and flagged seen exactly as `MailLogic.DeliverOne` says |
| Mail.FetchEmails | src/email.py:41-67 | `fetch_emails` in place equals `MailLogic.FetchEmails` |
| Mail.FetchAll | src/email.py:31-38 | `fetch_emails_from_all_mailboxes` in place equals `MailLogic.FetchAll` over the stored accounts |
| Mail.AddCredentials | src/email.py:16-28 | `add_credentials` in place equals `MailLogic.AddCredentials` |
| SweepLogic.RefreshAll | src/feed.py:292-293 | no feed is added or removed, folders and credentials stay, and a feed changes only in its error and schedule fields |
| SweepLogic.RefreshTouchesOne | src/feed.py:181-233 | `update(feed_id)` changes only that feed's row: rescheduled within a day and a half hour after a parse, its error counted and recorded after a failure |
| SweepLogic.RefreshAllOutcome | src/feed.py:292-293 | unlisted feeds are untouched; a listed feed that parses is rescheduled within 24.5 hours; one that does not has its error counted and recorded |
| SweepLogic.UpdateAll | src/feed.py:276-296 | folders and credentials stay; with no accounts the sweep finishes |
| SweepLogic.RefreshAllKeepsConsistent | src/feed.py:292-293 | the refresh loop keeps the tables consistent |
| SweepLogic.UpdateAllKeepsConsistent | src/feed.py:276-296 | `update_all` keeps the tables consistent |
| SweepLogic.SweepSkipsFeedsNotDue | src/feed.py:281-293 | a feed that is not due, and every mailing list, leaves the sweep unchanged |
| SweepLogic.SweepRefreshesDueFeeds | src/feed.py:276-296 | a due feed whose document parses is rescheduled within 24.5 hours; one that does not has its error count raised |
| SweepLogic.SweepKeepsRefreshedRows | src/feed.py:292-295 | the mail half of the sweep leaves the feed rows the refreshes produced |
| Sweep.UpdateAll | src/feed.py:276-296 | `update_all` in place equals `SweepLogic.UpdateAll` |
| Sweep.RefreshListed | src/feed.py:292-293 | the loop over the due feeds in place equals `SweepLogic.RefreshAll` |
| Ordering.Ascending | src/article.py:124 | `ORDER BY id ASC`: exactly the members in range, strictly increasing |
| Ordering.Descending | src/article.py:124 | `ORDER BY id DESC`: exactly the members in range, strictly decreasing |
| Ordering.First | src/article.py:96-100 | `.first()`: the smallest member in range, none exactly when there is none |
| Store.Database.constructor | src/database.py:36-96 | an empty, consistent database whose ids start at 1 |

## Left out

- I/O and collaborators are inputs, not modelled:
  - HTTP, DNS resolution and `ipaddress` parsing;
  - feedparser and its date conversion (`mktime`);
  - trafilatura;
  - the OpenAI client and its payloads;
  - imaplib and the MIME parser;
  - subject decoding (`_extract_email_subject`) and charset decoding of payloads;
  - the clock;
  - `random.randint`;
  - the guid digest.
- `_connect_to_mailbox` is not part of this model. The server's answer to login, select and search is the `Mailbox` value. A failed login during a sweep is the `MailboxLogin` error.
- `folder.get_root_folder_id` is not part of this model: the root folder id is an input to `process_email`.
- `article.create` is not part of this model. Its row shape is as used here: unread, unstarred, `last_modified` set to the time of the call, `guid_hash` the digest of the guid.
- A missing From or Subject header (Python's `None`) is not modelled: the header is a string.
- Mail whose `from_address` contains ':' can collide on guid: `MailLogic.EmailGuidInjective` assumes it does not.
- Header names compare case-insensitively in ASCII only: Python's Unicode lower-casing is not modelled.
- Whitespace is Python's `str.isspace` set, used for `strip` and `\s`. Unicode case folding in `normalize_text` is ASCII-only too.
- The float division in `_calculate_next_update_time` is modelled in exact arithmetic. For the counts that occur this agrees with Python's `round(86400 / (count / 7) / 4)`, but binary rounding of the intermediate float is not modelled.
- SQLite's id reuse after deleting the row with the highest id is not modelled: ids are never reused. `.all()` without `ORDER BY` is modelled in id order.
- Concurrency between sessions is not modelled, nor the commits in the middle of `update`. Each operation sees one snapshot and one clock reading.
- The API layer, the CLI, Alembic migrations, `feed.get_all` and `crud.py` are not part of the core.
- Content.SummarizeArticle: decoded JSON that is not an object, or a `summary` that is not a string, makes the source raise AttributeError. The model's reply type has no such values.
- MailLogic.AddCredentials: every failed test login becomes EmailConnectionError. email.py converts only `imaplib.IMAP4.error` and lets any other exception from the connection propagate as itself; the inbox answer models only whether the login succeeded. Either way nothing is stored.
- Testing mode is an input. feed.py detects it from the loaded modules, content.py reads it from the options.
- MailLogic.FileMessage: rows at or above the next id are not stated to stay. In a consistent store there are none.
- MailLogic.ProcessEmail: the frame facts are stated for rows below the next id, for the same reason.
