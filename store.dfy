/** The aggregator's tables held in memory: folders, feeds, articles and the
    stored mailbox credentials, keyed by id, together with the next id each
    table hands out. */
module Store {
  import opened Records

  /** A snapshot of every table. */
  datatype State = State(
    folders: map<int, Folder>,
    feeds: map<int, Feed>,
    articles: map<int, Article>,
    credentials: seq<Credential>,
    nextFolderId: int,
    nextFeedId: int,
    nextArticleId: int)

  /** What an operation returns together with the tables it leaves behind. */
  datatype Step<T> = Step(out: T, after: State)

  /** Some folder carries this name. */
  predicate NameTaken(folders: map<int, Folder>, name: string) {
    exists k :: k in folders && folders[k].name == name
  }

  /** Some feed has this url. */
  predicate UrlTaken(feeds: map<int, Feed>, url: string) {
    exists k :: k in feeds && feeds[k].url == url
  }

  /** Some article, of any feed, carries this guid hash. */
  predicate HashInStore(articles: map<int, Article>, guidHash: string) {
    exists k :: k in articles && articles[k].guidHash == guidHash
  }

  /** Rows are stored under their own id, and every id lies below the next one handed out. */
  ghost predicate FoldersValid(folders: map<int, Folder>, nextId: int) {
    && 0 < nextId
    && (forall k :: k in folders ==> folders[k].id == k && 0 < k < nextId)
    // `Folder.name` is a unique column
    && (forall j, k :: j in folders && k in folders && folders[j].name == folders[k].name ==> j == k)
  }

  ghost predicate FeedsValid(feeds: map<int, Feed>, folders: map<int, Folder>, nextId: int) {
    && 0 < nextId
    && (forall k :: k in feeds ==> feeds[k].id == k && 0 < k < nextId)
    && (forall k :: k in feeds ==> feeds[k].updateErrorCount >= 0)
    // `Feed.url` is a unique column
    && (forall j, k :: j in feeds && k in feeds && feeds[j].url == feeds[k].url ==> j == k)
    // `Feed.folder_id` is a foreign key that is never null
    && (forall k :: k in feeds ==> feeds[k].folderId in folders)
  }

  /** Every article's hash digests its guid, and no two articles share a hash:
      every insertion path looks the hash up first. */
  ghost predicate ArticlesValid(articles: map<int, Article>, nextId: int, hash: Hasher) {
    && 0 < nextId
    && (forall k :: k in articles ==> articles[k].id == k && 0 < k < nextId)
    && (forall k :: k in articles ==> articles[k].guidHash == hash(articles[k].guid))
    && UniqueHashes(articles)
  }

  ghost predicate UniqueHashes(articles: map<int, Article>) {
    forall j, k :: j in articles && k in articles && articles[j].guidHash == articles[k].guidHash ==> j == k
  }

  ghost predicate Consistent(s: State, hash: Hasher) {
    && FoldersValid(s.folders, s.nextFolderId)
    && FeedsValid(s.feeds, s.folders, s.nextFeedId)
    && ArticlesValid(s.articles, s.nextArticleId, hash)
  }

  /** The database the operations work on: each table is a field that they update in place. */
  class Database {
    var folders: map<int, Folder>
    var feeds: map<int, Feed>
    var articles: map<int, Article>
    var credentials: seq<Credential>
    var nextFolderId: int
    var nextFeedId: int
    var nextArticleId: int
    const hash: Hasher

    function Snapshot(): State
      reads this
    {
      State(folders, feeds, articles, credentials, nextFolderId, nextFeedId, nextArticleId)
    }

    ghost predicate Valid()
      reads this
    {
      Consistent(Snapshot(), hash)
    }

    /** An empty database; ids start at 1 as SQLite's do. */
    constructor (hash: Hasher)
      ensures Valid() && this.hash == hash
      ensures Snapshot() == State(map[], map[], map[], [], 1, 1, 1)
    {
      folders, feeds, articles, credentials := map[], map[], map[], [];
      nextFolderId, nextFeedId, nextArticleId := 1, 1, 1;
      this.hash := hash;
    }
  }
}
