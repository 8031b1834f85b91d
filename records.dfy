/** The records the aggregator stores and the outcomes its operations report.
    Field shapes follow the Article, Feed, Folder and EmailCredential tables. */
module Records {

  datatype Option<T> = None | Some(value: T) {
    function GetOr(default: T): T { if Some? then value else default }
  }

  /** Python truthiness of an optional string: present and not empty. */
  predicate Truthy(s: Option<string>) { s.Some? && s.value != "" }

  /** Why the SSRF guard refused a URL, one case per check, in the order they run. */
  datatype Rejection =
    | SchemeNotAllowed(scheme: string)
    | NoHostname
    | LocalhostName
    | LoopbackAddress(address: string)
    | PrivateAddress(address: string)
    | LinkLocalAddress(address: string)
    | UnspecifiedAddress(address: string)
    | MulticastAddress(address: string)
    | CloudMetadata

  /** The exceptions of the core. */
  datatype Error =
    | NoFeed                          // NoFeedError
    | FeedExists                      // FeedExistsError
    | NoFolder                        // NoFolderError
    | NoArticle                       // NoArticleError
    | FolderExists                    // FolderExistsError
    | InvalidFolderName               // InvalidFolderNameError
    | SsrfBlocked(reason: Rejection)  // SSRFProtectionError
    | FeedParsing(detail: string)     // FeedParsingError (feedparser's bozo flag)
    | MissingFeedTitle                // AttributeError: the parsed feed has no title
    | MissingGuid                     // ValueError: entry has no id, link or title
    | EmptyContentList                // IndexError: entry's content list is empty
    | MissingUpdatedKey               // KeyError: entry has no updated_parsed key
    | MissingEntryId                  // KeyError: entry has no id (legacy cleanup)
    | MissingAtSign                   // IndexError: From header has neither <...> nor '@'
    | EmailConnection                 // EmailConnectionError
    | UnsupportedProtocol(protocol: string)  // NotImplementedError
    | MailboxLogin                    // imaplib error while connecting in a sweep

  datatype Result<T> = Ok(value: T) | Err(error: Error)

  /** What an operation that returns nothing did: finished, or raised. */
  datatype Outcome = Done | Failed(error: Error)

  /** The guid digest; the store is parameterised by it and nothing assumes more about it. */
  type Hasher = string -> string

  datatype Article = Article(
    id: int,
    feedId: int,
    title: Option<string>,
    content: Option<string>,
    author: Option<string>,
    url: Option<string>,
    guid: string,
    guidHash: string,
    enclosureLink: Option<string>,
    enclosureMime: Option<string>,
    pubDate: Option<int>,
    updatedDate: Option<int>,
    lastModified: int,
    unread: bool,
    starred: bool)

  datatype Feed = Feed(
    id: int,
    url: string,
    title: Option<string>,
    faviconLink: Option<string>,
    link: Option<string>,
    added: int,
    nextUpdateTime: Option<int>,
    folderId: int,
    ordering: int,
    pinned: bool,
    updateErrorCount: int,
    lastUpdateError: Option<Error>,
    isMailingList: bool)

  datatype Folder = Folder(id: int, name: string, isRoot: bool)

  datatype Credential = Credential(protocol: string, server: string, port: int, username: string, password: string)
}
