/** email.py: newsletters arrive by IMAP and become articles of one feed per sender.
    The MIME parser, header decoding, charset decoding and the IMAP client are
    collaborators: a message is given as its From header, its decoded subject, its
    header names and its parts, and a mailbox as what the server answers. */
module MailLogic {
  import opened Records
  import opened Text
  import opened Store
  import FeedLogic

  // ---------------------------------------------------------------- headers

  const ListHeader := "List-Unsubscribe"

  predicate IsCloser(c: char) { c == '>' }

  /** `_extract_sender_address`: with a '<', the text after the last one, stripped of '>'
      at both ends and then of whitespace; without, the whole header. */
  function SenderAddress(from: string): (r: string)
    ensures '<' !in from ==> r == from
    ensures '<' in from ==> '<' !in r && Stripped(r) && |r| < |from|
  {
    if '<' in from then
      var tail := AfterLast(from, '<');
      AddressInTail(tail);
      Strip(StripWith(tail, IsCloser))
    else from
  }

  /** The address cut out of the text after the last '<' holds no '<' and is no longer than that text. */
  lemma AddressInTail(tail: string)
    requires '<' !in tail
    ensures var r := Strip(StripWith(tail, IsCloser)); '<' !in r && |r| <= |tail|
  {
    var unclosed := StripWith(tail, IsCloser);
    InfixLacks(unclosed, tail, |tail| - |TrimLeft(tail, IsCloser)|, '<');
    InfixLacks(Strip(unclosed), unclosed, |unclosed| - |TrimLeft(unclosed, IsSpace)|, '<');
  }

  /** A part of a text without `c` has no `c` either. */
  lemma InfixLacks(r: string, s: string, i: int, c: char)
    requires InfixAt(r, s, i) && c !in s
    ensures c !in r && |r| <= |s|
  {
    assert forall k :: 0 <= k < |r| ==> r[k] == s[i + k];
  }

  /** `_extract_feed_title`: the display name when the header has both '<' and '>', else the
      domain label after the '@'; IndexError when there is no '@' either. */
  function FeedTitle(from: string): (r: Result<string>)
    ensures r.Err? <==> !('<' in from && '>' in from) && '@' !in from
    ensures r.Err? ==> r.error == MissingAtSign
    ensures r.Ok? && '<' in from && '>' in from ==> '<' !in r.value && Stripped(r.value)
    ensures r.Ok? && !('<' in from && '>' in from) ==> '@' !in r.value && '.' !in r.value
  {
    if '<' in from && '>' in from then
      var name := BeforeFirst(from, '<');
      InfixLacks(Strip(name), name, |name| - |TrimLeft(name, IsSpace)|, '<');
      Ok(Strip(name))
    else match IndexOf(from, '@')
      case None => Err(MissingAtSign)
      case Some(i) => Ok(BeforeFirst(BeforeFirst(from[i + 1..], '@'), '.'))
  }

  /** `split("@")[1].split(".")[0]`: without both brackets the title is the text after the
      first '@' up to the next '@' or '.', or to the end. */
  lemma DomainTitle(from: string)
    requires !('<' in from && '>' in from) && '@' in from
    ensures var after := from[IndexOf(from, '@').value + 1..];
      && FeedTitle(from).Ok? && FeedTitle(from).value <= after
      && (|FeedTitle(from).value| < |after| ==> after[|FeedTitle(from).value|] == '@' || after[|FeedTitle(from).value|] == '.')
  {
    LabelUpToCut(from[IndexOf(from, '@').value + 1..]);
  }

  /** The label is a prefix of the text after the '@' that ends at its next '@' or '.', or at its end. */
  lemma LabelUpToCut(after: string)
    ensures var v := BeforeFirst(BeforeFirst(after, '@'), '.');
      && v <= after
      && (|v| < |after| ==> after[|v|] == '@' || after[|v|] == '.')
  {
    var u := BeforeFirst(after, '@');
    var v := BeforeFirst(u, '.');
    assert u[..|v|] == v && after[..|u|] == u;
    if |v| < |u| {
      assert u[|v|] == '.' && after[|v|] == u[|v|];
    }
  }

  /** A second '@' ends the label: "user@host@rest" is titled "host" when the host has no '.'. */
  lemma SecondAtCut(user: string, host: string, rest: string)
    requires '@' !in user && '@' !in host && '.' !in host
    requires '<' !in user && '<' !in host && '<' !in rest
    ensures FeedTitle(user + "@" + host + "@" + rest) == Ok(host)
  {
    var after := host + "@" + rest;
    var from := user + "@" + after;
    assert user + "@" + host + "@" + rest == from;
    assert '<' !in after && '<' !in from;
    assert from[..|user|] == user;
    IndexOfAt(from, '@', |user|);
    assert from[|user| + 1..] == after;
    assert after[..|host|] == host;
    IndexOfAt(after, '@', |host|);
  }

  /** The address ends in '>' when a space follows the closing bracket: `strip(">")` meets the
      space first, and `strip()` then removes only the space. */
  lemma SpaceAfterCloser(name: string, address: string)
    requires '<' !in name && '<' !in address && '>' !in address && Plain(address)
    ensures SenderAddress(name + "<" + address + "> ") == address + ">"
  {
    var tail := address + "> ";
    var from := name + (['<'] + tail);
    assert name + "<" + address + "> " == from;
    assert '<' !in tail;
    AfterNameAt(name, tail);
    assert '<' in from by { assert from[|name|] == '<'; }
    assert SenderAddress(from) == Strip(StripWith(tail, IsCloser));
    SpacedAngleTail(address);
  }

  /** "address> " keeps its '>' through both strips. */
  lemma SpacedAngleTail(address: string)
    requires '>' !in address && Plain(address)
    ensures Strip(StripWith(address + "> ", IsCloser)) == address + ">"
  {
    var closed := address + ">";
    assert address + "> " == closed + [' '];
    assert closed[0] == address[0] && closed[|closed| - 1] == '>';
    TrailingSpaceOnly(closed);
  }

  /** A text that starts with neither '>' nor whitespace and ends in '>' loses only a trailing space. */
  lemma TrailingSpaceOnly(closed: string)
    requires closed != [] && !IsCloser(closed[0]) && !IsSpace(closed[0]) && closed[|closed| - 1] == '>'
    ensures Strip(StripWith(closed + [' '], IsCloser)) == closed
  {
    var tail := closed + [' '];
    assert tail[0] == closed[0] && tail[|tail| - 1] == ' ';
    TrimLeftStops(tail, IsCloser);
    TrimRightStops(tail, IsCloser);
    assert StripWith(tail, IsCloser) == tail;
    TrimLeftStops(tail, IsSpace);
    TrimRightDrops(closed, ' ', IsSpace);
    TrimRightStops(closed, IsSpace);
  }

  /** `_is_mailing_list`: header names compare case-insensitively. */
  predicate IsMailingList(headerNames: seq<string>) {
    exists i | 0 <= i < |headerNames| :: Lower(headerNames[i]) == Lower(ListHeader)
  }

  /** A stripped address after a display name: the common "Name <user@host>" header. */
  lemma NamedAddress(name: string, address: string)
    requires '<' !in name && '<' !in address && '>' !in address && Plain(address)
    ensures SenderAddress(name + "<" + address + ">") == address
    ensures FeedTitle(name + "<" + address + ">") == Ok(Strip(name))
  {
    var tail := address + ">";
    var from := name + (['<'] + tail);
    assert name + "<" + address + ">" == from;
    assert '<' !in tail;
    AfterNameAt(name, tail);
    assert '<' in from by { assert from[|name|] == '<'; }
    assert '>' in from by { assert from[|from| - 1] == '>'; }
    assert SenderAddress(from) == Strip(StripWith(tail, IsCloser));
    AngleTail(address);
  }

  /** In `name + "<" + tail` with no '<' in either part, the '<' is both the first and the last. */
  lemma AfterNameAt(name: string, tail: string)
    requires '<' !in name && '<' !in tail
    ensures AfterLast(name + (['<'] + tail), '<') == tail
    ensures BeforeFirst(name + (['<'] + tail), '<') == name
  {
    var from := name + (['<'] + tail);
    assert from[..|name|] == name;
    assert from[|name| + 1..] == tail;
    LastIndexOfAt(from, '<', |name|);
    IndexOfAt(from, '<', |name|);
  }

  /** Stripping '>' and then whitespace from "address>" gives the address back. */
  lemma AngleTail(address: string)
    requires '>' !in address && Plain(address)
    ensures Strip(StripWith(address + ">", IsCloser)) == address
  {
    var tail := address + ">";
    assert tail[0] == address[0] && tail[..|tail| - 1] == address;
    TrimLeftStops(tail, IsCloser);
    TrimRightDrops(address, '>', IsCloser);
    TrimRightStops(address, IsCloser);
    TrimLeftStops(address, IsSpace);
    TrimRightStops(address, IsSpace);
  }

  /** The two senders of the mailing-list test, "Example List <list1@example.com>" and
      "Another List <list2@example.com>": the address is the feed's url, the name its title. */
  lemma ListTestHeaders(from: string, title: string, address: string)
    requires || (title == "Example List" && address == "list1@example.com")
             || (title == "Another List" && address == "list2@example.com")
    requires from == title + " <" + address + ">"
    ensures SenderAddress(from) == address
    ensures FeedTitle(from) == Ok(title)
  {
    PlainTitle(title);
    PlainAddress(address);
    TitledAddress(title, address);
  }

  /** The display names of the list fixtures need no trimming and hold no '<'. */
  lemma PlainTitle(title: string)
    requires title == "Example List" || title == "Another List"
    ensures Plain(title) && '<' !in title
  {
  }

  /** The addresses of the list fixtures need no trimming and hold no brackets. */
  lemma PlainAddress(address: string)
    requires address == "list1@example.com" || address == "list2@example.com"
    ensures Plain(address) && '<' !in address && '>' !in address
  {
  }

  /** Non-empty, with no whitespace at either end. */
  predicate Plain(t: string) {
    t != [] && !IsSpace(t[0]) && !IsSpace(t[|t| - 1])
  }

  /** "Title <address>": the address is the sender, the title the feed title. */
  lemma TitledAddress(title: string, address: string)
    requires Plain(title) && '<' !in title
    requires Plain(address) && '<' !in address && '>' !in address
    ensures SenderAddress(title + " <" + address + ">") == address
    ensures FeedTitle(title + " <" + address + ">") == Ok(title)
  {
    var name := title + " ";
    assert '<' !in name;
    assert title + " <" + address + ">" == name + "<" + address + ">";
    NamedAddress(name, address);
    StripSpaceAfter(title);
  }

  lemma StripSpaceAfter(t: string)
    requires Plain(t)
    ensures Strip(t + " ") == t
  {
    var s := t + " ";
    assert TrimLeft(s, IsSpace) == s;
    assert s[..|s| - 1] == t;
    assert TrimRight(s, IsSpace) == TrimRight(t, IsSpace) == t;
  }

  /** Without angle brackets the title is the domain label after the '@': "user@domain.rest". */
  lemma DomainLabel(user: string, domain: string, rest: string)
    requires '@' !in user && '@' !in domain && '.' !in domain
    requires '<' !in user && '<' !in domain && '<' !in rest
    ensures FeedTitle(user + "@" + domain + "." + rest) == Ok(domain)
  {
    var after := domain + "." + rest;
    var from := user + "@" + after;
    assert user + "@" + domain + "." + rest == from;
    assert '<' !in after && '<' !in from;
    assert from[..|user|] == user;
    IndexOfAt(from, '@', |user|);
    assert from[|user| + 1..] == after;
    LabelBeforeDot(domain, rest);
  }

  /** The label before the first '.' of "domain.rest", when the domain has neither '@' nor '.'. */
  lemma LabelBeforeDot(domain: string, rest: string)
    requires '@' !in domain && '.' !in domain
    ensures BeforeFirst(BeforeFirst(domain + "." + rest, '@'), '.') == domain
  {
    var after := domain + "." + rest;
    var upTo := BeforeFirst(after, '@');
    assert after[..|domain|] == domain;
    assert after[|domain|] == '.';
    assert domain <= upTo by {
      if '@' in after {
        assert after[|upTo|] == '@';
        assert |upTo| > |domain|;
      }
    }
    assert upTo[..|domain|] == domain;
    IndexOfAt(upTo, '.', |domain|);
  }

  /** The title of a bare sender such as "news@example.com"; "news" has no '@' and raises. */
  lemma BareAddressTitle(from: string, bare: string)
    requires from == "news@example.com" && bare == "news"
    ensures FeedTitle(from) == Ok("example")
    ensures FeedTitle(bare) == Err(MissingAtSign)
  {
    FixtureLabel(from, "news", "example", "com");
    FixtureWithoutAt(bare);
  }

  /** The fixture user name has no '@' and no brackets. */
  lemma FixtureWithoutAt(bare: string)
    requires bare == "news"
    ensures FeedTitle(bare) == Err(MissingAtSign)
  {
    assert '@' !in bare && '>' !in bare;
  }

  /** The fixture address splits into its user, domain label and rest. */
  lemma FixtureLabel(from: string, user: string, domain: string, rest: string)
    requires from == "news@example.com" && user == "news" && domain == "example" && rest == "com"
    ensures FeedTitle(from) == Ok(domain)
  {
    assert from == user + "@" + domain + "." + rest;
    assert '@' !in user && '@' !in domain && '.' !in domain;
    assert '<' !in user && '<' !in domain && '<' !in rest;
    DomainLabel(user, domain, rest);
  }

  // ---------------------------------------------------------------- body

  /** One node of `msg.walk()`: its content type, its Content-Disposition header if any, and
      its decoded payload. */
  datatype Part = Part(contentType: string, disposition: Option<string>, payload: string)

  /** A single-part message carries its payload; a multipart one lists the nodes of its walk. */
  datatype Body = SinglePart(payload: string) | Multipart(parts: seq<Part>)

  /** `"attachment" not in str(part.get("Content-Disposition"))`: a missing header reads "None". */
  predicate Inline(p: Part) {
    !Contains(p.disposition.GetOr("None"), "attachment")
  }

  predicate Candidate(p: Part, contentType: string) {
    p.contentType == contentType && Inline(p)
  }

  /** The index the walk with `break` stops at: the first inline part of the type. */
  function FirstPart(parts: seq<Part>, contentType: string): (r: Option<nat>)
    ensures r.Some? ==> r.value < |parts| && Candidate(parts[r.value], contentType)
    ensures r.Some? ==> forall j :: 0 <= j < r.value ==> !Candidate(parts[j], contentType)
    ensures r.None? <==> forall j :: 0 <= j < |parts| ==> !Candidate(parts[j], contentType)
  {
    if parts == [] then None
    else if Candidate(parts[0], contentType) then Some(0)
    else match FirstPart(parts[1..], contentType)
      case None => None
      case Some(j) => Some(j + 1)
  }

  function PayloadOf(parts: seq<Part>, contentType: string): string {
    match FirstPart(parts, contentType)
    case None => ""
    case Some(j) => parts[j].payload
  }

  /** The content `process_email` stores: html first, plain text when html is missing or empty. */
  function SelectBody(b: Body): (r: string)
    ensures b.SinglePart? ==> r == b.payload
    ensures b.Multipart? && PayloadOf(b.parts, "text/html") != "" ==> r == PayloadOf(b.parts, "text/html")
    ensures b.Multipart? && PayloadOf(b.parts, "text/html") == "" ==> r == PayloadOf(b.parts, "text/plain")
    ensures b.Multipart? && r != "" ==>
      exists j :: 0 <= j < |b.parts| && Inline(b.parts[j]) && b.parts[j].payload == r
                  && b.parts[j].contentType in {"text/html", "text/plain"}
  {
    match b
    case SinglePart(p) => p
    case Multipart(parts) =>
      var html := PayloadOf(parts, "text/html");
      if html != "" then html else PayloadOf(parts, "text/plain")
  }

  /** A part marked as an attachment never supplies the content, whatever its type. */
  lemma AttachmentsIgnored(parts: seq<Part>, attachment: Part)
    requires !Inline(attachment)
    ensures SelectBody(Multipart([attachment] + parts)) == SelectBody(Multipart(parts))
  {
    SkipPart(attachment, parts, "text/html");
    SkipPart(attachment, parts, "text/plain");
  }

  /** A part that is not a candidate leaves the walk's choice to the parts after it. */
  lemma SkipPart(p: Part, parts: seq<Part>, contentType: string)
    requires !Candidate(p, contentType)
    ensures PayloadOf([p] + parts, contentType) == PayloadOf(parts, contentType)
  {
    assert ([p] + parts)[1..] == parts;
  }

  // ---------------------------------------------------------------- one message

  /** A message as the parser hands it over. */
  datatype Email = Email(from: string, subject: string, headerNames: seq<string>, body: Body)

  /** `_create_article_from_email`'s guid. */
  function EmailGuid(sender: string, subject: string): string {
    sender + ":" + subject
  }

  /** The guid tells sender and subject apart when the sender holds no ':'. */
  lemma EmailGuidInjective(sender1: string, subject1: string, sender2: string, subject2: string)
    requires ':' !in sender1 && ':' !in sender2
    requires EmailGuid(sender1, subject1) == EmailGuid(sender2, subject2)
    ensures sender1 == sender2 && subject1 == subject2
  {
    var g := EmailGuid(sender1, subject1);
    assert IndexOf(g, ':') == Some(|sender1|) by { IndexAfterPrefix(sender1, subject1); }
    assert IndexOf(g, ':') == Some(|sender2|) by { IndexAfterPrefix(sender2, subject2); }
    assert sender1 == g[..|sender1|];
    assert subject1 == g[|sender1| + 1..];
  }

  lemma IndexAfterPrefix(sender: string, subject: string)
    requires ':' !in sender
    ensures IndexOf(sender + ":" + subject, ':') == Some(|sender|)
  {
    var g := sender + ":" + subject;
    assert g[..|sender|] == sender;
    IndexOfAt(g, ':', |sender|);
  }

  /** The row `article.create` makes of a message: unread, unstarred, stamped with the clock. */
  function EmailArticle(feedId: int, sender: string, subject: string, content: string, now: int, hash: Hasher): Article {
    var guid := EmailGuid(sender, subject);
    Article(0, feedId, Some(subject), Some(content), Some(sender), None, guid, hash(guid), None, None, None, None, now, true, false)
  }

  /** The sender's feed: found by url, or created as a mailing list in the root folder. */
  function SenderFeed(s: State, sender: string, title: string, rootFolderId: int, now: int): (r: Step<Result<int>>)
    ensures FeedLogic.FindByUrl(s, sender).Some? ==> r == Step(Ok(FeedLogic.FindByUrl(s, sender).value), s)
    ensures r.out.Ok? ==> r.out.value in r.after.feeds && r.after.feeds[r.out.value].url == sender
    ensures r.out.Err? ==> r.after == s && r.out.error == NoFolder
    ensures r.after.articles == s.articles && r.after.nextArticleId == s.nextArticleId
    // an unknown sender gets a new mailing-list feed titled `title` in the root folder
    ensures FeedLogic.FindByUrl(s, sender).None? && rootFolderId !in s.folders ==> r == Step(Err(NoFolder), s)
    ensures FeedLogic.FindByUrl(s, sender).None? && rootFolderId in s.folders ==>
      var id := s.nextFeedId;
      && r.out == Ok(id)
      && r.after == s.(feeds := s.feeds[id := Feed(id, sender, Some(title), None, None, now, None, rootFolderId, 0, false, 0, None, true)],
                       nextFeedId := id + 1)
  {
    match FeedLogic.FindByUrl(s, sender)
    case Some(id) => Step(Ok(id), s)
    case None => FeedLogic.AddMailingList(s, sender, title, rootFolderId, now)
  }

  /** The guid hash a list message is filed under. */
  function MailHash(m: Email, hash: Hasher): string {
    hash(EmailGuid(SenderAddress(m.from), m.subject))
  }

  /** The session block of `process_email`: the sender's feed, then the article unless its
      guid hash is stored already. Rows already there stay as they are; at most one feed and
      one article are added. */
  function FileMessage(s: State, sender: string, title: string, subject: string, content: string,
                       rootFolderId: int, now: int, hash: Hasher): (r: Step<Outcome>)
    ensures r.out.Failed? ==> r == Step(Failed(NoFolder), s)
    ensures r.after.folders == s.folders && r.after.credentials == s.credentials && r.after.nextFolderId == s.nextFolderId
    // rows below the next id (in a consistent store, every row) stay as they are
    ensures forall k :: k in s.feeds && k < s.nextFeedId ==> k in r.after.feeds && r.after.feeds[k] == s.feeds[k]
    ensures r.after.feeds.Keys <= s.feeds.Keys + {s.nextFeedId}
    ensures forall k :: k in s.articles && k < s.nextArticleId ==> k in r.after.articles && r.after.articles[k] == s.articles[k]
    ensures r.after.articles.Keys <= s.articles.Keys + {s.nextArticleId}
    ensures s.nextFeedId <= r.after.nextFeedId <= s.nextFeedId + 1
    ensures s.nextArticleId <= r.after.nextArticleId <= s.nextArticleId + 1
    // a message that went through is filed under its sender's feed, and its hash is stored
    ensures r.out.Done? ==> UrlTaken(r.after.feeds, sender) && HashInStore(r.after.articles, hash(EmailGuid(sender, subject)))
  {
    var found := SenderFeed(s, sender, title, rootFolderId, now);
    match found.out
    case Err(e) => Step(Failed(e), s)
    case Ok(feedId) =>
      var t := found.after;
      assert UrlTaken(t.feeds, sender) by { assert t.feeds[feedId].url == sender; }
      var a := EmailArticle(feedId, sender, subject, content, now, hash);
      if HashInStore(t.articles, a.guidHash) then Step(Done, t)
      else
        var id := t.nextArticleId;
        var arts := t.articles[id := a.(id := id)];
        assert arts[id].guidHash == a.guidHash;
        Step(Done, t.(articles := arts, nextArticleId := id + 1))
  }

  /** `process_email`: mail that is not from a list is ignored; otherwise the title is taken
      from the From header (which may raise) and the message is filed. */
  function ProcessEmail(s: State, m: Email, rootFolderId: int, now: int, hash: Hasher): (r: Step<Outcome>)
    ensures !IsMailingList(m.headerNames) ==> r == Step(Done, s)
    ensures IsMailingList(m.headerNames) && FeedTitle(m.from).Err? ==> r == Step(Failed(FeedTitle(m.from).error), s)
    ensures r.out.Failed? ==> r.after == s
    ensures r.after.folders == s.folders && r.after.credentials == s.credentials && r.after.nextFolderId == s.nextFolderId
    // rows below the next id (in a consistent store, every row) stay as they are
    ensures forall k :: k in s.feeds && k < s.nextFeedId ==> k in r.after.feeds && r.after.feeds[k] == s.feeds[k]
    ensures r.after.feeds.Keys <= s.feeds.Keys + {s.nextFeedId}
    ensures forall k :: k in s.articles && k < s.nextArticleId ==> k in r.after.articles && r.after.articles[k] == s.articles[k]
    ensures r.after.articles.Keys <= s.articles.Keys + {s.nextArticleId}
    ensures s.nextFeedId <= r.after.nextFeedId <= s.nextFeedId + 1
    ensures s.nextArticleId <= r.after.nextArticleId <= s.nextArticleId + 1
    ensures r.out.Done? && IsMailingList(m.headerNames) ==>
              UrlTaken(r.after.feeds, SenderAddress(m.from)) && HashInStore(r.after.articles, MailHash(m, hash))
  {
    if !IsMailingList(m.headerNames) then Step(Done, s)
    else match FeedTitle(m.from)
      case Err(e) => Step(Failed(e), s)
      case Ok(title) => FileMessage(s, SenderAddress(m.from), title, m.subject, SelectBody(m.body), rootFolderId, now, hash)
  }

  /** What `process_email` files: a hash stored under any feed blocks the insert; otherwise
      the new row is the message, under the sender's feed (the one found by url, else the
      new one). */
  lemma FileMessageFiles(s: State, sender: string, title: string, subject: string, content: string,
                         rootFolderId: int, now: int, hash: Hasher)
    ensures var r := FileMessage(s, sender, title, subject, content, rootFolderId, now, hash);
      && (HashInStore(s.articles, hash(EmailGuid(sender, subject))) ==>
            r.after.articles == s.articles && r.after.nextArticleId == s.nextArticleId)
      && (r.out.Done? && !HashInStore(s.articles, hash(EmailGuid(sender, subject))) ==>
            var id := s.nextArticleId;
            && id in r.after.articles && r.after.nextArticleId == id + 1
            && var f := r.after.articles[id].feedId;
            && r.after.articles[id] == EmailArticle(f, sender, subject, content, now, hash).(id := id)
            && f in r.after.feeds && r.after.feeds[f].url == sender
            && f == (if FeedLogic.FindByUrl(s, sender).Some? then FeedLogic.FindByUrl(s, sender).value else s.nextFeedId))
  {
    var found := SenderFeed(s, sender, title, rootFolderId, now);
    if found.out.Ok? {
      var t := found.after;
      var a := EmailArticle(found.out.value, sender, subject, content, now, hash);
      assert t.articles == s.articles;
      if !HashInStore(t.articles, a.guidHash) {
        var id := t.nextArticleId;
        assert FileMessage(s, sender, title, subject, content, rootFolderId, now, hash).after.articles[id] == a.(id := id);
      }
    }
  }

  /** A list message whose hash is stored changes no article; a new one becomes one article of
      its sender's feed, with the selected body as its content. */
  lemma ProcessEmailFiles(s: State, m: Email, rootFolderId: int, now: int, hash: Hasher)
    ensures var r := ProcessEmail(s, m, rootFolderId, now, hash);
      && (HashInStore(s.articles, MailHash(m, hash)) ==> r.after.articles == s.articles && r.after.nextArticleId == s.nextArticleId)
      && (r.out.Done? && IsMailingList(m.headerNames) && !HashInStore(s.articles, MailHash(m, hash)) ==>
            var id := s.nextArticleId;
            && id in r.after.articles && r.after.nextArticleId == id + 1
            && var f := r.after.articles[id].feedId;
            && r.after.articles[id] == EmailArticle(f, SenderAddress(m.from), m.subject, SelectBody(m.body), now, hash).(id := id)
            && f in r.after.feeds && r.after.feeds[f].url == SenderAddress(m.from))
  {
    if IsMailingList(m.headerNames) && FeedTitle(m.from).Ok? {
      FileMessageFiles(s, SenderAddress(m.from), FeedTitle(m.from).value, m.subject, SelectBody(m.body), rootFolderId, now, hash);
    }
  }

  /** Processing keeps the tables consistent. */
  lemma ProcessKeepsConsistent(s: State, m: Email, rootFolderId: int, now: int, hash: Hasher)
    requires Consistent(s, hash)
    ensures Consistent(ProcessEmail(s, m, rootFolderId, now, hash).after, hash)
  {
    if IsMailingList(m.headerNames) && FeedTitle(m.from).Ok? {
      FileKeepsConsistent(s, SenderAddress(m.from), FeedTitle(m.from).value, m.subject, SelectBody(m.body), rootFolderId, now, hash);
    }
  }

  lemma FileKeepsConsistent(s: State, sender: string, title: string, subject: string, content: string,
                            rootFolderId: int, now: int, hash: Hasher)
    requires Consistent(s, hash)
    ensures Consistent(FileMessage(s, sender, title, subject, content, rootFolderId, now, hash).after, hash)
  {
    FeedLogic.AddMailingListKeepsConsistent(s, sender, title, rootFolderId, now, hash);
    var found := SenderFeed(s, sender, title, rootFolderId, now);
    if found.out.Ok? {
      var t := found.after;
      assert Consistent(t, hash);
      var a := EmailArticle(found.out.value, sender, subject, content, now, hash);
      if !HashInStore(t.articles, a.guidHash) {
        NewArticleKeepsValid(t.articles, t.nextArticleId, hash, a);
      }
    }
  }

  /** Inserting an article whose hash is new, under the next id, keeps the article table valid. */
  lemma NewArticleKeepsValid(articles: map<int, Article>, nextId: int, hash: Hasher, a: Article)
    requires ArticlesValid(articles, nextId, hash)
    requires a.guidHash == hash(a.guid) && !HashInStore(articles, a.guidHash)
    ensures ArticlesValid(articles[nextId := a.(id := nextId)], nextId + 1, hash)
  {
    var arts := articles[nextId := a.(id := nextId)];
    assert nextId !in articles;
    forall j, k | j in arts && k in arts && arts[j].guidHash == arts[k].guidHash ensures j == k {
      if j != k && (j == nextId || k == nextId) {
        assert false;
      }
    }
  }

  /** In a consistent store a list message leaves exactly one feed for its sender, and
      creates one only when the sender had none. */
  lemma OneFeedPerSender(s: State, m: Email, rootFolderId: int, now: int, hash: Hasher)
    requires Consistent(s, hash) && IsMailingList(m.headerNames)
    ensures var r := ProcessEmail(s, m, rootFolderId, now, hash);
            var sender := SenderAddress(m.from);
      r.out.Done? ==>
        && (forall j, k :: (j in r.after.feeds && k in r.after.feeds && r.after.feeds[j].url == sender
                            && r.after.feeds[k].url == sender) ==> j == k)
        && UrlTaken(r.after.feeds, sender)
        && (UrlTaken(s.feeds, sender) ==> r.after.feeds == s.feeds)
  {
    ProcessKeepsConsistent(s, m, rootFolderId, now, hash);
    var sender := SenderAddress(m.from);
    FeedLogic.FindByUrlFinds(s, sender, hash);
    if FeedTitle(m.from).Ok? && UrlTaken(s.feeds, sender) {
      FileKeepsFeeds(s, sender, FeedTitle(m.from).value, m.subject, SelectBody(m.body), rootFolderId, now, hash);
    }
  }

  /** A sender that has a feed gets no new one, and the feeds stay as they were. */
  lemma FileKeepsFeeds(s: State, sender: string, title: string, subject: string, content: string,
                       rootFolderId: int, now: int, hash: Hasher)
    requires FeedLogic.FindByUrl(s, sender).Some?
    ensures FileMessage(s, sender, title, subject, content, rootFolderId, now, hash).after.feeds == s.feeds
  {
    assert SenderFeed(s, sender, title, rootFolderId, now).after == s;
  }

  /** A message the store already reflects: not from a list, or from a list whose title
      reads, whose sender has a feed and whose hash is stored. */
  predicate Known(s: State, m: Email, hash: Hasher) {
    IsMailingList(m.headerNames) ==>
      FeedTitle(m.from).Ok? && UrlTaken(s.feeds, SenderAddress(m.from)) && HashInStore(s.articles, MailHash(m, hash))
  }

  /** Every feed and article row of `s` is in `t` unchanged. */
  predicate KeepsRows(s: State, t: State) {
    && (forall k :: k in s.feeds ==> k in t.feeds && t.feeds[k] == s.feeds[k])
    && (forall k :: k in s.articles ==> k in t.articles && t.articles[k] == s.articles[k])
  }

  /** A known message stays known while rows are only added. */
  lemma KnownStays(s: State, t: State, m: Email, hash: Hasher)
    requires Known(s, m, hash) && KeepsRows(s, t)
    ensures Known(t, m, hash)
  {
    if IsMailingList(m.headerNames) {
      var f :| f in s.feeds && s.feeds[f].url == SenderAddress(m.from);
      assert t.feeds[f].url == SenderAddress(m.from);
      var a :| a in s.articles && s.articles[a].guidHash == MailHash(m, hash);
      assert t.articles[a].guidHash == MailHash(m, hash);
    }
  }

  /** A processed message is known afterwards, and the rows that were there stay. */
  lemma ProcessMakesKnown(s: State, m: Email, rootFolderId: int, now: int, hash: Hasher)
    requires Consistent(s, hash)
    ensures var r := ProcessEmail(s, m, rootFolderId, now, hash);
            KeepsRows(s, r.after) && (r.out.Done? ==> Known(r.after, m, hash))
  {
    assert forall k :: k in s.feeds ==> k < s.nextFeedId;
    assert forall k :: k in s.articles ==> k < s.nextArticleId;
  }

  /** A known message changes nothing and goes through. */
  lemma KnownMessageChangesNothing(s: State, m: Email, rootFolderId: int, now: int, hash: Hasher)
    requires Consistent(s, hash) && Known(s, m, hash)
    ensures ProcessEmail(s, m, rootFolderId, now, hash) == Step(Done, s)
  {
    FeedLogic.FindByUrlFinds(s, SenderAddress(m.from), hash);
  }

  /** Processing the same message twice is processing it once. */
  lemma ProcessIdempotent(s: State, m: Email, rootFolderId: int, now1: int, now2: int, hash: Hasher)
    requires Consistent(s, hash)
    ensures var once := ProcessEmail(s, m, rootFolderId, now1, hash);
            once.out.Done? ==> ProcessEmail(once.after, m, rootFolderId, now2, hash) == Step(Done, once.after)
  {
    var once := ProcessEmail(s, m, rootFolderId, now1, hash);
    ProcessKeepsConsistent(s, m, rootFolderId, now1, hash);
    ProcessMakesKnown(s, m, rootFolderId, now1, hash);
    if once.out.Done? {
      KnownMessageChangesNothing(once.after, m, rootFolderId, now2, hash);
    }
  }

  // ---------------------------------------------------------------- mailboxes

  /** One UNSEEN message: its uid, and the message when the fetch answered OK with data. */
  datatype Delivery = Delivery(uid: int, fetched: Option<Email>)

  /** What the server answers for one account: whether login and select succeed, whether the
      UNSEEN search answers OK, and the messages it lists. */
  datatype Mailbox = Mailbox(loginOk: bool, searchOk: bool, messages: seq<Delivery>)

  type Inbox = Credential -> Mailbox

  /** What `fetch_emails` did to one mailbox: the uids it flagged `\Seen`, and how it ended. */
  datatype Fetch = Fetch(seen: seq<int>, outcome: Outcome)

  /** The uids of the messages whose fetch succeeded, in order. */
  function FetchedUids(ds: seq<Delivery>): (r: seq<int>)
    ensures |r| <= |ds|
  {
    if ds == [] then []
    else
      var init := FetchedUids(ds[..|ds| - 1]);
      if ds[|ds| - 1].fetched.Some? then init + [ds[|ds| - 1].uid] else init
  }

  /** The loop of `fetch_emails`: a failed fetch is skipped and stays unseen; a processed message
      is flagged seen; an exception from `process_email` ends the loop. */
  function ProcessDeliveries(s: State, ds: seq<Delivery>, rootFolderId: int, now: int, hash: Hasher): (r: Step<Fetch>)
    ensures |r.out.seen| <= |ds|
    ensures r.after.folders == s.folders && r.after.credentials == s.credentials && r.after.nextFolderId == s.nextFolderId
    ensures s.nextFeedId <= r.after.nextFeedId && s.nextArticleId <= r.after.nextArticleId
    ensures forall k :: k in s.feeds && k < s.nextFeedId ==> k in r.after.feeds && r.after.feeds[k] == s.feeds[k]
    ensures forall k :: k in s.articles && k < s.nextArticleId ==> k in r.after.articles && r.after.articles[k] == s.articles[k]
  {
    if ds == [] then Step(Fetch([], Done), s)
    else
      var prev := ProcessDeliveries(s, ds[..|ds| - 1], rootFolderId, now, hash);
      if prev.out.outcome.Failed? then prev
      else DeliverOne(prev.after, prev.out.seen, ds[|ds| - 1], rootFolderId, now, hash)
  }

  /** One turn of the loop, after `seen` were flagged: a failed fetch is skipped, a processed
      message is flagged. */
  function DeliverOne(s: State, seen: seq<int>, d: Delivery, rootFolderId: int, now: int, hash: Hasher): Step<Fetch> {
    if d.fetched.None? then Step(Fetch(seen, Done), s)
    else
      var p := ProcessEmail(s, d.fetched.value, rootFolderId, now, hash);
      if p.out.Failed? then Step(Fetch(seen, p.out), p.after)
      else Step(Fetch(seen + [d.uid], Done), p.after)
  }

  /** Only fetched messages are flagged, in order, and all of them unless processing failed;
      the loop keeps the tables consistent. */
  lemma {:induction false} DeliveriesMarkFetched(s: State, ds: seq<Delivery>, rootFolderId: int, now: int, hash: Hasher)
    requires Consistent(s, hash)
    ensures var r := ProcessDeliveries(s, ds, rootFolderId, now, hash);
      && r.out.seen <= FetchedUids(ds)
      && (r.out.outcome.Done? ==> r.out.seen == FetchedUids(ds))
      && Consistent(r.after, hash)
    decreases |ds|
  {
    if ds != [] {
      var init := ds[..|ds| - 1];
      var d := ds[|ds| - 1];
      DeliveriesMarkFetched(s, init, rootFolderId, now, hash);
      var prev := ProcessDeliveries(s, init, rootFolderId, now, hash);
      var all := FetchedUids(ds);
      assert all == if d.fetched.Some? then FetchedUids(init) + [d.uid] else FetchedUids(init);
      assert FetchedUids(init) <= all;
      if !prev.out.outcome.Failed? {
        DeliverOneMarks(prev.after, prev.out.seen, d, rootFolderId, now, hash);
      }
    }
  }

  /** One turn flags the message exactly when it was fetched and went through, and keeps
      the tables consistent. */
  lemma DeliverOneMarks(s: State, seen: seq<int>, d: Delivery, rootFolderId: int, now: int, hash: Hasher)
    requires Consistent(s, hash)
    ensures var r := DeliverOne(s, seen, d, rootFolderId, now, hash);
      && r.out.seen == (if d.fetched.Some? && r.out.outcome.Done? then seen + [d.uid] else seen)
      && (d.fetched.None? ==> r.out.outcome.Done?)
      && Consistent(r.after, hash)
  {
    if d.fetched.Some? {
      ProcessKeepsConsistent(s, d.fetched.value, rootFolderId, now, hash);
    }
  }

  /** One turn keeps every row, and a message that went through is known afterwards. */
  lemma DeliverOneKnows(s: State, seen: seq<int>, d: Delivery, rootFolderId: int, now: int, hash: Hasher)
    requires Consistent(s, hash)
    ensures var r := DeliverOne(s, seen, d, rootFolderId, now, hash);
      && KeepsRows(s, r.after)
      && (r.out.outcome.Done? && d.fetched.Some? ==> Known(r.after, d.fetched.value, hash))
  {
    if d.fetched.Some? {
      ProcessMakesKnown(s, d.fetched.value, rootFolderId, now, hash);
    }
  }

  /** Keeping the rows composes. */
  lemma KeepsRowsChain(s: State, t: State, u: State)
    requires KeepsRows(s, t) && KeepsRows(t, u)
    ensures KeepsRows(s, u)
  {
  }

  /** The loop over one more message. */
  lemma DeliveriesNext(s: State, ds: seq<Delivery>, i: int, rootFolderId: int, now: int, hash: Hasher)
    requires 0 <= i < |ds|
    ensures var prev := ProcessDeliveries(s, ds[..i], rootFolderId, now, hash);
            ProcessDeliveries(s, ds[..i + 1], rootFolderId, now, hash) ==
              if prev.out.outcome.Failed? then prev
              else DeliverOne(prev.after, prev.out.seen, ds[i], rootFolderId, now, hash)
  {
    assert ds[..i + 1][..i] == ds[..i];
  }

  /** An exception from `process_email` ends the loop: the messages after it are neither
      processed nor flagged. */
  lemma {:induction false} DeliveriesStopAtFailure(s: State, ds: seq<Delivery>, i: int, rootFolderId: int, now: int, hash: Hasher)
    requires 0 <= i <= |ds|
    requires ProcessDeliveries(s, ds[..i], rootFolderId, now, hash).out.outcome.Failed?
    ensures ProcessDeliveries(s, ds, rootFolderId, now, hash) == ProcessDeliveries(s, ds[..i], rootFolderId, now, hash)
    decreases |ds| - i
  {
    if i < |ds| {
      var init := ds[..|ds| - 1];
      assert init[..i] == ds[..i];
      DeliveriesStopAtFailure(s, init, i, rootFolderId, now, hash);
    } else {
      assert ds[..i] == ds;
    }
  }

  /** Every message that a mailbox delivers is known. */
  predicate AllKnown(s: State, ds: seq<Delivery>, hash: Hasher) {
    forall i :: 0 <= i < |ds| && ds[i].fetched.Some? ==> Known(s, ds[i].fetched.value, hash)
  }

  /** A loop that went through leaves every fetched message known, and keeps the old rows. */
  lemma {:induction false} DeliveriesMakeKnown(s: State, ds: seq<Delivery>, rootFolderId: int, now: int, hash: Hasher)
    requires Consistent(s, hash)
    ensures var r := ProcessDeliveries(s, ds, rootFolderId, now, hash);
            KeepsRows(s, r.after) && (r.out.outcome.Done? ==> AllKnown(r.after, ds, hash))
    decreases |ds|
  {
    if ds != [] {
      var init := ds[..|ds| - 1];
      var d := ds[|ds| - 1];
      DeliveriesMakeKnown(s, init, rootFolderId, now, hash);
      DeliveriesMarkFetched(s, init, rootFolderId, now, hash);
      var prev := ProcessDeliveries(s, init, rootFolderId, now, hash);
      if !prev.out.outcome.Failed? {
        var r := DeliverOne(prev.after, prev.out.seen, d, rootFolderId, now, hash);
        DeliverOneKnows(prev.after, prev.out.seen, d, rootFolderId, now, hash);
        KeepsRowsChain(s, prev.after, r.after);
        if r.out.outcome.Done? {
          AllKnownGrows(prev.after, r.after, ds, hash);
        }
      }
    }
  }

  /** The messages known before stay known while rows are only added, so one more known
      message extends the list. */
  lemma AllKnownGrows(s: State, t: State, ds: seq<Delivery>, hash: Hasher)
    requires ds != [] && AllKnown(s, ds[..|ds| - 1], hash) && KeepsRows(s, t)
    requires ds[|ds| - 1].fetched.Some? ==> Known(t, ds[|ds| - 1].fetched.value, hash)
    ensures AllKnown(t, ds, hash)
  {
    var init := ds[..|ds| - 1];
    forall i | 0 <= i < |ds| && ds[i].fetched.Some? ensures Known(t, ds[i].fetched.value, hash) {
      if i < |init| {
        assert ds[i] == init[i];
        KnownStays(s, t, ds[i].fetched.value, hash);
      }
    }
  }

  /** Known messages go through without changing the tables, and all of them are flagged. */
  lemma {:induction false} KnownDeliveriesChangeNothing(s: State, ds: seq<Delivery>, rootFolderId: int, now: int, hash: Hasher)
    requires Consistent(s, hash) && AllKnown(s, ds, hash)
    ensures ProcessDeliveries(s, ds, rootFolderId, now, hash) == Step(Fetch(FetchedUids(ds), Done), s)
    decreases |ds|
  {
    if ds != [] {
      var init := ds[..|ds| - 1];
      var d := ds[|ds| - 1];
      assert AllKnown(s, init, hash) by {
        assert forall i :: 0 <= i < |init| ==> init[i] == ds[i];
      }
      KnownDeliveriesChangeNothing(s, init, rootFolderId, now, hash);
      if d.fetched.Some? {
        KnownMessageChangesNothing(s, d.fetched.value, rootFolderId, now, hash);
      }
    }
  }

  /** Reading the same messages a second time changes nothing: the second pass finds every
      sender's feed and every hash, and flags the same messages again. */
  lemma MailboxReadTwice(s: State, ds: seq<Delivery>, rootFolderId: int, now1: int, now2: int, hash: Hasher)
    requires Consistent(s, hash)
    ensures var once := ProcessDeliveries(s, ds, rootFolderId, now1, hash);
            once.out.outcome.Done? ==>
              ProcessDeliveries(once.after, ds, rootFolderId, now2, hash) == Step(Fetch(FetchedUids(ds), Done), once.after)
  {
    var once := ProcessDeliveries(s, ds, rootFolderId, now1, hash);
    DeliveriesMakeKnown(s, ds, rootFolderId, now1, hash);
    DeliveriesMarkFetched(s, ds, rootFolderId, now1, hash);
    if once.out.outcome.Done? {
      KnownDeliveriesChangeNothing(once.after, ds, rootFolderId, now2, hash);
    }
  }

  /** `fetch_emails(credential)`. */
  function FetchEmails(s: State, credential: Credential, inbox: Inbox, rootFolderId: int, now: int, hash: Hasher)
    : (r: Step<Fetch>)
    ensures credential.protocol != "imap" ==> r == Step(Fetch([], Failed(UnsupportedProtocol(credential.protocol))), s)
    ensures credential.protocol == "imap" && !inbox(credential).loginOk ==> r == Step(Fetch([], Failed(MailboxLogin)), s)
    ensures credential.protocol == "imap" && inbox(credential).loginOk && !inbox(credential).searchOk ==> r == Step(Fetch([], Done), s)
  {
    if credential.protocol != "imap" then Step(Fetch([], Failed(UnsupportedProtocol(credential.protocol))), s)
    else
      var mailbox := inbox(credential);
      if !mailbox.loginOk then Step(Fetch([], Failed(MailboxLogin)), s)
      else if !mailbox.searchOk then Step(Fetch([], Done), s)
      else ProcessDeliveries(s, mailbox.messages, rootFolderId, now, hash)
  }

  /** A message is flagged seen only once fetched and processed. */
  lemma FetchEmailsMarks(s: State, credential: Credential, inbox: Inbox, rootFolderId: int, now: int, hash: Hasher)
    requires Consistent(s, hash)
    ensures var r := FetchEmails(s, credential, inbox, rootFolderId, now, hash);
      && r.out.seen <= FetchedUids(inbox(credential).messages)
      && (credential.protocol == "imap" && inbox(credential).loginOk && inbox(credential).searchOk && r.out.outcome.Done?
          ==> r.out.seen == FetchedUids(inbox(credential).messages))
      && Consistent(r.after, hash)
  {
    DeliveriesMarkFetched(s, inbox(credential).messages, rootFolderId, now, hash);
  }

  /** `fetch_emails_from_all_mailboxes`: every stored account in order; an exception ends the sweep. */
  function FetchAll(s: State, credentials: seq<Credential>, inbox: Inbox, rootFolderId: int, now: int, hash: Hasher)
    : (r: Step<Outcome>)
    ensures credentials == [] ==> r == Step(Done, s)
    ensures r.after.folders == s.folders && r.after.credentials == s.credentials && r.after.nextFolderId == s.nextFolderId
    ensures s.nextFeedId <= r.after.nextFeedId && s.nextArticleId <= r.after.nextArticleId
    ensures forall k :: k in s.feeds && k < s.nextFeedId ==> k in r.after.feeds && r.after.feeds[k] == s.feeds[k]
    ensures forall k :: k in s.articles && k < s.nextArticleId ==> k in r.after.articles && r.after.articles[k] == s.articles[k]
  {
    if credentials == [] then Step(Done, s)
    else
      var prev := FetchAll(s, credentials[..|credentials| - 1], inbox, rootFolderId, now, hash);
      if prev.out.Failed? then prev
      else
        var f := FetchEmails(prev.after, credentials[|credentials| - 1], inbox, rootFolderId, now, hash);
        Step(f.out.outcome, f.after)
  }

  /** The sweep over one more account. */
  lemma FetchAllNext(s: State, credentials: seq<Credential>, i: int, inbox: Inbox, rootFolderId: int, now: int, hash: Hasher)
    requires 0 <= i < |credentials|
    ensures var prev := FetchAll(s, credentials[..i], inbox, rootFolderId, now, hash);
            FetchAll(s, credentials[..i + 1], inbox, rootFolderId, now, hash) ==
              if prev.out.Failed? then prev
              else
                var f := FetchEmails(prev.after, credentials[i], inbox, rootFolderId, now, hash);
                Step(f.out.outcome, f.after)
  {
    assert credentials[..i + 1][..i] == credentials[..i];
  }

  /** An exception from one mailbox ends the sweep: the accounts after it are not read. */
  lemma {:induction false} FetchAllStopsAtFailure(s: State, credentials: seq<Credential>, i: int, inbox: Inbox,
                                                  rootFolderId: int, now: int, hash: Hasher)
    requires 0 <= i <= |credentials|
    requires FetchAll(s, credentials[..i], inbox, rootFolderId, now, hash).out.Failed?
    ensures FetchAll(s, credentials, inbox, rootFolderId, now, hash) == FetchAll(s, credentials[..i], inbox, rootFolderId, now, hash)
    decreases |credentials| - i
  {
    if i < |credentials| {
      var init := credentials[..|credentials| - 1];
      assert init[..i] == credentials[..i];
      FetchAllStopsAtFailure(s, init, i, inbox, rootFolderId, now, hash);
    } else {
      assert credentials[..i] == credentials;
    }
  }

  /** The mail sweep keeps the tables consistent and leaves every existing feed and article
      row alone. */
  lemma {:induction false} FetchAllKeeps(s: State, credentials: seq<Credential>, inbox: Inbox, rootFolderId: int, now: int, hash: Hasher)
    requires Consistent(s, hash)
    ensures var r := FetchAll(s, credentials, inbox, rootFolderId, now, hash);
      && Consistent(r.after, hash)
      && (forall k :: k in s.feeds ==> k in r.after.feeds && r.after.feeds[k] == s.feeds[k])
      && (forall k :: k in s.articles ==> k in r.after.articles && r.after.articles[k] == s.articles[k])
    decreases |credentials|
  {
    if credentials != [] {
      var init := credentials[..|credentials| - 1];
      FetchAllKeeps(s, init, inbox, rootFolderId, now, hash);
      var prev := FetchAll(s, init, inbox, rootFolderId, now, hash);
      if !prev.out.Failed? {
        FetchEmailsMarks(prev.after, credentials[|credentials| - 1], inbox, rootFolderId, now, hash);
      }
    }
  }

  /** An account the sweep reads without an exception, whose listed messages are all known. */
  predicate AccountKnown(s: State, c: Credential, inbox: Inbox, hash: Hasher) {
    && c.protocol == "imap" && inbox(c).loginOk
    && (inbox(c).searchOk ==> AllKnown(s, inbox(c).messages, hash))
  }

  lemma AllKnownStays(s: State, t: State, ds: seq<Delivery>, hash: Hasher)
    requires AllKnown(s, ds, hash) && KeepsRows(s, t)
    ensures AllKnown(t, ds, hash)
  {
    forall i | 0 <= i < |ds| && ds[i].fetched.Some? ensures Known(t, ds[i].fetched.value, hash) {
      KnownStays(s, t, ds[i].fetched.value, hash);
    }
  }

  /** Reading one mailbox keeps every row, and a read that went through leaves the account
      readable and its messages known. */
  lemma FetchEmailsMakesKnown(s: State, c: Credential, inbox: Inbox, rootFolderId: int, now: int, hash: Hasher)
    requires Consistent(s, hash)
    ensures var f := FetchEmails(s, c, inbox, rootFolderId, now, hash);
            KeepsRows(s, f.after) && (f.out.outcome.Done? ==> AccountKnown(f.after, c, inbox, hash))
  {
    if c.protocol == "imap" && inbox(c).loginOk && inbox(c).searchOk {
      DeliveriesMakeKnown(s, inbox(c).messages, rootFolderId, now, hash);
    }
  }

  /** The accounts read before stay known while rows are only added, so one more known
      account extends the list. */
  lemma AccountsKnownGrow(s: State, t: State, credentials: seq<Credential>, inbox: Inbox, hash: Hasher)
    requires credentials != [] && KeepsRows(s, t)
    requires forall j :: 0 <= j < |credentials| - 1 ==> AccountKnown(s, credentials[j], inbox, hash)
    requires AccountKnown(t, credentials[|credentials| - 1], inbox, hash)
    ensures forall j :: 0 <= j < |credentials| ==> AccountKnown(t, credentials[j], inbox, hash)
  {
    forall j | 0 <= j < |credentials| - 1 ensures AccountKnown(t, credentials[j], inbox, hash) {
      var c := credentials[j];
      if inbox(c).searchOk {
        AllKnownStays(s, t, inbox(c).messages, hash);
      }
    }
  }

  /** A sweep that went through leaves every account readable and its messages known. */
  lemma {:induction false} FetchAllMakesKnown(s: State, credentials: seq<Credential>, inbox: Inbox,
                                              rootFolderId: int, now: int, hash: Hasher)
    requires Consistent(s, hash)
    ensures var r := FetchAll(s, credentials, inbox, rootFolderId, now, hash);
            KeepsRows(s, r.after) && (r.out.Done? ==> forall j :: 0 <= j < |credentials| ==> AccountKnown(r.after, credentials[j], inbox, hash))
    decreases |credentials|
  {
    if credentials != [] {
      var init := credentials[..|credentials| - 1];
      var c := credentials[|credentials| - 1];
      FetchAllMakesKnown(s, init, inbox, rootFolderId, now, hash);
      FetchAllKeeps(s, init, inbox, rootFolderId, now, hash);
      var prev := FetchAll(s, init, inbox, rootFolderId, now, hash);
      if !prev.out.Failed? {
        var f := FetchEmails(prev.after, c, inbox, rootFolderId, now, hash);
        FetchEmailsMakesKnown(prev.after, c, inbox, rootFolderId, now, hash);
        KeepsRowsChain(s, prev.after, f.after);
        if f.out.outcome.Done? {
          assert forall j :: 0 <= j < |init| ==> credentials[j] == init[j];
          AccountsKnownGrow(prev.after, f.after, credentials, inbox, hash);
        }
      }
    }
  }

  /** Accounts whose messages are all known are read without changing the tables. */
  lemma {:induction false} KnownAccountsChangeNothing(s: State, credentials: seq<Credential>, inbox: Inbox,
                                                      rootFolderId: int, now: int, hash: Hasher)
    requires Consistent(s, hash)
    requires forall j :: 0 <= j < |credentials| ==> AccountKnown(s, credentials[j], inbox, hash)
    ensures FetchAll(s, credentials, inbox, rootFolderId, now, hash) == Step(Done, s)
    decreases |credentials|
  {
    if credentials != [] {
      var init := credentials[..|credentials| - 1];
      var c := credentials[|credentials| - 1];
      assert forall j :: 0 <= j < |init| ==> init[j] == credentials[j];
      KnownAccountsChangeNothing(s, init, inbox, rootFolderId, now, hash);
      assert AccountKnown(s, c, inbox, hash);
      if inbox(c).searchOk {
        KnownDeliveriesChangeNothing(s, inbox(c).messages, rootFolderId, now, hash);
      }
    }
  }

  /** A second `fetch_emails_from_all_mailboxes` whose servers answer as before changes
      nothing: no feed and no article is added twice. */
  lemma MailboxesReadTwice(s: State, inbox: Inbox, rootFolderId: int, now1: int, now2: int, hash: Hasher)
    requires Consistent(s, hash)
    ensures var once := FetchAll(s, s.credentials, inbox, rootFolderId, now1, hash);
            once.out.Done? ==> FetchAll(once.after, once.after.credentials, inbox, rootFolderId, now2, hash) == Step(Done, once.after)
  {
    var once := FetchAll(s, s.credentials, inbox, rootFolderId, now1, hash);
    FetchAllMakesKnown(s, s.credentials, inbox, rootFolderId, now1, hash);
    FetchAllKeeps(s, s.credentials, inbox, rootFolderId, now1, hash);
    if once.out.Done? {
      KnownAccountsChangeNothing(once.after, s.credentials, inbox, rootFolderId, now2, hash);
    }
  }

  /** `add_credentials`: the credential is stored only when a test login succeeds. */
  function AddCredentials(s: State, credential: Credential, inbox: Inbox): (r: Step<Outcome>)
    ensures r.out.Done? <==> inbox(credential).loginOk
    ensures r.out.Failed? ==> r == Step(Failed(EmailConnection), s)
    ensures r.out.Done? ==> r.after == s.(credentials := s.credentials + [credential])
  {
    if !inbox(credential).loginOk then Step(Failed(EmailConnection), s)
    else Step(Done, s.(credentials := s.credentials + [credential]))
  }
}
