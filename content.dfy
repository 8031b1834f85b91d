/** Text post-processing around full-text extraction and LLM summaries (content.py).
    trafilatura and the OpenAI client are collaborators: what they return is an input. */
module Content {
  import opened Records
  import opened Text
  import UrlGuard

  const ArticleMaxChars := 8000
  const AiMarker := " (AI generated)"

  /** A collaborator call that either raised or returned a value. */
  datatype Attempt<T> = Raised | Returned(value: T)

  /** The decoded JSON of the LLM's answer: not JSON at all, or an object whose
      `summary` key holds the given value (`None` when the key is missing or null). */
  datatype SummaryJson = NotJson | JsonObject(summary: Option<string>)

  /** The LLM call: it raised, or it answered with the message text (`None` when
      the response carries none) and the decoding of that text. */
  datatype LlmReply = CallFailed | Answered(text: Option<string>, json: SummaryJson)

  // ---------------------------------------------------------------- strip_html

  /** The length of the match of `<[^>]+>` that starts at the beginning of `u`, if one does:
      a '<', at least one character that is not '>', and the first '>' after it. */
  function TagLength(u: string): (r: Option<nat>)
    ensures r.Some? ==> 3 <= r.value <= |u| && u[0] == '<' && u[r.value - 1] == '>'
                        && forall k :: 0 < k < r.value - 1 ==> u[k] != '>'
    ensures r.None? && u != [] && u[0] == '<' ==> '>' !in u[1..] || u[1] == '>'
  {
    if u == [] || u[0] != '<' then None
    else match IndexOf(u[1..], '>')
      case None => None
      case Some(j) =>
        if j == 0 then None
        else
          assert forall k :: 0 < k < j + 1 ==> u[k] == u[1..][..j][k - 1];
          Some(j + 2)
  }

  /** No match of `<[^>]+>` starts anywhere in `t`. */
  predicate NoTag(t: string) {
    forall i :: 0 <= i < |t| ==> TagLength(t[i..]).None?
  }

  /** `re.sub(r"<[^>]+>", " ", text)`: scanning from the left, each match becomes one space
      and every other character is kept in place. */
  function StripHtml(text: string): (r: string)
    ensures |r| <= |text|
    decreases |text|
  {
    if text == [] then []
    else match TagLength(text)
      case Some(n) => " " + StripHtml(text[n..])
      case None => [text[0]] + StripHtml(text[1..])
  }

  /** Every '>' of the output comes from the input, so a text without '>' stays without. */
  lemma {:induction false} StripHtmlAddsNoCloser(text: string)
    requires '>' !in text
    ensures '>' !in StripHtml(text)
    decreases |text|
  {
    if text != [] {
      assert TagLength(text).None?;
      assert '>' !in text[1..] by { assert forall k :: 0 <= k < |text| - 1 ==> text[1..][k] == text[k + 1]; }
      StripHtmlAddsNoCloser(text[1..]);
    }
  }

  /** The output of `strip_html` holds no further match of its pattern. */
  lemma {:induction false} StripHtmlLeavesNoTag(text: string)
    ensures NoTag(StripHtml(text))
    decreases |text|
  {
    if text != [] {
      var r := StripHtml(text);
      match TagLength(text)
      case Some(n) =>
        StripHtmlLeavesNoTag(text[n..]);
        var rest := StripHtml(text[n..]);
        assert r == " " + rest;
        forall i | 0 <= i < |r| ensures TagLength(r[i..]).None? {
          if i > 0 { assert r[i..] == rest[i - 1..]; }
        }
      case None =>
        StripHtmlLeavesNoTag(text[1..]);
        var rest := StripHtml(text[1..]);
        assert r == [text[0]] + rest;
        forall i | 0 <= i < |r| ensures TagLength(r[i..]).None? {
          if i > 0 {
            assert r[i..] == rest[i - 1..];
          } else if text[0] == '<' {
            if '>' !in text[1..] {
              StripHtmlAddsNoCloser(text[1..]);
              assert r[1..] == rest;
            } else {
              assert text[1] == '>';
              assert TagLength(text[1..]).None?;
              assert rest[0] == '>';
              assert r[1..][0] == '>';
            }
          }
        }
    }
  }

  /** A text without matches passes through `strip_html` unchanged. */
  lemma {:induction false} StripHtmlKeepsPlainText(text: string)
    requires NoTag(text)
    ensures StripHtml(text) == text
    decreases |text|
  {
    if text != [] {
      assert TagLength(text[0..]).None?;
      assert text[0..] == text;
      assert NoTag(text[1..]) by {
        forall i | 0 <= i < |text| - 1 ensures TagLength(text[1..][i..]).None? {
          assert text[1..][i..] == text[i + 1..];
        }
      }
      StripHtmlKeepsPlainText(text[1..]);
    }
  }

  /** Stripping twice is stripping once. */
  lemma StripHtmlIdempotent(text: string)
    ensures StripHtml(StripHtml(text)) == StripHtml(text)
  {
    StripHtmlLeavesNoTag(text);
    StripHtmlKeepsPlainText(StripHtml(text));
  }

  // ---------------------------------------------------------------- normalize_text

  /** `re.sub(r"\s+", " ", s)`: every maximal run of whitespace becomes one space. */
  function CollapseSpaces(s: string): (r: string)
    ensures |r| <= |s|
    ensures s != [] && !IsSpace(s[0]) ==> r != [] && r[0] == s[0]
    decreases |s|
  {
    if s == [] then []
    else if IsSpace(s[0]) then " " + CollapseSpaces(TrimLeft(s, IsSpace))
    else [s[0]] + CollapseSpaces(s[1..])
  }

  /** No two neighbouring characters are both whitespace. */
  predicate NoDoubleSpace(s: string) {
    forall k :: 0 <= k < |s| - 1 ==> !(IsSpace(s[k]) && IsSpace(s[k + 1]))
  }

  lemma {:induction false} CollapseLeavesSingleSpaces(s: string)
    ensures NoDoubleSpace(CollapseSpaces(s))
    decreases |s|
  {
    if s != [] {
      var r := CollapseSpaces(s);
      if IsSpace(s[0]) {
        var t := TrimLeft(s, IsSpace);
        var ct := CollapseSpaces(t);
        CollapseLeavesSingleSpaces(t);
        assert ct == [] || !IsSpace(ct[0]);
        assert r == [' '] + ct;
        PrefixKeepsSingleSpaces(' ', ct);
      } else {
        var rest := CollapseSpaces(s[1..]);
        CollapseLeavesSingleSpaces(s[1..]);
        assert r == [s[0]] + rest;
        PrefixKeepsSingleSpaces(s[0], rest);
      }
    }
  }

  lemma PrefixKeepsSingleSpaces(c: char, t: string)
    requires NoDoubleSpace(t)
    requires IsSpace(c) ==> t == [] || !IsSpace(t[0])
    ensures NoDoubleSpace([c] + t)
  {
    var r := [c] + t;
    forall k | 0 <= k < |r| - 1 ensures !(IsSpace(r[k]) && IsSpace(r[k + 1])) {
      if k > 0 { assert r[k] == t[k - 1] && r[k + 1] == t[k]; }
    }
  }

  /** A part of a text without double spaces has none either, nor has its lower-cased form. */
  lemma InfixKeepsSingleSpaces(r: string, s: string, off: int)
    requires NoDoubleSpace(s) && InfixAt(r, s, off)
    ensures NoDoubleSpace(r) && NoDoubleSpace(Lower(r))
    ensures SingleSpaced(s) ==> SingleSpaced(r)
  {
    forall k | 0 <= k < |r| ensures r[k] == s[off + k] {
    }
  }

  /** Whitespace occurs only as single plain spaces. */
  predicate SingleSpaced(s: string) {
    && NoDoubleSpace(s)
    && forall k :: 0 <= k < |s| && IsSpace(s[k]) ==> s[k] == ' '
  }

  /** `normalize_text`: strip the tags, collapse whitespace runs, strip the ends, lower-case. */
  function NormalizeText(text: Option<string>): (r: string)
    ensures !Truthy(text) ==> r == ""
    ensures Stripped(r)
    ensures SingleSpaced(r)
    ensures NoTag(r)
    ensures forall i :: 0 <= i < |r| ==> !('A' <= r[i] <= 'Z')
  {
    if !Truthy(text) then ""
    else
      StripHtmlLeavesNoTag(text.value);
      CleanAfterStrip(StripHtml(text.value));
      Lower(Strip(CollapseSpaces(StripHtml(text.value))))
  }

  /** Collapsing, stripping and lower-casing a tag-free text leaves it clean. */
  lemma CleanAfterStrip(plain: string)
    requires NoTag(plain)
    ensures var r := Lower(Strip(CollapseSpaces(plain)));
      Stripped(r) && SingleSpaced(r) && NoTag(r) && forall i :: 0 <= i < |r| ==> !('A' <= r[i] <= 'Z')
  {
    var collapsed := CollapseSpaces(plain);
    var stripped := Strip(collapsed);
    var off := |collapsed| - |TrimLeft(collapsed, IsSpace)|;
    CollapseLeavesSingleSpaces(plain);
    CollapseLeavesBlanks(plain);
    CollapseKeepsNoTag(plain);
    InfixKeepsSingleSpaces(stripped, collapsed, off);
    InfixKeepsNoTag(stripped, collapsed, off);
    LowerKeepsEnds(stripped);
    LowerKeepsNoTag(stripped);
  }

  /** A text that is already lower-case, tag-free, stripped and single-spaced is left as it is:
      normalising is idempotent. */
  lemma NormalizeIdempotent(text: Option<string>)
    ensures NormalizeText(Some(NormalizeText(text))) == NormalizeText(text)
  {
    var n := NormalizeText(text);
    if n != "" {
      NormalizeCleanText(n);
      assert Lower(n) == n;
    }
  }

  /** Normalising a tag-free, stripped, single-spaced text only lower-cases it. */
  lemma NormalizeCleanText(t: string)
    requires NoTag(t) && Stripped(t) && SingleSpaced(t)
    ensures NormalizeText(Some(t)) == Lower(t)
  {
    if t != "" {
      StripHtmlKeepsPlainText(t);
      CollapseKeepsSingleSpaced(t);
      TrimLeftStops(t, IsSpace);
      TrimRightStops(t, IsSpace);
    }
  }

  /** Collapsing a single-spaced text changes nothing. */
  lemma {:induction false} CollapseKeepsSingleSpaced(s: string)
    requires SingleSpaced(s)
    ensures CollapseSpaces(s) == s
    decreases |s|
  {
    if s != [] {
      SingleSpacedTail(s);
      CollapseKeepsSingleSpaced(s[1..]);
      if IsSpace(s[0]) {
        LoneSpace(s);
        assert s == [' '] + s[1..];
      } else {
        assert s == [s[0]] + s[1..];
      }
    }
  }

  lemma SingleSpacedTail(s: string)
    requires s != [] && SingleSpaced(s)
    ensures SingleSpaced(s[1..])
  {
    assert forall k :: 0 <= k < |s| - 1 ==> s[1..][k] == s[k + 1];
  }

  /** A single leading space is all that the left trim removes. */
  lemma LoneSpace(s: string)
    requires s != [] && IsSpace(s[0]) && SingleSpaced(s)
    ensures TrimLeft(s, IsSpace) == s[1..] && s[0] == ' '
  {
    assert TrimLeft(s, IsSpace) == TrimLeft(s[1..], IsSpace);
    if s[1..] != [] {
      assert s[1..][0] == s[1];
      TrimLeftStops(s[1..], IsSpace);
    }
  }

  /** The only whitespace `re.sub(r"\s+", " ", s)` leaves is the plain space. */
  lemma {:induction false} CollapseLeavesBlanks(s: string)
    ensures forall k :: 0 <= k < |CollapseSpaces(s)| && IsSpace(CollapseSpaces(s)[k]) ==> CollapseSpaces(s)[k] == ' '
    decreases |s|
  {
    if s != [] {
      var rest := if IsSpace(s[0]) then TrimLeft(s, IsSpace) else s[1..];
      CollapseLeavesBlanks(rest);
      var c := if IsSpace(s[0]) then ' ' else s[0];
      assert CollapseSpaces(s) == [c] + CollapseSpaces(rest);
    }
  }

  /** Collapsing whitespace never turns a text without '>' into one with it. */
  lemma {:induction false} CollapseAddsNoCloser(s: string)
    requires '>' !in s
    ensures '>' !in CollapseSpaces(s)
    decreases |s|
  {
    if s != [] {
      var rest := if IsSpace(s[0]) then TrimLeft(s, IsSpace) else s[1..];
      assert '>' !in rest by { assert forall k :: 0 <= k < |rest| ==> rest[k] == s[|s| - |rest| + k]; }
      CollapseAddsNoCloser(rest);
      var c := if IsSpace(s[0]) then ' ' else s[0];
      assert CollapseSpaces(s) == [c] + CollapseSpaces(rest);
    }
  }

  /** A suffix of a tag-free text is tag-free. */
  lemma SuffixKeepsNoTag(s: string, n: int)
    requires NoTag(s) && 0 <= n <= |s|
    ensures NoTag(s[n..])
  {
    forall i | 0 <= i < |s| - n ensures TagLength(s[n..][i..]).None? {
      assert s[n..][i..] == s[n + i..];
    }
  }

  /** One character before a tag-free text: only a match starting at that character could appear. */
  lemma ConsKeepsNoTag(c: char, t: string)
    requires NoTag(t) && TagLength([c] + t).None?
    ensures NoTag([c] + t)
  {
    var r := [c] + t;
    forall i | 0 <= i < |r| ensures TagLength(r[i..]).None? {
      if i > 0 { assert r[i..] == t[i - 1..]; }
    }
  }

  /** Collapsing whitespace creates no match of `<[^>]+>`: whitespace is neither '<' nor '>'. */
  lemma {:induction false} CollapseKeepsNoTag(s: string)
    requires NoTag(s)
    ensures NoTag(CollapseSpaces(s))
    decreases |s|
  {
    if s != [] {
      if IsSpace(s[0]) {
        var rest := TrimLeft(s, IsSpace);
        SuffixKeepsNoTag(s, |s| - |rest|);
        CollapseKeepsNoTag(rest);
        assert CollapseSpaces(s) == [' '] + CollapseSpaces(rest);
        ConsKeepsNoTag(' ', CollapseSpaces(rest));
      } else {
        var rest := CollapseSpaces(s[1..]);
        SuffixKeepsNoTag(s, 1);
        CollapseKeepsNoTag(s[1..]);
        assert CollapseSpaces(s) == [s[0]] + rest;
        if s[0] == '<' {
          assert TagLength(s[0..]).None? && s[0..] == s;
          if '>' in s[1..] {
            assert s[1] == '>';
            assert rest[0] == '>';
            assert ([s[0]] + rest)[1..] == rest;
          } else {
            CollapseAddsNoCloser(s[1..]);
            assert ([s[0]] + rest)[1..] == rest;
          }
        }
        ConsKeepsNoTag(s[0], rest);
      }
    }
  }

  /** A match at the start of a prefix is a match at the start of the whole text. */
  lemma TagInPrefix(u: string, v: string)
    requires u <= v && TagLength(u).Some?
    ensures TagLength(v).Some?
  {
    var n := TagLength(u).value;
    var j := n - 2;
    assert v[1..][j] == '>';
    assert v[1..][..j] == u[1..][..j];
    assert '>' !in v[1..][..j] by {
      forall k | 0 <= k < j ensures v[1..][k] != '>' {
        assert v[1..][k] == u[k + 1];
      }
    }
    IndexOfAt(v[1..], '>', j);
  }

  /** A part of a tag-free text is tag-free. */
  lemma InfixKeepsNoTag(r: string, s: string, off: int)
    requires NoTag(s) && InfixAt(r, s, off)
    ensures NoTag(r)
  {
    forall i | 0 <= i < |r| ensures TagLength(r[i..]).None? {
      assert r[i..] <= s[off + i..];
      if TagLength(r[i..]).Some? {
        TagInPrefix(r[i..], s[off + i..]);
        assert false;
      }
    }
  }

  /** Lower-casing moves no '<' and no '>', so it neither makes nor breaks a match. */
  lemma LowerKeepsNoTag(s: string)
    requires NoTag(s)
    ensures NoTag(Lower(s))
  {
    forall i | 0 <= i < |s| ensures TagLength(Lower(s)[i..]).None? {
      var u := s[i..];
      assert Lower(s)[i..] == Lower(u);
      LowerKeepsCloser(u[1..]);
      assert Lower(u)[1..] == Lower(u[1..]);
      assert TagLength(u).None?;
    }
  }

  /** The first '>' of a text and of its lower-cased form are at the same place. */
  lemma LowerKeepsCloser(s: string)
    ensures IndexOf(Lower(s), '>') == IndexOf(s, '>')
  {
    assert forall k :: 0 <= k < |s| ==> (Lower(s)[k] == '>' <==> s[k] == '>');
    if '>' in s {
      var i := IndexOf(s, '>').value;
      assert '>' !in Lower(s)[..i] by {
        forall k | 0 <= k < i ensures Lower(s)[..i][k] != '>' {
          assert s[..i][k] == s[k];
        }
      }
      IndexOfAt(Lower(s), '>', i);
    } else {
      assert '>' !in Lower(s) by {
        forall k | 0 <= k < |s| ensures Lower(s)[k] != '>' {
          assert s[k] in s;
        }
      }
    }
  }

  /** Lower-casing leaves no capital letter and keeps a stripped text stripped and a
      single-spaced one single-spaced. */
  lemma LowerKeepsEnds(s: string)
    requires Stripped(s)
    ensures Stripped(Lower(s))
    ensures SingleSpaced(s) ==> SingleSpaced(Lower(s))
    ensures forall i :: 0 <= i < |s| ==> !('A' <= Lower(s)[i] <= 'Z')
  {
    if s != [] {
      assert Lower(s)[0] == LowerChar(s[0]);
      assert Lower(s)[|s| - 1] == LowerChar(s[|s| - 1]);
    }
  }

  // ---------------------------------------------------------------- trimming and post-processing

  /** `_trim_article_text`: the first 8000 characters; `None` counts as "". */
  function TrimArticleText(content: Option<string>): (r: string)
    ensures content.None? ==> r == ""
    ensures content.Some? ==> |r| == (if |content.value| < ArticleMaxChars then |content.value| else ArticleMaxChars)
                              && r == content.value[..|r|]
  {
    var s := content.GetOr("");
    if |s| <= ArticleMaxChars then s else s[..ArticleMaxChars]
  }

  /** content.py's `validate_url`: the helpers are the same code as the feed guard's, and
      `allowLocalhost = None` defers to the testing-mode option. */
  function ValidateUrl(url: UrlGuard.ParsedUrl, dns: UrlGuard.Resolution, allowLocalhost: Option<bool>, testingMode: bool)
    : (r: Option<Rejection>)
    ensures r == UrlGuard.ValidateFeedUrl(url, dns, allowLocalhost, testingMode)
    ensures allowLocalhost.None? ==> r == UrlGuard.ValidateFeedUrl(url, dns, Some(testingMode), testingMode)
  {
    var allow := if allowLocalhost.Some? then allowLocalhost.value else testingMode;
    match UrlGuard.CheckScheme(url)
    case Some(why) => Some(why)
    case None =>
      match UrlGuard.CheckHostname(url.hostname, allow)
      case Some(why) => Some(why)
      case None =>
        if dns.DnsFailure? then None else UrlGuard.CheckAddresses(dns.addresses, allow)
  }

  /** `extract_article`'s handling of what the fetch and the extractor return:
      every failure becomes `None`, and a result is never blank. */
  function ExtractArticle(url: string, target: UrlGuard.ParsedUrl, dns: UrlGuard.Resolution, testingMode: bool,
                          download: Attempt<Option<string>>, extraction: Attempt<Option<string>>): (r: Option<string>)
    ensures url == "" ==> r.None?
    ensures ValidateUrl(target, dns, None, testingMode).Some? ==> r.None?
    ensures r.Some? ==> r.value != "" && Stripped(r.value)
    ensures r.Some? ==> extraction.Returned? && extraction.value.Some?
                        && InfixAt(r.value, extraction.value.value, |extraction.value.value| - |TrimLeft(extraction.value.value, IsSpace)|)
  {
    if url == "" then None
    else if ValidateUrl(target, dns, None, testingMode).Some? then None
    else if download.Raised? || !Truthy(download.value) then None
    else if extraction.Raised? then None
    else
      var extracted := Strip(extraction.value.GetOr(""));
      if extracted == "" then None else Some(extracted)
  }

  /** `summarize_article_with_llm`'s decisions around the LLM call. */
  function SummarizeArticle(articleText: string, llmEnabled: bool, reply: LlmReply): (r: Option<string>)
    ensures !llmEnabled ==> r.None?
    ensures TrimArticleText(Some(StripHtml(articleText))) == "" ==> r.None?
    ensures r.Some? <==> llmEnabled && TrimArticleText(Some(StripHtml(articleText))) != "" && reply.Answered?
                         && Truthy(reply.text) && reply.json.JsonObject? && Strip(reply.json.summary.GetOr("")) != ""
    // the summary is the stripped `summary` value followed by the marker
    ensures r.Some? ==> r.value == Strip(reply.json.summary.GetOr("")) + AiMarker
    ensures r.Some? ==> |r.value| > |AiMarker| && Stripped(r.value[..|r.value| - |AiMarker|])
  {
    if !llmEnabled then None
    else
      var trimmed := TrimArticleText(Some(StripHtml(articleText)));
      if trimmed == "" then None
      else match reply
        case CallFailed => None
        case Answered(text, json) =>
          if !Truthy(text) then None
          else match json
            case NotJson => None
            case JsonObject(summary) =>
              var s := Strip(summary.GetOr(""));
              if s == "" then None else Some(s + AiMarker)
  }
}
