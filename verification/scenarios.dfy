/** Whole-message walk-throughs: a post link in a channel message, from the
    message text to the reply. */
module Scenarios {
  import opened Wrappers
  import opened PyStr
  import opened UrlScan
  import opened Domains
  import opened Timestamps
  import opened Documents
  import opened Content
  import opened Discovery
  import opened Formatter
  import opened UrlLoop
  import opened Plugin

  /** A match starts with `http`. */
  lemma MatchStartsWithHttp(text: string, p: nat, e: nat)
    ensures IsMatch(text, p, e) ==>
      p + 4 <= |text| && text[p] == 'h' && text[p + 1] == 't' && text[p + 2] == 't' && text[p + 3] == 'p'
  {
    if IsMatch(text, p, e) {
      var u := text[p..e];
      assert u[0] == text[p] && u[1] == text[p + 1] && u[2] == text[p + 2] && u[3] == text[p + 3];
    }
  }

  /** No match can start where `http` is not spelled out. */
  lemma NoMatchWithoutHttp(text: string, p: nat)
    requires p < |text|
    requires !(p + 4 <= |text| && text[p] == 'h' && text[p + 1] == 't' && text[p + 2] == 't' && text[p + 3] == 'p')
    ensures !StartsMatch(text, p)
  {
    forall e: nat
      ensures !IsMatch(text, p, e)
    {
      MatchStartsWithHttp(text, p, e);
    }
  }

  /** The link in the example message has the URL shape. */
  lemma PostUrlShape(u: string)
    requires u == "https://bsky.app/profile/x/post/1"
    ensures UrlShape(u)
  {
    assert "https://" <= u;
    assert forall k :: 8 <= k < |u| ==> IsUrlChar(u[k]);
  }

  /** In the example message the pattern matches from the link to the end
      of the message. */
  lemma MessageUrlMatch(prefix: string, url: string)
    requires prefix == "check this " && url == "https://bsky.app/profile/x/post/1"
    ensures IsMatch(prefix + url, 11, |prefix + url|)
  {
    var text := prefix + url;
    PostUrlShape(url);
    assert text[11..|text|] == url;
  }

  /** Nothing before the link in the example message starts a match. */
  lemma NoEarlyMatch(prefix: string, url: string)
    requires prefix == "check this " && url == "https://bsky.app/profile/x/post/1"
    ensures forall p :: 0 <= p < 11 ==> !StartsMatch(prefix + url, p)
  {
    var text := prefix + url;
    assert forall p :: 0 <= p < 11 ==> text[p] == prefix[p];
    assert text[11] == 'h';
    assert prefix[1] == 'h' && prefix[2] == 'e' && prefix[7] == 'h' && prefix[8] == 'i';
    assert forall p :: 0 <= p < 11 && p != 1 && p != 7 ==> prefix[p] != 'h';
    forall p | 0 <= p < 11
      ensures !StartsMatch(text, p)
    {
      NoMatchWithoutHttp(text, p);
    }
  }

  /** The one span of the example message is a findall result. */
  lemma MessageSpans(prefix: string, url: string)
    requires prefix == "check this " && url == "https://bsky.app/profile/x/post/1"
    ensures IsFindAll(prefix + url, [Span(11, |prefix + url|)])
  {
    var text := prefix + url;
    var spans := [Span(11, |text|)];
    MessageUrlMatch(prefix, url);
    NoEarlyMatch(prefix, url);
    forall p | 0 <= p < |text| && StartsMatch(text, p)
      ensures Covered(spans, p)
    {
      assert spans[0].start <= p < spans[0].end;
    }
  }

  /** The one URL in the example message `check this <link>` is found, and
      it runs to the end of the message. */
  lemma MessageUrls(prefix: string, url: string)
    requires prefix == "check this " && url == "https://bsky.app/profile/x/post/1"
    ensures ExtractUrls(prefix + url) == [url]
  {
    var text := prefix + url;
    MessageSpans(prefix, url);
    FindAllIsScan(text, [Span(11, |text|)]);
    assert text[11..|text|] == url;
  }

  /** The post link cut into scheme, host and path. */
  lemma PostUrlParts(u: string)
    requires u == "https://bsky.app/profile/x/post/1"
    ensures u == "https://" + "bsky.app" + "/profile/x/post/1"
  {
  }

  /** The post link's path is made of URL characters. */
  lemma PostPath(path: string)
    requires path == "/profile/x/post/1"
    ensures forall j :: 0 <= j < |path| ==> UrlScan.IsUrlChar(path[j])
  {
  }

  /** The post link's domain is the bare host name. */
  lemma PostDomain(u: string)
    requires u == "https://bsky.app/profile/x/post/1"
    ensures GetDomain(u) == Ok("bsky.app")
  {
    PostUrlParts(u);
    PlainHost("bsky.app");
    PostPath("/profile/x/post/1");
    DomainOfParts("https://", "bsky.app", "/profile/x/post/1");
  }

  /** The example link cut into its prefix and its time stamp. */
  lemma HrefParts(h: string)
    requires h == "x/2024-01-01T12:00:00.000Z"
    ensures h == "x/" + "2024-01-01T12:00:00.000Z"
  {
  }

  /** The example paragraph and page title have no surrounding whitespace. */
  lemma PostTextStripped(p: string)
    requires p == "Hello world" || p == "Example"
    ensures Strip(p) == p
  {
    assert LeadingSpace(p) == 0;
    assert TrailingSpace(p[0..]) == 0;
  }

  /** In the example link the time stamp pattern first matches after the
      two-character prefix. */
  lemma PostTimestampAt(prefix: string, ts: string)
    requires prefix == "x/" && ts == "2024-01-01T12:00:00.000Z"
    ensures FindTimestampFrom(prefix + ts, 0) == Some(2)
    ensures (prefix + ts)[2..26] == ts
  {
    var h := prefix + ts;
    assert h[2..26] == ts;
    ExampleShape(ts);
    assert TimestampAt(h, 2);
    assert !TimestampAt(h, 0) by {
      assert h[0..24][4] == h[4] == ts[2];
    }
    assert !TimestampAt(h, 1) by {
      assert h[1..25][4] == h[5] == ts[3];
    }
  }

  /** The time stamp in the example link, reformatted. */
  lemma PostTimestamp(prefix: string, ts: string)
    requires prefix == "x/" && ts == "2024-01-01T12:00:00.000Z"
    ensures TimestampOf(prefix + ts) == "2024-01-01 12:00 UTC"
  {
    PostTimestampAt(prefix, ts);
    assert SearchTimestamp(prefix + ts) == Some(ts);
    ValidDateReformatted(ts);
  }

  /** The post text and the reformatted time stamp of the example fragment. */
  lemma PostContent(f: Fragment)
    requires f == Fragment(Some("Hello world"), [Anchor(Some("x/2024-01-01T12:00:00.000Z"))])
    ensures ParseHtmlContent(f) == Some(Extracted("Hello world", "2024-01-01 12:00 UTC"))
  {
    PostTextStripped("Hello world");
    HrefParts("x/2024-01-01T12:00:00.000Z");
    PostTimestamp("x/", "2024-01-01T12:00:00.000Z");
    assert LastHref(f) == Some("x/2024-01-01T12:00:00.000Z");
  }

  /** The example post text is already normal. */
  lemma HelloWorldNormal(t: string)
    requires t == "Hello world"
    ensures Normalize(t) == t
  {
    assert forall k :: 0 <= k < |t| && k != 5 ==> 'A' <= t[k] <= 'z';
    assert WellSpaced(t) by {
      forall i | 0 <= i < |t| - 1
        ensures !SpacePair(t, i)
      {
        assert i != 5 || i + 1 != 5;
      }
    }
    NormalizeFixedPoints(t);
  }

  /** The example's three parts laid out. */
  lemma PostLayout()
    ensures Layout(true, "Hello world", true, "-- " + "Alice", true, "(" + "2024-01-01 12:00 UTC" + ")")
         == "Hello world -- Alice (2024-01-01 12:00 UTC)"
  {
    calc {
      Layout(true, "Hello world", true, "-- " + "Alice", true, "(" + "2024-01-01 12:00 UTC" + ")");
      "Hello world" + " " + ("-- " + "Alice") + " " + ("(" + "2024-01-01 12:00 UTC" + ")");
      { assert "-- " + "Alice" == "-- Alice";
        assert "(" + "2024-01-01 12:00 UTC" + ")" == "(2024-01-01 12:00 UTC)"; }
      "Hello world" + " " + "-- Alice" + " " + "(2024-01-01 12:00 UTC)";
      { assert "Hello world" + " " + "-- Alice" == "Hello world -- Alice"; }
      "Hello world -- Alice" + " " + "(2024-01-01 12:00 UTC)";
    }
  }

  /** What the extractor finds in the example payload. */
  lemma PostParsed(data: Payload)
    requires data == JsonObject(Some(Fragment(Some("Hello world"), [Anchor(Some("x/2024-01-01T12:00:00.000Z"))])),
                                Some("Alice"), false)
    ensures Truthy(data) && HasAuthor(data)
    ensures ParseHtmlContent(HtmlOf(data)) == Some(Extracted("Hello world", "2024-01-01 12:00 UTC"))
  {
    PostContent(data.html.value);
  }

  /** The example payload formats to text, author and time. */
  lemma PostReply(data: Payload, unescape: string -> string)
    requires data == JsonObject(Some(Fragment(Some("Hello world"), [Anchor(Some("x/2024-01-01T12:00:00.000Z"))])),
                                Some("Alice"), false)
    requires unescape("Hello world") == "Hello world"
    ensures FormatOEmbedResponse(data, unescape) == Some("Hello world -- Alice (2024-01-01 12:00 UTC)")
  {
    PostParsed(data);
    HelloWorldNormal("Hello world");
    assert TextPart("Hello world", unescape) == "Hello world";
    ReplyLayout(data, unescape);
    PostLayout();
  }

  /** The loop over a single URL. */
  lemma OneUrl(url: string, step: UrlStep)
    ensures step(url).Ok? ==> RepliesFor([url], step) == AsSeq(step(url).value)
  {
    assert [url][1..] == [];
  }

  /** The message's only URL, answered by the per-URL step. */
  lemma SingleUrlMessage(cfg: Config, target: string, prefix: string, url: string, env: Env, reply: Option<string>)
    requires prefix == "check this " && url == "https://bsky.app/profile/x/post/1"
    requires IsChannel(target) && target in cfg.enabledChannels
    requires ReplyFor(url, "bsky.app", cfg, env) == reply
    ensures DoPrivmsg(cfg, target, prefix + url, env) == AsSeq(reply)
  {
    MessageUrls(prefix, url);
    PostDomain(url);
    var step := StepOf(cfg, env);
    assert step(url) == Ok(reply);
    OneUrl(url, step);
  }

  /** A post link in an enabled channel, on a monitored domain whose page
      advertises a JSON oEmbed endpoint: the reply is the post text, its
      author and its reformatted time. */
  lemma PostScenario(cfg: Config, env: Env, prefix: string, url: string, endpoint: string, data: Payload)
    requires prefix == "check this " && url == "https://bsky.app/profile/x/post/1"
    requires cfg.domains == ["bsky.app"] && "#chan" in cfg.enabledChannels
    requires env.web.fetchPage(url) == Some(Page([Link(Some("application/json+oembed"), Some(endpoint))], None))
    requires env.web.fetchJson(endpoint) == Some(data)
    requires data == JsonObject(Some(Fragment(Some("Hello world"), [Anchor(Some("x/2024-01-01T12:00:00.000Z"))])),
                                Some("Alice"), false)
    requires env.unescape("Hello world") == "Hello world" && !env.raises(url)
    ensures DoPrivmsg(cfg, "#chan", prefix + url, env) == ["Hello world -- Alice (2024-01-01 12:00 UTC)"]
  {
    var reply := "Hello world -- Alice (2024-01-01 12:00 UTC)";
    PostDiscovery(url, env.web, endpoint);
    PostReply(data, env.unescape);
    assert OEmbedReply(url, "bsky.app", cfg, env) == Some(reply);
    SingleUrlMessage(cfg, "#chan", prefix, url, env, Some(reply));
  }

  /** A page whose one `<link>` has the JSON oEmbed type leads to the
      payload at that link's `href`. */
  lemma PostDiscovery(url: string, web: Web, endpoint: string)
    requires web.fetchPage(url) == Some(Page([Link(Some("application/json+oembed"), Some(endpoint))], None))
    ensures FetchOEmbed(url, web) == web.fetchJson(endpoint)
  {
    assert Contains("application/json+oembed", "application/json+oembed");
    assert SelectOEmbedLink(web.fetchPage(url).value.links) == Some(0);
  }

  /** The same link on a domain nobody monitors is answered with the page
      title. */
  lemma TitleScenario(cfg: Config, env: Env, prefix: string, url: string)
    requires prefix == "check this " && url == "https://bsky.app/profile/x/post/1"
    requires cfg.domains == [] && "#chan" in cfg.enabledChannels
    requires env.web.fetchPage(url) == Some(Page([], Some("Example")))
    requires !env.raises(url)
    ensures DoPrivmsg(cfg, "#chan", prefix + url, env) == ["Title: Example"]
  {
    ExampleTitle(url, env);
    assert !IsMonitored("bsky.app", cfg.domains);
    assert OEmbedReply(url, "bsky.app", cfg, env).None?;
    SingleUrlMessage(cfg, "#chan", prefix, url, env, Some("Title: Example"));
  }

  /** A page titled `Example` gives the reply `Title: Example`. */
  lemma ExampleTitle(url: string, env: Env)
    requires env.web.fetchPage(url) == Some(Page([], Some("Example")))
    ensures TitleReply(url, env) == Some("Title: Example")
  {
    PostTextStripped("Example");
    assert GetPageTitle(url, env.web) == Some("Example");
    assert "Title: " + "Example" == "Title: Example";
  }

  /** When the page cannot be fetched, neither oEmbed nor the title
      fallback has anything to say. */
  lemma UnreachableScenario(cfg: Config, env: Env, prefix: string, url: string)
    requires prefix == "check this " && url == "https://bsky.app/profile/x/post/1"
    requires "#chan" in cfg.enabledChannels
    requires env.web.fetchPage(url) == None
    ensures DoPrivmsg(cfg, "#chan", prefix + url, env) == []
  {
    SingleUrlMessage(cfg, "#chan", prefix, url, env, None);
  }
}
