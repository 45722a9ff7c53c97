/** `doPrivmsg`: the per-message pipeline from a channel message to the
    replies the bot sends. The registry is a snapshot, the network and
    `html.unescape` are oracles, and the replies are returned in order
    instead of being sent. */
module Plugin {
  import opened Wrappers
  import opened UrlScan
  import opened Domains
  import opened Documents
  import opened Discovery
  import opened Formatter
  import opened UrlLoop

  /** The registry values the handler reads: the channels where the plugin
      is enabled (it is off by default) and the monitored domains. */
  datatype Config = Config(enabledChannels: set<string>, domains: seq<string>)

  /** Everything outside the plugin. `raises(url)` says that handling `url`
      raised an exception inside the per-URL `try` (for example while
      sending the reply); that URL then gets no reply. */
  datatype Env = Env(web: Web, unescape: string -> string, raises: string -> bool)

  /** The oEmbed reply for a URL on a monitored domain: a truthy payload
      that formats to a non-empty string. */
  function OEmbedReply(url: string, domain: string, cfg: Config, env: Env): (r: Option<string>)
    ensures r.Some? ==> IsMonitored(domain, cfg.domains) && r.value != ""
    ensures r.Some? ==> FetchOEmbed(url, env.web).Some? && FormatOEmbedResponse(FetchOEmbed(url, env.web).value, env.unescape) == r
    ensures var data := FetchOEmbed(url, env.web);
      (&& IsMonitored(domain, cfg.domains) && data.Some?
       && FormatOEmbedResponse(data.value, env.unescape).Some?
       && FormatOEmbedResponse(data.value, env.unescape).value != "") ==> r.Some?
  {
    if !IsMonitored(domain, cfg.domains) then None
    else match FetchOEmbed(url, env.web)
      case None => None
      case Some(data) =>
        if !Truthy(data) then None
        else match FormatOEmbedResponse(data, env.unescape)
          case None => None
          case Some(s) => if s != "" then Some(s) else None
  }

  /** The title fallback: `Title: ` and the page title, when that is
      non-empty. */
  function TitleReply(url: string, env: Env): (r: Option<string>)
    ensures r.Some? <==> GetPageTitle(url, env.web).Some? && GetPageTitle(url, env.web).value != ""
    ensures r.Some? ==> 7 <= |r.value| <= 7 + MaxTitleLength && r.value[..7] == "Title: "
    ensures r.Some? ==> r.value == "Title: " + GetPageTitle(url, env.web).value
  {
    match GetPageTitle(url, env.web)
    case Some(t) => if t != "" then Some("Title: " + t) else None
    case None => None
  }

  /** The body of the per-URL `try`: the oEmbed reply when there is one,
      otherwise the title fallback, which every URL gets, monitored or not.
      An exception inside the `try` means no reply for this URL. */
  function ReplyFor(url: string, domain: string, cfg: Config, env: Env): (r: Option<string>)
    ensures env.raises(url) ==> r.None?
    ensures !env.raises(url) && OEmbedReply(url, domain, cfg, env).Some? ==> r == OEmbedReply(url, domain, cfg, env)
    ensures !env.raises(url) && OEmbedReply(url, domain, cfg, env).None? ==> r == TitleReply(url, env)
  {
    if env.raises(url) then None
    else match OEmbedReply(url, domain, cfg, env)
      case Some(s) => Some(s)
      case None => TitleReply(url, env)
  }

  /** One iteration of the loop in `doPrivmsg`: the domain is computed
      outside the `try`, so its `ValueError` escapes; everything inside the
      `try` gives at most one reply. */
  function StepOf(cfg: Config, env: Env): (step: UrlStep)
    ensures forall url :: step(url).Err? <==> GetDomain(url).Err?
    ensures forall url :: GetDomain(url).Ok? ==> step(url) == Ok(ReplyFor(url, GetDomain(url).value, cfg, env))
  {
    url => match GetDomain(url)
           case Err(e) => Err(e)
           case Ok(d) => Ok(ReplyFor(url, d, cfg, env))
  }

  /** `target.startswith('#')`. */
  function IsChannel(target: string): (b: bool)
    ensures b <==> "#" <= target
  {
    |target| > 0 && target[0] == '#'
  }

  /** `doPrivmsg`: nothing outside an enabled channel; otherwise the replies
      for the URLs found in the text. */
  function DoPrivmsg(cfg: Config, target: string, text: string, env: Env): (replies: seq<string>)
    ensures !IsChannel(target) || target !in cfg.enabledChannels ==> replies == []
    ensures |replies| <= |ExtractUrls(text)|
  {
    if !IsChannel(target) then []
    else if target !in cfg.enabledChannels then []
    else RepliesFor(ExtractUrls(text), StepOf(cfg, env))
  }

  /** `doPrivmsg` as the source writes it: the channel checks, then the
      loop over the URLs. */
  method HandleMessage(cfg: Config, target: string, text: string, env: Env) returns (replies: seq<string>)
    ensures replies == DoPrivmsg(cfg, target, text, env)
  {
    if !IsChannel(target) || target !in cfg.enabledChannels {
      return [];
    }
    replies := RunLoop(ExtractUrls(text), StepOf(cfg, env));
  }

  /** An exception while handling one URL loses only that URL's reply: the
      URLs after it are still answered. */
  lemma RaisingUrlSkipped(urls: seq<string>, i: nat, cfg: Config, env: Env)
    requires i < |urls| && env.raises(urls[i])
    requires forall k :: 0 <= k <= i ==> GetDomain(urls[k]).Ok?
    ensures var step := StepOf(cfg, env);
      RepliesFor(urls, step) == RepliesFor(urls[..i], step) + RepliesFor(urls[i + 1..], step)
  {
    var step := StepOf(cfg, env);
    assert step(urls[i]) == Ok(None);
    SilentUrlSkipped(urls, i, step);
  }

  /** A URL whose domain is not monitored is answered from its page title
      only: whatever the oEmbed endpoints return makes no difference. */
  lemma UnmonitoredUsesTitle(url: string, domain: string, cfg: Config, env: Env, json: string -> Option<Payload>)
    requires !env.raises(url) && !IsMonitored(domain, cfg.domains)
    ensures ReplyFor(url, domain, cfg, env) == TitleReply(url, env)
    ensures ReplyFor(url, domain, cfg, env.(web := env.web.(fetchJson := json))) == ReplyFor(url, domain, cfg, env)
  {
  }

  /** The page with its title replaced. */
  function Retitle(page: Option<Page>, title: Option<string>): (r: Option<Page>)
    ensures r.Some? <==> page.Some?
    ensures r.Some? ==> r.value.links == page.value.links && r.value.title == title
  {
    match page
    case Some(p) => Some(p.(title := title))
    case None => None
  }

  /** When a monitored URL gets its oEmbed reply, the page title is never
      used: giving every page any other title changes nothing. */
  lemma OEmbedReplyIgnoresTitle(url: string, domain: string, cfg: Config, env: Env, title: Option<string>)
    requires !env.raises(url) && OEmbedReply(url, domain, cfg, env).Some?
    ensures var env2 := env.(web := env.web.(fetchPage := u => Retitle(env.web.fetchPage(u), title)));
      ReplyFor(url, domain, cfg, env2) == ReplyFor(url, domain, cfg, env)
  {
    var env2 := env.(web := env.web.(fetchPage := u => Retitle(env.web.fetchPage(u), title)));
    assert FetchOEmbed(url, env2.web) == FetchOEmbed(url, env.web);
  }
}
