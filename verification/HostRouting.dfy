// The host rules of apps/frontend/lib/host-routing.ts, as apps/frontend/middleware.ts applies them: each answer
// is either "serve the page" or an absolute https URL, which the browser then requests in turn.
module HostRouting {
  import opened Wrappers
  import opened JsText

  // ---------------------------------------------------------------------------------------------------
  // Hosts and paths
  // ---------------------------------------------------------------------------------------------------

  datatype Config = Config(appHost: string, marketingHost: string, backofficeHost: string)
  {
    function WwwHost(): string {
      "www." + marketingHost
    }
  }

  const DEFAULT_APP_HOST := "app.planwise.fr"
  const DEFAULT_MARKETING_HOST := "planwise.fr"
  const DEFAULT_BACKOFFICE_HOST := "backoffice.planwise.fr"

  function Configured(variable: Option<string>, fallback: string): string {
    if variable.Some? && Trim(variable.value) != "" then Trim(variable.value) else fallback
  }

  function ReadConfig(app: Option<string>, marketing: Option<string>, backoffice: Option<string>): Config {
    Config(Configured(app, DEFAULT_APP_HOST), Configured(marketing, DEFAULT_MARKETING_HOST),
           Configured(backoffice, DEFAULT_BACKOFFICE_HOST))
  }

  function LowerChar(c: char): char {
    if 'A' <= c <= 'Z' then ('a' as int + (c as int - 'A' as int)) as char else c
  }

  function ToLower(s: string): (r: string)
    ensures |r| == |s|
  {
    seq(|s|, i requires 0 <= i < |s| => LowerChar(s[i]))
  }

  function Normalized(host: string): string {
    ToLower(Split(host, ':')[0])
  }

  predicate IsLocalDevHost(host: string) {
    Normalized(host) == "localhost" || Normalized(host) == "127.0.0.1"
  }

  predicate IsMarketingHost(config: Config, host: string) {
    !IsLocalDevHost(Normalized(host)) && Normalized(host) in [config.marketingHost, config.WwwHost()]
  }

  predicate IsBackofficeHost(config: Config, host: string) {
    !IsLocalDevHost(Normalized(host)) && Normalized(host) == ToLower(config.backofficeHost)
  }

  predicate IsAppHost(config: Config, host: string) {
    !IsLocalDevHost(Normalized(host)) && Normalized(host) == ToLower(config.appHost)
  }

  const LEGAL_PATHS := ["/mentions-legales", "/politique-confidentialite", "/cgu", "/cgv", "/politique-cookies"]
  const MARKETING_CONTENT_PATHS := ["/tarifs"]
  const MARKETING_INFRA_PATHS := ["/robots.txt", "/sitemap.xml"]

  predicate IsMarketingPath(path: string) {
    path == "/" || path in LEGAL_PATHS || path in MARKETING_CONTENT_PATHS || path in MARKETING_INFRA_PATHS
  }

  predicate IsPlatformPath(path: string) {
    path == "/platform" || "/platform/" <= path
  }

  // ---------------------------------------------------------------------------------------------------
  // Routing
  // ---------------------------------------------------------------------------------------------------

  datatype Request = Request(host: string, path: string, search: string)

  datatype Routing = Next | Redirect(destination: string, permanent: bool)

  function Origin(host: string): string {
    "https://" + host
  }

  function ResolveHostRouting(config: Config, request: Request): Routing {
    var Request(host, path, search) := request;
    var normalizedHost := Normalized(host);
    if IsLocalDevHost(normalizedHost) then Next
    else if normalizedHost == config.WwwHost() then
      Redirect(Origin(config.marketingHost) + path + search, true)
    else if IsBackofficeHost(config, normalizedHost) then
      if path == "/" || path == "" then Redirect(Origin(config.backofficeHost) + "/platform", false)
      else if IsPlatformPath(path) then Next
      else Redirect(Origin(config.backofficeHost) + "/platform", false)
    else if IsAppHost(config, normalizedHost) && IsPlatformPath(path) then
      Redirect(Origin(config.backofficeHost) + path + search, false)
    else if IsMarketingHost(config, normalizedHost) then
      if IsMarketingPath(path) then Next
      else Redirect(Origin(config.appHost) + path + search, true)
    else Next
  }

  /** The longest prefix without a given character. */
  function Until(s: string, stops: string): (prefix: string)
    ensures prefix <= s
  {
    if s == "" || s[0] in stops then "" else [s[0]] + Until(s[1..], stops)
  }

  /** The request a browser makes for an https URL. */
  function RequestFor(url: string): Request
    requires "https://" <= url
  {
    var rest := url[8..];
    var host := Until(rest, "/?");
    var path := Until(rest[|host|..], "?");
    Request(host, path, rest[|host| + |path|..])
  }

  /** The request that a redirect leads to. */
  function Following(config: Config, request: Request): Option<Request> {
    match ResolveHostRouting(config, request)
    case Next => None
    case Redirect(destination, _) => Some(RequestFor(destination))
  }

  /** The request that is served, if that takes at most so many redirects. */
  function Served(config: Config, request: Request, redirects: nat): Option<Request>
    decreases redirects
  {
    match Following(config, request)
    case None => Some(request)
    case Some(next) => if redirects == 0 then None else Served(config, next, redirects - 1)
  }

  predicate IsRequest(request: Request) {
    && request.path != "" && request.path[0] == '/' && '?' !in request.path
    && (request.search == "" || request.search[0] == '?')
  }

  /** A host as it should be configured: lower-case, no port, no path, not a local one. */
  predicate IsPlainHost(host: string) {
    && (forall c <- host :: !('A' <= c <= 'Z') && c != ':' && c != '/' && c != '?')
    && host != "localhost" && host != "127.0.0.1"
  }

  predicate IsPlain(config: Config) {
    IsPlainHost(config.appHost) && IsPlainHost(config.marketingHost) && IsPlainHost(config.backofficeHost)
  }

  predicate IsDistinct(config: Config) {
    && config.appHost != config.marketingHost && config.appHost != config.WwwHost()
    && config.backofficeHost != config.marketingHost && config.backofficeHost != config.WwwHost()
    && config.appHost != config.backofficeHost
  }

  lemma DefaultHostsArePlain()
    ensures IsPlainHost(DEFAULT_APP_HOST) && IsPlainHost(DEFAULT_MARKETING_HOST)
    ensures IsPlainHost(DEFAULT_BACKOFFICE_HOST)
  {
    assert DEFAULT_APP_HOST[1] == 'p' && DEFAULT_MARKETING_HOST[1] == 'l' && DEFAULT_BACKOFFICE_HOST[1] == 'a';
    assert "localhost"[1] == 'o' && "127.0.0.1"[1] == '2';
  }

  /** The built-in hosts meet every requirement stated below. */
  lemma DefaultsArePlainAndDistinct()
    ensures IsPlain(ReadConfig(None, None, None)) && IsDistinct(ReadConfig(None, None, None))
  {
    DefaultHostsArePlain();
    hide IsPlainHost;
    var config := ReadConfig(None, None, None);
    assert |config.appHost| == 15 && |config.marketingHost| == 11 && |config.backofficeHost| == 22;
    assert |config.WwwHost()| == 15;
    assert config.WwwHost()[0] == 'w' && config.appHost[0] == 'a';
  }

  /** A configured host is used as it is typed, less the white space around it; a missing or blank one is replaced by
      the built-in host. */
  lemma ConfiguredHostsAreTrimmed(variable: Option<string>, fallback: string)
    ensures var host := Configured(variable, fallback);
            && (variable.None? || (forall c <- variable.value :: IsSpace(c)) ==> host == fallback)
            && (variable.Some? && (exists c <- variable.value :: !IsSpace(c)) ==>
                  && host != "" && Trimmed(host)
                  && exists before, after ::
                       && variable.value == before + host + after
                       && forall c <- before + after :: IsSpace(c))
  {
    if variable.Some? {
      TrimIsTrimmed(variable.value);
      var before, after := TrimSplits(variable.value);
    }
  }

  // ---------------------------------------------------------------------------------------------------
  // Texts
  // ---------------------------------------------------------------------------------------------------

  lemma NormalizedTwice(host: string)
    ensures Normalized(Normalized(host)) == Normalized(host)
  {
    SplitPartsAreFree(host, ':');
    var part := Split(host, ':')[0];
    assert part in Split(host, ':');
    assert ':' !in ToLower(part);
    SplitFirst(ToLower(part), "", ':');
    assert ToLower(ToLower(part)) == ToLower(part);
  }

  lemma PlainIsNormalized(host: string)
    requires IsPlainHost(host)
    ensures Normalized(host) == host && ToLower(host) == host && !IsLocalDevHost(host)
  {
    SplitFirst(host, "", ':');
    forall i | 0 <= i < |host| ensures LowerChar(host[i]) == host[i] {
      assert host[i] in host;
    }
    assert ToLower(host) == host;
  }

  lemma WwwIsPlain(config: Config)
    requires IsPlain(config)
    ensures IsPlainHost(config.WwwHost())
    ensures config.WwwHost() != config.marketingHost
  {
    assert config.WwwHost()[0] == 'w' && "localhost"[0] == 'l' && "127.0.0.1"[0] == '1';
    assert |config.WwwHost()| == |config.marketingHost| + 4;
  }

  lemma {:induction false} UntilStops(s: string, rest: string, stops: string)
    requires forall c <- s :: c !in stops
    requires rest == "" || rest[0] in stops
    ensures Until(s + rest, stops) == s
  {
    if s == "" {
      assert s + rest == rest;
    } else {
      UntilStops(s[1..], rest, stops);
      assert (s + rest)[1..] == s[1..] + rest;
    }
  }

  /** The browser reads a redirect back into the host, path and query it was built from. */
  lemma DestinationIsRead(host: string, path: string, search: string)
    requires IsPlainHost(host) && IsRequest(Request(host, path, search))
    ensures RequestFor(Origin(host) + path + search) == Request(host, path, search)
  {
    var url := Origin(host) + path + search;
    assert url[8..] == host + (path + search);
    UntilStops(host, path + search, "/?");
    assert (host + (path + search))[|host|..] == path + search;
    UntilStops(path, search, "?");
    assert (host + (path + search))[|host| + |path|..] == search;
  }

  // ---------------------------------------------------------------------------------------------------
  // One hop
  // ---------------------------------------------------------------------------------------------------

  /** The rules on hosts, paths and queries: www, marketing and app hops keep the path and the query, the
      backoffice sends everything else to its own /platform. */
  ghost function Hop(config: Config, request: Request): Option<Request> {
    var Request(_, path, search) := request;
    var host := Normalized(request.host);
    if host == config.WwwHost() then Some(Request(config.marketingHost, path, search))
    else if host == config.backofficeHost then
      if IsPlatformPath(path) then None else Some(Request(config.backofficeHost, "/platform", ""))
    else if host == config.appHost && IsPlatformPath(path) then Some(Request(config.backofficeHost, path, search))
    else if host == config.marketingHost && !IsMarketingPath(path) then Some(Request(config.appHost, path, search))
    else None
  }

  lemma HostsAreNormalized(config: Config)
    requires IsPlain(config)
    ensures forall host <- [config.appHost, config.marketingHost, config.backofficeHost, config.WwwHost()] ::
              Normalized(host) == host && ToLower(host) == host && !IsLocalDevHost(host)
    ensures config.WwwHost() != config.marketingHost
  {
    PlainIsNormalized(config.appHost);
    PlainIsNormalized(config.marketingHost);
    PlainIsNormalized(config.backofficeHost);
    WwwIsPlain(config);
    PlainIsNormalized(config.WwwHost());
  }

  lemma RoutingIsHop(config: Config, request: Request)
    requires IsPlain(config)
    ensures match Hop(config, request)
            case None => ResolveHostRouting(config, request) == Next
            case Some(next) =>
              && ResolveHostRouting(config, request).Redirect?
              && ResolveHostRouting(config, request).destination == Origin(next.host) + next.path + next.search
  {
    NormalizedTwice(request.host);
    HostsAreNormalized(config);
    assert Origin(config.backofficeHost) + "/platform" + "" == Origin(config.backofficeHost) + "/platform";
    hide Normalized, ToLower, Origin, IsPlainHost, IsMarketingPath;
  }

  predicate IsPublicPage(path: string) {
    path in ["/", "/mentions-legales", "/politique-confidentialite", "/cgu", "/cgv", "/politique-cookies", "/tarifs",
             "/robots.txt", "/sitemap.xml"]
  }

  lemma MarketingPathsArePublic(path: string)
    ensures IsMarketingPath(path) <==> IsPublicPage(path)
  {
  }

  /** The marketing host serves nine pages and sends every other one to the app for good; the redirects of the
      marketing host and its www host are the permanent ones. */
  lemma MarketingHostServesNinePages(config: Config, request: Request)
    requires IsPlain(config) && IsDistinct(config)
    ensures Normalized(request.host) == config.marketingHost ==>
              ResolveHostRouting(config, request)
              == if IsPublicPage(request.path) then Next
                 else Redirect("https://" + config.appHost + request.path + request.search, true)
    ensures var routing := ResolveHostRouting(config, request);
            routing.Redirect? ==>
              (routing.permanent <==> Normalized(request.host) in [config.marketingHost, config.WwwHost()])
  {
    NormalizedTwice(request.host);
    HostsAreNormalized(config);
    MarketingPathsArePublic(request.path);
    hide Normalized, ToLower, IsPlainHost, IsMarketingPath, IsPublicPage, IsPlatformPath;
  }

  /** The same host name as one in lower case, whatever its case. */
  predicate SameName(host: string, plain: string) {
    && |host| == |plain|
    && forall i :: 0 <= i < |host| ==>
         host[i] == plain[i] || ('A' <= host[i] <= 'Z' && host[i] as int + 32 == plain[i] as int)
  }

  lemma SameNameIsNormalized(host: string, plain: string, port: string)
    requires IsPlainHost(plain) && SameName(host, plain)
    ensures Normalized(host) == plain && Normalized(host + ":" + port) == plain
  {
    forall i | 0 <= i < |host| ensures host[i] != ':' && LowerChar(host[i]) == plain[i] {
      assert plain[i] in plain;
    }
    assert ToLower(host) == plain;
    SplitFirst(host, port, ':');
    assert host + ":" + port == host + [':'] + port;
  }

  /** Neither the case of the host nor a port changes where a request is sent. */
  lemma CaseAndPortDoNotMatter(config: Config, host: string, plain: string, port: string, path: string, search: string)
    requires IsPlainHost(plain) && SameName(host, plain)
    ensures ResolveHostRouting(config, Request(host + ":" + port, path, search))
         == ResolveHostRouting(config, Request(host, path, search))
         == ResolveHostRouting(config, Request(plain, path, search))
  {
    SameNameIsNormalized(host, plain, port);
    SameNameIsNormalized(plain, plain, port);
    hide Normalized, ToLower, IsPlainHost, SameName, IsMarketingPath, IsPlatformPath;
  }

  /** On a development machine every page is served as it is. */
  lemma LocalHostsAreServed(config: Config, local: string, port: string, path: string, search: string)
    requires local in ["localhost", "127.0.0.1"]
    ensures ResolveHostRouting(config, Request(local, path, search)) == Next
    ensures ResolveHostRouting(config, Request(local + ":" + port, path, search)) == Next
  {
    assert forall c <- "localhost" :: c != ':' && !('A' <= c <= 'Z');
    assert forall c <- "127.0.0.1" :: c != ':' && !('A' <= c <= 'Z');
    LowerCaseIsNormalized(local, port);
    hide Normalized, ToLower, Split, IsMarketingHost, IsBackofficeHost, IsAppHost;
    assert IsLocalDevHost(local);
  }

  lemma LowerCaseIsNormalized(host: string, port: string)
    requires forall c <- host :: c != ':' && !('A' <= c <= 'Z')
    ensures Normalized(host) == host && Normalized(host + ":" + port) == host
  {
    SplitFirst(host, port, ':');
    assert host + ":" + port == host + [':'] + port;
    forall i | 0 <= i < |host| ensures LowerChar(host[i]) == host[i] {
      assert host[i] in host;
    }
    assert ToLower(host) == host;
  }

  lemma HopIsRequest(config: Config, request: Request)
    requires IsPlain(config) && IsRequest(request) && Hop(config, request).Some?
    ensures IsRequest(Hop(config, request).value) && IsPlainHost(Hop(config, request).value.host)
  {
    hide Normalized, IsPlainHost, IsMarketingPath;
    assert '?' !in "/platform" && "/platform"[0] == '/';
  }

  lemma FollowingIsHop(config: Config, request: Request)
    requires IsPlain(config) && IsRequest(request)
    ensures Following(config, request) == Hop(config, request)
    ensures Hop(config, request).Some? ==> IsRequest(Hop(config, request).value)
  {
    RoutingIsHop(config, request);
    hide ResolveHostRouting, Hop, RequestFor, Origin, IsPlain, IsPlainHost, IsRequest;
    match Hop(config, request)
    case None =>
    case Some(next) =>
      HopIsRequest(config, request);
      DestinationIsRead(next.host, next.path, next.search);
  }

  // ---------------------------------------------------------------------------------------------------
  // Termination
  // ---------------------------------------------------------------------------------------------------

  /** The configurations whose redirects cannot go round in a circle. */
  predicate IsAcyclic(config: Config) {
    || config.backofficeHost == config.marketingHost
    || (&& config.backofficeHost != config.WwwHost()
        && config.appHost != config.marketingHost && config.appHost != config.WwwHost())
  }

  const MAX_REDIRECTS := 3

  /** How many redirects a request is away from being served, at most. */
  ghost function Stage(config: Config, request: Request): (stage: nat)
    ensures stage <= MAX_REDIRECTS
  {
    var host := Normalized(request.host);
    if host == config.WwwHost() then 3
    else if host == config.backofficeHost then (if IsPlatformPath(request.path) then 0 else 1)
    else if host == config.marketingHost then 2
    else if host == config.appHost && IsPlatformPath(request.path) then 1
    else 0
  }

  lemma HopsDescend(config: Config, request: Request)
    requires IsPlain(config) && IsAcyclic(config) && Hop(config, request).Some?
    ensures Stage(config, Hop(config, request).value) < Stage(config, request)
  {
    HostsAreNormalized(config);
    hide Normalized, IsPlainHost, IsMarketingPath;
  }

  lemma {:induction false} ServedWithinStage(config: Config, request: Request, redirects: nat)
    requires IsPlain(config) && IsAcyclic(config) && IsRequest(request)
    requires Stage(config, request) <= redirects
    ensures Served(config, request, redirects).Some?
    decreases redirects
  {
    hide Following, Hop, Stage, IsPlain, IsAcyclic, IsRequest;
    FollowingIsHop(config, request);
    if Following(config, request).Some? {
      HopsDescend(config, request);
      ServedWithinStage(config, Following(config, request).value, redirects - 1);
    }
  }

  /** A request on a cyclic configuration that goes round for ever. */
  ghost predicate IsTrapped(config: Config, request: Request) {
    && !IsAcyclic(config) && request.search == ""
    && if config.backofficeHost == config.WwwHost() then
         && request.path == "/platform"
         && request.host in {config.marketingHost, config.WwwHost(), config.appHost}
       else
         && request.path == "/planning"
         && request.host in {config.marketingHost, config.WwwHost()}
  }

  lemma PagesOfTheApp()
    ensures !IsMarketingPath("/platform") && !IsMarketingPath("/planning") && !IsPlatformPath("/planning")
    ensures IsPlatformPath("/platform")
    ensures '?' !in "/platform" && '?' !in "/planning"
  {
    assert |"/platform"| == 9 && |"/planning"| == 9;
    assert forall path <- LEGAL_PATHS + MARKETING_CONTENT_PATHS + MARKETING_INFRA_PATHS :: |path| != 9;
    assert "/platform"[2] == 'l' && "/planning"[2] == 'l' && "/platform"[3] == 'a' && "/platform"[4] == 't'
           && "/planning"[4] == 'n';
  }

  lemma TrappedStaysTrapped(config: Config, request: Request)
    requires IsPlain(config) && IsTrapped(config, request)
    ensures IsRequest(request)
    ensures Hop(config, request).Some? && IsTrapped(config, Hop(config, request).value)
  {
    PagesOfTheApp();
    HostsAreNormalized(config);
    hide Normalized, IsPlainHost, IsMarketingPath, IsPlatformPath;
  }

  lemma {:induction false} TrappedIsNeverServed(config: Config, request: Request, redirects: nat)
    requires IsPlain(config) && IsTrapped(config, request)
    ensures Served(config, request, redirects).None?
    decreases redirects
  {
    hide Following, Hop, IsTrapped, IsPlain, IsRequest;
    TrappedStaysTrapped(config, request);
    FollowingIsHop(config, request);
    if redirects > 0 {
      TrappedIsNeverServed(config, Following(config, request).value, redirects - 1);
    }
  }

  /** Every request is served after at most three redirects exactly when the configured hosts are acyclic; when
      they are not, some request is redirected for ever. */
  lemma RedirectsEndExactly(config: Config)
    requires IsPlain(config)
    ensures IsAcyclic(config) ==>
              forall request | IsRequest(request) :: Served(config, request, MAX_REDIRECTS).Some?
    ensures !IsAcyclic(config) ==>
              exists request :: IsRequest(request) && forall n: nat :: Served(config, request, n).None?
  {
    if IsAcyclic(config) {
      forall request | IsRequest(request) ensures Served(config, request, MAX_REDIRECTS).Some? {
        ServedWithinStage(config, request, MAX_REDIRECTS);
      }
    } else {
      var path := if config.backofficeHost == config.WwwHost() then "/platform" else "/planning";
      var request := Request(config.marketingHost, path, "");
      TrappedStaysTrapped(config, request);
      forall n: nat ensures Served(config, request, n).None? {
        TrappedIsNeverServed(config, request, n);
      }
    }
  }

  // ---------------------------------------------------------------------------------------------------
  // Where a visitor lands
  // ---------------------------------------------------------------------------------------------------

  /** The documented destination: public pages on the marketing host, platform pages on the backoffice, the rest
      on the app. */
  ghost function Landing(config: Config, request: Request): Request {
    var Request(_, path, search) := request;
    var host := Normalized(request.host);
    if host in {config.marketingHost, config.WwwHost()} then
      if IsMarketingPath(path) then Request(config.marketingHost, path, search)
      else if IsPlatformPath(path) then Request(config.backofficeHost, path, search)
      else Request(config.appHost, path, search)
    else if host == config.appHost && IsPlatformPath(path) then Request(config.backofficeHost, path, search)
    else if host == config.backofficeHost && !IsPlatformPath(path) then Request(config.backofficeHost, "/platform", "")
    else Request(host, path, search)
  }

  lemma PlatformPathsStart(path: string)
    requires IsPlatformPath(path)
    ensures |path| >= 9 && path[1] == 'p' && path[2] == 'l'
  {
    assert "/platform"[2] == 'l' && "/platform/"[1] == 'p' && "/platform/"[2] == 'l';
  }

  lemma MarketingPathsStart(path: string)
    requires IsMarketingPath(path)
    ensures |path| < 9 || path[1] != 'p' || path[2] != 'l'
  {
    assert forall p <- LEGAL_PATHS + MARKETING_CONTENT_PATHS + MARKETING_INFRA_PATHS ::
        |p| < 9 || p[1] != 'p' || p[2] != 'l';
  }

  lemma MarketingPagesAreNotPlatform(path: string)
    requires IsMarketingPath(path)
    ensures !IsPlatformPath(path)
  {
    MarketingPathsStart(path);
    hide IsMarketingPath;
    if IsPlatformPath(path) {
      PlatformPathsStart(path);
    }
  }

  lemma LandingIsReached(config: Config, request: Request)
    requires IsPlain(config) && IsDistinct(config)
    ensures match Hop(config, request)
            case None => Landing(config, request) == request.(host := Normalized(request.host))
            case Some(next) => Landing(config, next) == Landing(config, request)
  {
    PagesOfTheApp();
    HostsAreNormalized(config);
    if IsMarketingPath(request.path) {
      MarketingPagesAreNotPlatform(request.path);
    }
    hide Normalized, IsPlainHost, IsMarketingPath, IsPlatformPath;
  }

  lemma {:induction false} ServedIsLanding(config: Config, request: Request, redirects: nat)
    requires IsPlain(config) && IsDistinct(config) && IsRequest(request)
    requires Served(config, request, redirects).Some?
    ensures var served := Served(config, request, redirects).value;
            served.(host := Normalized(served.host)) == Landing(config, request)
    decreases redirects
  {
    hide Following, Hop, Landing, IsRequest, Normalized, IsPlain, IsDistinct;
    FollowingIsHop(config, request);
    LandingIsReached(config, request);
    if Following(config, request).Some? {
      ServedIsLanding(config, Following(config, request).value, redirects - 1);
    }
  }

  /** With distinct hosts every visitor is served the documented page, after at most three redirects. */
  lemma VisitorsLandWhereDocumented(config: Config, request: Request)
    requires IsPlain(config) && IsDistinct(config) && IsRequest(request)
    ensures Served(config, request, MAX_REDIRECTS).Some?
    ensures var served := Served(config, request, MAX_REDIRECTS).value;
            served.(host := Normalized(served.host)) == Landing(config, request)
  {
    ServedWithinStage(config, request, MAX_REDIRECTS);
    ServedIsLanding(config, request, MAX_REDIRECTS);
  }

  /** Three redirects are needed: a platform page asked of the www host visits all four hosts. */
  lemma ThreeRedirectsAreNeeded(config: Config, search: string)
    requires IsPlain(config) && IsDistinct(config) && (search == "" || search[0] == '?')
    ensures Served(config, Request(config.WwwHost(), "/platform", search), 2).None?
  {
    PagesOfTheApp();
    HostsAreNormalized(config);
    hide Following, Normalized, IsPlain, IsPlainHost, IsMarketingPath, IsPlatformPath;
    var www := Request(config.WwwHost(), "/platform", search);
    var app := www.(host := config.appHost);
    assert Served(config, app, 0).None? by {
      FollowingIsHop(config, app);
    }
    var marketing := www.(host := config.marketingHost);
    assert Served(config, marketing, 1).None? by {
      FollowingIsHop(config, marketing);
    }
    FollowingIsHop(config, www);
  }
}
