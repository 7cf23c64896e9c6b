/**
 * `ComprehensiveAntiDetectionMiddleware` (`comprehensive_middleware.py`): a pool of
 * proxies with a health record per proxy, a round-robin cursor that skips sleeping and
 * failing proxies, a fail-open reset when every proxy is out, a sticky user agent and
 * a cookie jar per proxy, and error bookkeeping on responses and exceptions.
 *
 * The clock is the parameter `now` (whole seconds), and the random choice of a user
 * agent is a nondeterministic pick from the list.
 */
module ProxyHealth {
  import opened Common
  import opened Str
  import opened RoundRobin

  /** The health record of one proxy (`proxy_stats[proxy]`). */
  datatype Health = Health(
    requests: nat, errors: nat, lastUsed: int, sleepUntil: int,
    consecutiveErrors: nat, totalSleepTime: nat, sessionCookies: map<string, string>,
    currentUserAgent: Option<string>, lastSuccess: int, blockedCount: nat)

  /** The record a proxy gets on first access. */
  const FreshHealth: Health := Health(0, 0, 0, 0, 0, 0, map[], None, 0, 0)

  /** Statuses that count as a block or failure. */
  const FailureStatuses: set<int> := {403, 429, 503, 502, 504}

  /** How long a failing proxy sleeps, in minutes. */
  const FailureSleepMinutes: nat := 10

  /** The error count at which a proxy is skipped. */
  const MaxConsecutiveErrors: nat := 3

  const UserAgents: seq<string> := [
    "Mozilla/5.0 (Windows NT 10.0; Win64; x64) AppleWebKit/537.36 (KHTML, like Gecko) Chrome/120.0.0.0 Safari/537.36",
    "Mozilla/5.0 (Windows NT 10.0; Win64; x64) AppleWebKit/537.36 (KHTML, like Gecko) Chrome/119.0.0.0 Safari/537.36",
    "Mozilla/5.0 (Windows NT 10.0; Win64; x64) AppleWebKit/537.36 (KHTML, like Gecko) Chrome/118.0.0.0 Safari/537.36",
    "Mozilla/5.0 (Windows NT 10.0; Win64; x64; rv:120.0) Gecko/20100101 Firefox/120.0",
    "Mozilla/5.0 (Windows NT 10.0; Win64; x64; rv:119.0) Gecko/20100101 Firefox/119.0",
    "Mozilla/5.0 (Windows NT 10.0; Win64; x64; rv:118.0) Gecko/20100101 Firefox/118.0",
    "Mozilla/5.0 (Macintosh; Intel Mac OS X 10_15_7) AppleWebKit/537.36 (KHTML, like Gecko) Chrome/120.0.0.0 Safari/537.36",
    "Mozilla/5.0 (Macintosh; Intel Mac OS X 10_15_7) AppleWebKit/537.36 (KHTML, like Gecko) Chrome/119.0.0.0 Safari/537.36",
    "Mozilla/5.0 (Macintosh; Intel Mac OS X 10_15_7) AppleWebKit/605.1.15 (KHTML, like Gecko) Version/17.1 Safari/605.1.15",
    "Mozilla/5.0 (Macintosh; Intel Mac OS X 10_15_7) AppleWebKit/605.1.15 (KHTML, like Gecko) Version/16.6 Safari/605.1.15",
    "Mozilla/5.0 (Windows NT 10.0; Win64; x64) AppleWebKit/537.36 (KHTML, like Gecko) Chrome/120.0.0.0 Safari/537.36 Edg/120.0.0.0",
    "Mozilla/5.0 (Windows NT 10.0; Win64; x64) AppleWebKit/537.36 (KHTML, like Gecko) Chrome/119.0.0.0 Safari/537.36 Edg/119.0.0.0"]

  /** No user agent of the list is empty, so one once assigned is kept. */
  lemma UserAgentsNamed()
    ensures forall u :: u in UserAgents ==> u != ""
  {
  }

  /** `proxy_stats[proxy]` as read, the default record standing in for a missing key. */
  function HealthOf(stats: map<string, Health>, proxy: string): Health {
    if proxy in stats then stats[proxy] else FreshHealth
  }

  /** A proxy may be used: it is awake and has failed fewer than three times in a row. */
  predicate Eligible(h: Health, now: int) {
    h.sleepUntil <= now && h.consecutiveErrors < MaxConsecutiveErrors
  }

  /** The pool positions whose proxy is eligible, in pool order. */
  function EligibleIndices(stats: map<string, Health>, pool: seq<string>, now: int): (r: seq<int>)
    ensures |r| <= |pool|
    ensures forall k :: 0 <= k < |r| ==> 0 <= r[k] < |pool|
    ensures forall k, l :: 0 <= k < l < |r| ==> r[k] < r[l]
  {
    if pool == [] then []
    else
      var r := EligibleIndices(stats, pool[..|pool| - 1], now);
      if Eligible(HealthOf(stats, pool[|pool| - 1]), now) then r + [|pool| - 1] else r
  }

  /** A position is listed exactly when it is a position of the pool whose proxy is
      eligible. */
  lemma {:induction false} EligibleIndicesAre(stats: map<string, Health>, pool: seq<string>, now: int)
    ensures forall i :: i in EligibleIndices(stats, pool, now) <==>
      0 <= i < |pool| && Eligible(HealthOf(stats, pool[i]), now)
    decreases |pool|
  {
    if pool != [] {
      var init := pool[..|pool| - 1];
      EligibleIndicesAre(stats, init, now);
      assert forall i :: 0 <= i < |init| ==> init[i] == pool[i];
    }
  }

  /** The default-dictionary lookups of a scan: every pool entry gets a record, the
      default one when it had none. */
  function Touch(stats: map<string, Health>, pool: seq<string>): (r: map<string, Health>)
    ensures stats.Keys <= r.Keys
  {
    if pool == [] then stats
    else
      var t := Touch(stats, pool[..|pool| - 1]);
      var p := pool[|pool| - 1];
      if p in t then t else t[p := FreshHealth]
  }

  /** The scan gives a record to every pool entry and to nothing else, and no record
      changes. */
  lemma {:induction false} TouchKeeps(stats: map<string, Health>, pool: seq<string>)
    ensures forall p :: p in Touch(stats, pool) <==> p in stats || p in pool
    ensures forall p :: HealthOf(Touch(stats, pool), p) == HealthOf(stats, p)
    decreases |pool|
  {
    if pool != [] {
      var init := pool[..|pool| - 1];
      TouchKeeps(stats, init);
      assert pool == init + [pool[|pool| - 1]];
    }
  }

  /** A record woken up with its error run cleared. */
  function Woken(h: Health): Health {
    h.(consecutiveErrors := 0, sleepUntil := 0)
  }

  /** The fail-open reset applied to every record. */
  function ResetAll(stats: map<string, Health>): (r: map<string, Health>)
    ensures r.Keys == stats.Keys
    ensures forall p :: HealthOf(r, p) == Woken(HealthOf(stats, p))
  {
    map p | p in stats :: Woken(stats[p])
  }

  /** After the reset every proxy is eligible at any time from the epoch on, and only
      the sleep and the error run were touched. */
  lemma ResetMakesEligible(stats: map<string, Health>, p: string, now: int)
    requires now >= 0
    ensures Eligible(HealthOf(ResetAll(stats), p), now)
    ensures HealthOf(ResetAll(stats), p).(consecutiveErrors := HealthOf(stats, p).consecutiveErrors,
                                          sleepUntil := HealthOf(stats, p).sleepUntil)
            == HealthOf(stats, p)
  {
  }

  /** `target` is the first position after `c`, going round the pool of `n`, that is
      in `avail`. */
  predicate FirstAfter(c: int, n: nat, avail: seq<int>, target: int)
    requires 0 <= c < n
  {
    exists k :: 1 <= k <= n && Advance(c, n, k) == target && target in avail
      && forall j :: 1 <= j < k ==> Advance(c, n, j) !in avail
  }

  lemma FirstAfterAt(c: int, n: nat, avail: seq<int>, target: int, k: nat)
    requires 0 <= c < n && 1 <= k <= n && Advance(c, n, k) == target && target in avail
    requires forall j :: 1 <= j < k ==> Advance(c, n, j) !in avail
    ensures FirstAfter(c, n, avail, target)
  {
  }

  /** The position `FirstAfter` picks among the eligible ones is eligible. */
  lemma ChosenIsEligible(stats: map<string, Health>, pool: seq<string>, now: int, c: int, target: int)
    requires 0 <= c < |pool|
    ensures FirstAfter(c, |pool|, EligibleIndices(stats, pool, now), target) ==>
      0 <= target < |pool| && Eligible(HealthOf(stats, pool[target]), now)
  {
    EligibleIndicesAre(stats, pool, now);
  }

  /** A cursor that has missed every position of `avail` so far has not yet gone
      round the whole pool, as long as `avail` holds a position of the pool. */
  lemma MissedWithinLap(c: int, n: nat, avail: seq<int>, steps: nat)
    requires 0 <= c < n && 1 <= steps <= n && avail != [] && 0 <= avail[0] < n
    requires forall j :: 1 <= j <= steps ==> Advance(c, n, j) !in avail
    ensures steps < n
  {
    RoundRobinCoversPool(c, n);
    assert avail[0] in Visited(c, n);
  }

  /** The cursor stepped from `c` round a pool of `n` until it is on a position of
      `avail`. */
  method NextAvailable(c: int, n: nat, avail: seq<int>) returns (idx: int)
    requires 0 <= c < n && avail != []
    requires forall t :: t in avail ==> 0 <= t < n
    ensures 0 <= idx < n && FirstAfter(c, n, avail, idx)
  {
    ghost var steps: nat := 1;
    NextSlotIsMod(c, n);
    idx := (c + 1) % n;
    while idx !in avail
      invariant 1 <= steps <= n && 0 <= idx < n && idx == Advance(c, n, steps)
      invariant forall j :: 1 <= j < steps ==> Advance(c, n, j) !in avail
      decreases n - steps
    {
      assert avail[0] in avail;
      MissedWithinLap(c, n, avail, steps);
      NextSlotIsMod(idx, n);
      idx := (idx + 1) % n;
      steps := steps + 1;
    }
    FirstAfterAt(c, n, avail, idx, steps);
  }

  /** `put_proxy_to_sleep`: asleep until `minutes` from `now`, that long added to the
      sleep total, one more block; nothing else changes. */
  function Slept(h: Health, minutes: nat, now: int): (r: Health)
    ensures r.sleepUntil == now + 60 * minutes
    ensures r.totalSleepTime == h.totalSleepTime + 60 * minutes
    ensures r.blockedCount == h.blockedCount + 1
    ensures r.(sleepUntil := h.sleepUntil, totalSleepTime := h.totalSleepTime,
               blockedCount := h.blockedCount) == h
  {
    h.(sleepUntil := now + 60 * minutes, totalSleepTime := h.totalSleepTime + 60 * minutes,
       blockedCount := h.blockedCount + 1)
  }

  /** A record after one more failure: both error counters up, then asleep for
      `FailureSleepMinutes`. */
  function AfterFailure(h: Health, now: int): Health {
    Slept(h.(consecutiveErrors := h.consecutiveErrors + 1, errors := h.errors + 1),
          FailureSleepMinutes, now)
  }

  /** A proxy that just failed is out of use for the next ten minutes and has one more
      error and one more block on its record. */
  lemma FailureSleeps(h: Health, now: int, later: int)
    requires now <= later < now + 600
    ensures !Eligible(AfterFailure(h, now), later)
    ensures Eligible(AfterFailure(h, now), now + 600) <==> h.consecutiveErrors + 1 < MaxConsecutiveErrors
    ensures AfterFailure(h, now).errors == h.errors + 1
    ensures AfterFailure(h, now).blockedCount == h.blockedCount + 1
  {
  }

  /** Three failures in a row keep a proxy out of the round robin until the reset. */
  lemma ThreeStrikes(h: Health, t1: int, t2: int, t3: int, later: int)
    requires h.consecutiveErrors == 0
    ensures !Eligible(AfterFailure(AfterFailure(AfterFailure(h, t1), t2), t3), later)
  {
  }

  // ---------------------------------------------------------------------------
  // proxy URLs and cookies

  /** The `proxy` meta value: the credentials in the URL for `ip:port:user:pass`, the
      entry as it is otherwise. */
  function ProxyUrl(proxy: string): (url: string)
    ensures StartsWith(url, "http://")
  {
    var parts := Split(proxy, ":");
    var url := if |parts| == 4 then "http://" + parts[2] + ":" + parts[3] + "@" + parts[0] + ":" + parts[1]
               else "http://" + proxy;
    assert url[..7] == "http://";
    url
  }

  /** For four colon-free fields the URL is `http://user:pass@ip:port`. */
  lemma ProxyUrlWithCredentials(fields: seq<string>)
    requires |fields| == 4 && forall k :: 0 <= k < 4 ==> ':' !in fields[k]
    ensures ProxyUrl(Join(fields, ":"))
            == "http://" + fields[2] + ":" + fields[3] + "@" + fields[0] + ":" + fields[1]
  {
    SplitJoin(fields, ":");
  }

  /** Any other entry is put after the scheme unchanged. */
  lemma ProxyUrlPlain(proxy: string)
    requires |Split(proxy, ":")| != 4
    ensures ProxyUrl(proxy) == "http://" + proxy
  {
  }

  /** One `Set-Cookie` value: the text before the first `;`, cut at its first `=`, both
      halves stripped; nothing without an `=`. */
  function ParseCookie(header: string): Option<(string, string)> {
    var parts := SplitOnce(Split(header, ";")[0], "=");
    if |parts| == 2 then Some((Strip(parts[0]), Strip(parts[1]))) else None
  }

  /** A cookie is found exactly when the text before the first `;` has an `=`; its
      name and value are then the stripped text before and after the first `=`. */
  lemma ParseCookieShape(header: string)
    ensures ParseCookie(header).Some? <==> Contains(Split(header, ";")[0], "=")
    ensures var first := Split(header, ";")[0];
      forall i :: 0 <= i < |first| && first[i] == '=' && '=' !in first[..i] ==>
        ParseCookie(header) == Some((Strip(first[..i]), Strip(first[i + 1..])))
    ensures ParseCookie(header).Some? ==> Bare(ParseCookie(header).value.0) && Bare(ParseCookie(header).value.1)
  {
    var first := Split(header, ";")[0];
    var parts := SplitOnce(first, "=");
    if |parts| == 2 {
      StripIsBare(parts[0]);
      StripIsBare(parts[1]);
    }
    forall i | 0 <= i < |first| && first[i] == '=' && '=' !in first[..i]
      ensures ParseCookie(header) == Some((Strip(first[..i]), Strip(first[i + 1..])))
    {
      CutAtEquals(first, i);
    }
  }

  /** Splitting once at `=` cuts at the first `=`. */
  lemma CutAtEquals(first: string, i: nat)
    requires i < |first| && first[i] == '=' && '=' !in first[..i]
    ensures SplitOnce(first, "=") == [first[..i], first[i + 1..]]
  {
    assert first == first[..i] + ['='] + first[i + 1..];
    SplitOnceAt(first[..i], '=', first[i + 1..]);
  }

  /** `name=value; attributes` gives back the name and the value. */
  lemma ParseCookieRoundTrip(name: string, value: string, attributes: string)
    requires Bare(name) && Bare(value) && ';' !in name && ';' !in value && '=' !in name
    ensures ParseCookie(name + "=" + value + ";" + attributes) == Some((name, value))
  {
    var first := name + "=" + value;
    assert name + "=" + value + ";" + attributes == first + [';'] + attributes;
    assert ';' !in first;
    SplitHead(first, ';', attributes);
    assert first == name + ['='] + value;
    SplitOnceAt(name, '=', value);
    StripBare(name);
    StripBare(value);
  }

  /** The cookies of a response's `Set-Cookie` values, a later value for a name
      overriding an earlier one. */
  function CookiesFrom(headers: seq<string>): map<string, string> {
    if headers == [] then map[]
    else
      var m := CookiesFrom(headers[..|headers| - 1]);
      match ParseCookie(headers[|headers| - 1])
      case Some((k, v)) => m[k := v]
      case None => m
  }

  /** A name ends up with the value of the last header that sets it. */
  lemma {:induction false} CookiesFromLastWins(headers: seq<string>, j: nat)
    requires j < |headers| && ParseCookie(headers[j]).Some?
    requires forall k :: j < k < |headers| && ParseCookie(headers[k]).Some? ==>
               ParseCookie(headers[k]).value.0 != ParseCookie(headers[j]).value.0
    ensures ParseCookie(headers[j]).value.0 in CookiesFrom(headers)
    ensures CookiesFrom(headers)[ParseCookie(headers[j]).value.0] == ParseCookie(headers[j]).value.1
  {
    var init := headers[..|headers| - 1];
    if j < |headers| - 1 {
      assert init[j] == headers[j];
      assert forall k :: j < k < |init| ==> init[k] == headers[k];
      CookiesFromLastWins(init, j);
    }
  }

  /** Only names that some header sets appear. */
  lemma {:induction false} CookiesFromNames(headers: seq<string>, name: string)
    requires name in CookiesFrom(headers)
    ensures exists k :: 0 <= k < |headers| && ParseCookie(headers[k]).Some?
                        && ParseCookie(headers[k]).value.0 == name
  {
    var last := |headers| - 1;
    if !(ParseCookie(headers[last]).Some? && ParseCookie(headers[last]).value.0 == name) {
      var init := headers[..last];
      CookiesFromNames(init, name);
      var k :| 0 <= k < |init| && ParseCookie(init[k]).Some? && ParseCookie(init[k]).value.0 == name;
      assert init[k] == headers[k];
    }
  }

  // ---------------------------------------------------------------------------
  // requests and responses as the middleware sees them

  /** The parts of a request the middleware reads and sets: the `proxy` and
      `current_proxy` meta keys, the headers and the cookies. */
  datatype Request = Request(proxy: Option<string>, currentProxy: Option<string>,
                             headers: map<string, string>, cookies: map<string, string>)

  /** A response: its status and its `Set-Cookie` values. */
  datatype Response = Response(status: int, setCookies: seq<string>)

  /** The browser headers set on every proxied request. */
  const BrowserHeaders: map<string, string> :=
    map["Accept" := "text/html,application/xhtml+xml,application/xml;q=0.9,image/webp,image/apng,*/*;q=0.8",
        "Accept-Language" := "en-US,en;q=0.9",
        "Accept-Encoding" := "gzip, deflate, br",
        "Cache-Control" := "no-cache",
        "Pragma" := "no-cache",
        "Sec-Fetch-Dest" := "document",
        "Sec-Fetch-Mode" := "navigate",
        "Sec-Fetch-Site" := "none",
        "Upgrade-Insecure-Requests" := "1"]

  /** `h` is record `h0` after serving one request at `now`: one more request, used
      now, the same cookie jar, and a user agent that is kept once assigned. */
  predicate Served(h0: Health, h: Health, now: int) {
    && h.requests == h0.requests + 1 && h.lastUsed == now
    && h.sessionCookies == h0.sessionCookies
    && h.currentUserAgent.Some? && h.currentUserAgent.value != ""
    && (HasText(h0.currentUserAgent) ==> h.currentUserAgent == h0.currentUserAgent)
  }

  /** The fail-open reset does not disturb what serving a request keeps. */
  lemma ServedAfterWake(h0: Health, h: Health, now: int)
    ensures Served(Woken(h0), h, now) <==> Served(h0, h, now)
  {
  }

  /** A request sent through `proxy` with its record `h`: proxy URL and name in the
      meta, the record's user agent and the browser headers, the record's cookies over
      the request's own. */
  function Dressed(req: Request, proxy: string, h: Health): Request
    requires h.currentUserAgent.Some?
  {
    req.(proxy := Some(ProxyUrl(proxy)), currentProxy := Some(proxy),
         headers := req.headers["User-Agent" := h.currentUserAgent.value] + BrowserHeaders,
         cookies := req.cookies + h.sessionCookies)
  }

  /** The dressed request names its proxy, carries the sticky user agent, keeps the
      request's other cookies and prefers the proxy's session cookies. */
  lemma DressedCarriesSession(req: Request, proxy: string, h: Health)
    requires h.currentUserAgent.Some?
    ensures Dressed(req, proxy, h).currentProxy == Some(proxy)
    ensures Dressed(req, proxy, h).headers["User-Agent"] == h.currentUserAgent.value
    ensures forall k :: k in h.sessionCookies ==> Dressed(req, proxy, h).cookies[k] == h.sessionCookies[k]
    ensures forall k :: k in req.cookies && k !in h.sessionCookies ==>
              Dressed(req, proxy, h).cookies[k] == req.cookies[k]
  {
    assert "User-Agent" !in BrowserHeaders;
  }

  /** A proxy's record after a response: the response's cookies merged into its jar,
      then a failure recorded for a blocking status, or the error run cleared. */
  function AfterResponse(h: Health, resp: Response, now: int): Health {
    var h1 := WithCookies(h, resp.setCookies);
    if resp.status in FailureStatuses then AfterFailure(h1, now) else AfterSuccess(h1, now)
  }

  /** `response.headers.get('Set-Cookie')` is truthy: Scrapy's `get` gives the last
      value of the header, so the merge happens when that last value is non-empty. */
  predicate HasSetCookie(setCookies: seq<string>) {
    setCookies != [] && setCookies[|setCookies| - 1] != ""
  }

  /** A record with the cookies of a response's `Set-Cookie` values merged into its jar,
      when the header's last value is truthy. */
  function WithCookies(h: Health, setCookies: seq<string>): Health {
    if HasSetCookie(setCookies) then h.(sessionCookies := h.sessionCookies + CookiesFrom(setCookies)) else h
  }

  /** A record after a response that is not a block: the error run cleared. */
  function AfterSuccess(h: Health, now: int): Health {
    h.(consecutiveErrors := 0, lastSuccess := now)
  }

  /** The cookie loop of `process_response`: each `Set-Cookie` value parsed in turn
      into one dictionary. */
  method ResponseCookies(headers: seq<string>) returns (cookies: map<string, string>)
    ensures cookies == CookiesFrom(headers)
  {
    cookies := map[];
    var i := 0;
    while i < |headers|
      invariant 0 <= i <= |headers|
      invariant cookies == CookiesFrom(headers[..i])
    {
      assert headers[..i + 1][..i] == headers[..i];
      var parsed := ParseCookie(headers[i]);
      if parsed.Some? {
        cookies := cookies[parsed.value.0 := parsed.value.1];
      }
      i := i + 1;
    }
    assert headers[..i] == headers;
  }

  /** A success clears the error run, so the proxy is eligible as soon as it is awake;
      a blocking status puts it to sleep for ten minutes. */
  lemma ResponseHealth(h: Health, resp: Response, now: int, later: int)
    requires now <= later
    ensures resp.status !in FailureStatuses ==>
      AfterResponse(h, resp, now).consecutiveErrors == 0
      && (Eligible(AfterResponse(h, resp, now), later) <==> h.sleepUntil <= later)
    ensures resp.status in FailureStatuses && later < now + 600 ==>
      !Eligible(AfterResponse(h, resp, now), later)
    ensures AfterResponse(h, resp, now).requests == h.requests
  {
  }

  /** Cookies a response sets are in the proxy's jar afterwards; the others are kept. */
  lemma ResponseKeepsCookies(h: Health, resp: Response, now: int, name: string)
    ensures !HasSetCookie(resp.setCookies) ==> AfterResponse(h, resp, now).sessionCookies == h.sessionCookies
    ensures HasSetCookie(resp.setCookies) && name in CookiesFrom(resp.setCookies) ==>
      AfterResponse(h, resp, now).sessionCookies[name] == CookiesFrom(resp.setCookies)[name]
    ensures name !in CookiesFrom(resp.setCookies) && name in h.sessionCookies ==>
      AfterResponse(h, resp, now).sessionCookies[name] == h.sessionCookies[name]
  {
  }

  /** One health summary of `get_proxy_statistics` (the success rate is left out). */
  datatype Summary = Summary(requests: nat, errors: nat, blockedCount: nat,
                             totalSleepTime: nat, consecutiveErrors: nat, isSleeping: bool)

  /** `get_proxy_statistics`: a summary for each proxy that has served a request. */
  function Statistics(stats: map<string, Health>, now: int): (r: map<string, Summary>)
    ensures forall p :: p in r <==> p in stats && stats[p].requests > 0
  {
    map p | p in stats && stats[p].requests > 0 ::
      Summary(stats[p].requests, stats[p].errors, stats[p].blockedCount,
              stats[p].totalSleepTime, stats[p].consecutiveErrors, stats[p].sleepUntil > now)
  }

  /** A used proxy that just failed is reported asleep for ten minutes; after the reset
      no proxy is. */
  lemma StatisticsShowSleep(stats: map<string, Health>, p: string, now: int, later: int)
    requires p in stats && stats[p].requests > 0
    ensures now <= later < now + 600 ==>
      Statistics(stats[p := AfterFailure(stats[p], now)], later)[p].isSleeping
    ensures later >= 0 ==> !Statistics(ResetAll(stats), later)[p].isSleeping
    ensures Statistics(stats, later)[p].errors == stats[p].errors
  {
    assert HealthOf(ResetAll(stats), p) == ResetAll(stats)[p];
  }

  /** The records after the scan of `get_available_proxy`: every pool entry given a
      record, and all of them reset when no entry is eligible. */
  function ScannedStats(stats: map<string, Health>, pool: seq<string>, now: int): map<string, Health> {
    if EligibleIndices(stats, pool, now) == [] then ResetAll(Touch(stats, pool)) else Touch(stats, pool)
  }

  /** The proxy picked by `get_available_proxy` on a non-empty pool: the first eligible
      one after the cursor, or the first proxy after the reset. */
  predicate Picked(stats: map<string, Health>, pool: seq<string>, now: int, c: int, idx: int)
    requires 0 <= c < |pool|
  {
    if EligibleIndices(stats, pool, now) == [] then idx == 0
    else FirstAfter(c, |pool|, EligibleIndices(stats, pool, now), idx)
  }

  /** The picked proxy is on the pool and eligible once the scan is done: eligible
      before the scan unless no proxy was, and woken by the reset otherwise. */
  lemma PickedIsUsable(stats: map<string, Health>, pool: seq<string>, now: int, c: int, idx: int)
    requires 0 <= c < |pool| && now >= 0 && Picked(stats, pool, now, c, idx)
    ensures 0 <= idx < |pool|
    ensures Eligible(HealthOf(ScannedStats(stats, pool, now), pool[idx]), now)
    ensures EligibleIndices(stats, pool, now) != [] ==> Eligible(HealthOf(stats, pool[idx]), now)
  {
    TouchKeeps(stats, pool);
    if EligibleIndices(stats, pool, now) == [] {
      ResetMakesEligible(Touch(stats, pool), pool[idx], now);
    } else {
      ChosenIsEligible(stats, pool, now, c, idx);
    }
  }

  /** A record after serving one request at `now` with user agent `ua`. */
  function Used(h: Health, now: int, ua: string): Health {
    h.(requests := h.requests + 1, lastUsed := now, currentUserAgent := Some(ua))
  }

  /** The user agent a proxy with record `h` is sent with: the one it has, or one of
      the list. */
  predicate StickyAgent(h: Health, ua: string) {
    if HasText(h.currentUserAgent) then ua == h.currentUserAgent.value else ua in UserAgents
  }

  /** A second write to the same proxy's record replaces the first. */
  lemma Rewritten(stats: map<string, Health>, proxy: string, a: Health, b: Health)
    ensures stats[proxy := a][proxy := b] == stats[proxy := b]
  {
  }

  // ---------------------------------------------------------------------------
  // the middleware

  class Middleware {
    var proxyStats: map<string, Health>
    var proxyList: seq<string>
    var currentProxyIndex: int
    var requestCount: nat
    var lastProxyChange: int
    var proxyRotationCount: nat

    /** The cursor is a position of the pool (0 when the pool is empty), and no entry
        of the pool is empty, since loading drops blank entries. */
    ghost predicate Valid()
      reads this`proxyList, this`currentProxyIndex
    {
      0 <= currentProxyIndex && (proxyList == [] ==> currentProxyIndex == 0)
      && (proxyList != [] ==> currentProxyIndex < |proxyList|)
      && forall k :: 0 <= k < |proxyList| ==> proxyList[k] != ""
    }

    /** `__init__`, given the entries read from `proxies.json`. */
    constructor (loaded: seq<string>)
      ensures proxyList == Normalize(loaded) && proxyStats == map[]
      ensures currentProxyIndex == 0 && requestCount == 0 && lastProxyChange == 0
      ensures proxyRotationCount == 0
      ensures Valid()
    {
      proxyList := Normalize(loaded);
      proxyStats := map[];
      currentProxyIndex := 0;
      requestCount := 0;
      lastProxyChange := 0;
      proxyRotationCount := 0;
    }

    /** The scan of `get_available_proxy`: every pool entry looked up (and so given a
        record), and the positions of the eligible ones collected in pool order. */
    method ScanPool(now: int) returns (available: seq<int>)
      modifies this`proxyStats
      ensures proxyStats == Touch(old(proxyStats), proxyList)
      ensures available == EligibleIndices(old(proxyStats), proxyList, now)
    {
      var n := |proxyList|;
      available := [];
      var i := 0;
      while i < n
        invariant 0 <= i <= n
        invariant proxyStats == Touch(old(proxyStats), proxyList[..i])
        invariant available == EligibleIndices(old(proxyStats), proxyList[..i], now)
      {
        var p := proxyList[i];
        ghost var seen := proxyList[..i + 1];
        assert seen[..i] == proxyList[..i] && seen[i] == p;
        var h := HealthOf(proxyStats, p);
        TouchKeeps(old(proxyStats), proxyList[..i]);
        assert h == HealthOf(old(proxyStats), p);
        if p !in proxyStats {
          proxyStats := proxyStats[p := FreshHealth];
        }
        assert proxyStats == Touch(old(proxyStats), seen);
        if !(h.sleepUntil > now) && !(h.consecutiveErrors >= MaxConsecutiveErrors) {
          available := available + [i];
        }
        assert available == EligibleIndices(old(proxyStats), seen, now);
        i := i + 1;
      }
      assert proxyList[..n] == proxyList;
    }

    /** The fail-open reset: every record woken and its error run cleared. */
    method WakeAll()
      modifies this`proxyStats
      ensures proxyStats == ResetAll(old(proxyStats))
    {
      var pending := proxyStats.Keys;
      while pending != {}
        invariant pending <= old(proxyStats).Keys && proxyStats.Keys == old(proxyStats).Keys
        invariant forall p :: p in old(proxyStats) ==>
          proxyStats[p] == if p in pending then old(proxyStats)[p] else Woken(old(proxyStats)[p])
        decreases pending
      {
        var p :| p in pending;
        proxyStats := proxyStats[p := proxyStats[p].(consecutiveErrors := 0, sleepUntil := 0)];
        pending := pending - {p};
      }
    }

    /** The round robin of `get_available_proxy`: one step, then more until the cursor
        is on an available position. */
    method StepToAvailable(available: seq<int>)
      requires Valid() && proxyList != [] && available != []
      requires forall t :: t in available ==> 0 <= t < |proxyList|
      modifies this`currentProxyIndex
      ensures Valid()
      ensures FirstAfter(old(currentProxyIndex), |proxyList|, available, currentProxyIndex)
    {
      currentProxyIndex := NextAvailable(currentProxyIndex, |proxyList|, available);
    }

    /** `get_available_proxy`: the first proxy after the cursor, round the pool, that is
        awake and not failing; when none is, every record is reset and the first proxy
        is used. */
    method GetAvailableProxy(now: int) returns (proxy: Option<string>)
      requires Valid()
      modifies this`proxyStats, this`currentProxyIndex
      ensures Valid()
      ensures proxyList == [] ==>
        && proxy == None && proxyStats == old(proxyStats)
        && currentProxyIndex == old(currentProxyIndex)
      ensures proxyList != [] ==> proxy == Some(proxyList[currentProxyIndex])
      ensures proxyList != [] && EligibleIndices(old(proxyStats), proxyList, now) != [] ==>
        && proxyStats == Touch(old(proxyStats), proxyList)
        && FirstAfter(old(currentProxyIndex), |proxyList|,
                      EligibleIndices(old(proxyStats), proxyList, now), currentProxyIndex)
      ensures proxyList != [] && EligibleIndices(old(proxyStats), proxyList, now) == [] ==>
        proxyStats == ResetAll(Touch(old(proxyStats), proxyList)) && currentProxyIndex == 0
      ensures proxyList != [] ==>
        || Eligible(HealthOf(old(proxyStats), proxyList[currentProxyIndex]), now)
        || (EligibleIndices(old(proxyStats), proxyList, now) == [] && currentProxyIndex == 0)
      ensures proxyList != [] ==>
        && proxyStats == ScannedStats(old(proxyStats), proxyList, now)
        && Picked(old(proxyStats), proxyList, now, old(currentProxyIndex), currentProxyIndex)
      ensures forall q :: Woken(HealthOf(proxyStats, q)) == Woken(HealthOf(old(proxyStats), q))
    {
      if proxyList == [] {
        return None;
      }
      var available := ScanPool(now);
      EligibleIndicesAre(old(proxyStats), proxyList, now);
      TouchKeeps(old(proxyStats), proxyList);
      if available == [] {
        WakeAll();
        StepToAvailable([0]);
        assert Advance(old(currentProxyIndex), |proxyList|, 1) in [0] ==> currentProxyIndex == 0;
      } else {
        StepToAvailable(available);
        ChosenIsEligible(old(proxyStats), proxyList, now, old(currentProxyIndex), currentProxyIndex);
      }
      proxy := Some(proxyList[currentProxyIndex]);
    }

    /** `get_user_agent_for_proxy`: the proxy's user agent, one picked from the list
        when it has none yet; it is kept from then on. */
    method UserAgentFor(proxy: string) returns (ua: string)
      modifies this`proxyStats
      ensures ua != ""
      ensures HasText(HealthOf(old(proxyStats), proxy).currentUserAgent) ==>
        ua == HealthOf(old(proxyStats), proxy).currentUserAgent.value
      ensures !HasText(HealthOf(old(proxyStats), proxy).currentUserAgent) ==> ua in UserAgents
      ensures proxyStats == old(proxyStats)[proxy := HealthOf(old(proxyStats), proxy).(currentUserAgent := Some(ua))]
    {
      var h := HealthOf(proxyStats, proxy);
      if h.currentUserAgent.None? || h.currentUserAgent.value == "" {
        UserAgentsNamed();
        assert UserAgents[0] in UserAgents;
        ua :| ua in UserAgents;
      } else {
        ua := h.currentUserAgent.value;
      }
      proxyStats := proxyStats[proxy := h.(currentUserAgent := Some(ua))];
    }

    /** `set_session_cookies_for_proxy`: `cookies` merged into the proxy's jar. */
    method SetSessionCookies(proxy: string, cookies: map<string, string>)
      requires Valid()
      modifies this`proxyStats
      ensures Valid()
      ensures proxyStats == old(proxyStats)[proxy := HealthOf(old(proxyStats), proxy).(
                sessionCookies := HealthOf(old(proxyStats), proxy).sessionCookies + cookies)]
    {
      var h := HealthOf(proxyStats, proxy);
      proxyStats := proxyStats[proxy := h.(sessionCookies := h.sessionCookies + cookies)];
    }

    /** `put_proxy_to_sleep`. */
    method PutProxyToSleep(proxy: string, minutes: nat, now: int)
      requires Valid()
      modifies this`proxyStats
      ensures Valid()
      ensures proxyStats == old(proxyStats)[proxy := Slept(HealthOf(old(proxyStats), proxy), minutes, now)]
    {
      var h := HealthOf(proxyStats, proxy);
      proxyStats := proxyStats[proxy := h.(sleepUntil := now + minutes * 60,
                                           totalSleepTime := h.totalSleepTime + minutes * 60,
                                           blockedCount := h.blockedCount + 1)];
    }

    /** `rotate_to_next_proxy`: the cursor one step on. On an empty pool the modulo
        raises `ZeroDivisionError` (`raised`) before anything changes. */
    method RotateToNextProxy() returns (raised: bool)
      requires Valid()
      modifies this`currentProxyIndex, this`proxyRotationCount
      ensures Valid()
      ensures raised <==> proxyList == []
      ensures raised ==> currentProxyIndex == old(currentProxyIndex) && proxyRotationCount == old(proxyRotationCount)
      ensures !raised ==>
        && currentProxyIndex == Advance(old(currentProxyIndex), |proxyList|, 1)
        && proxyRotationCount == old(proxyRotationCount) + 1
    {
      if proxyList == [] {
        return true;
      }
      NextSlotIsMod(currentProxyIndex, |proxyList|);
      currentProxyIndex := (currentProxyIndex + 1) % |proxyList|;
      proxyRotationCount := proxyRotationCount + 1;
      return false;
    }

    /** A failure on `proxy`: both error counters up, ten minutes of sleep, and the
        cursor moved on; on an empty pool the rotation raises after the record is
        written. */
    method RecordFailure(proxy: string, now: int) returns (raised: bool)
      requires Valid()
      modifies this`proxyStats, this`currentProxyIndex, this`proxyRotationCount
      ensures Valid()
      ensures proxyStats == old(proxyStats)[proxy := AfterFailure(HealthOf(old(proxyStats), proxy), now)]
      ensures Rotated(old(currentProxyIndex), old(proxyRotationCount), raised)
    {
      var h := HealthOf(proxyStats, proxy);
      proxyStats := proxyStats[proxy := h.(consecutiveErrors := h.consecutiveErrors + 1,
                                           errors := h.errors + 1)];
      PutProxyToSleep(proxy, FailureSleepMinutes, now);
      raised := RotateToNextProxy();
    }

    /** The cursor after a forced rotation from `c` with `count` rotations so far: one
        step on and one more rotation, or, on an empty pool, the `ZeroDivisionError`
        with nothing moved. */
    ghost predicate Rotated(c: int, count: nat, raised: bool)
      reads this`proxyList, this`currentProxyIndex, this`proxyRotationCount
    {
      (raised <==> proxyList == [])
      && (raised ==> currentProxyIndex == c && proxyRotationCount == count)
      && (!raised ==> 0 <= c < |proxyList| && currentProxyIndex == Advance(c, |proxyList|, 1)
                      && proxyRotationCount == count + 1)
    }

    /** The middle of `process_request`: the request counted on `proxy` and sent
        through it with its user agent, its cookies and the browser headers. */
    method SendThrough(req: Request, proxy: string, now: int) returns (r: Request)
      requires Valid()
      modifies this`proxyStats
      ensures Valid()
      ensures proxy in proxyStats && proxyStats == old(proxyStats)[proxy := proxyStats[proxy]]
      ensures var h := HealthOf(old(proxyStats), proxy);
        proxyStats[proxy] == h.(requests := h.requests + 1, lastUsed := now,
                                currentUserAgent := proxyStats[proxy].currentUserAgent)
      ensures Served(HealthOf(old(proxyStats), proxy), proxyStats[proxy], now)
      ensures StickyAgent(HealthOf(old(proxyStats), proxy), proxyStats[proxy].currentUserAgent.value)
      ensures r == Dressed(req, proxy, proxyStats[proxy])
    {
      var h := HealthOf(proxyStats, proxy);
      var counted := h.(requests := h.requests + 1, lastUsed := now);
      proxyStats := proxyStats[proxy := counted];
      var ua := UserAgentFor(proxy);
      assert proxyStats[proxy] == counted.(currentUserAgent := Some(ua));
      var url := ProxyUrl(proxy);
      var cookies := req.cookies + proxyStats[proxy].sessionCookies;
      r := req.(proxy := Some(url), currentProxy := Some(proxy),
                headers := req.headers["User-Agent" := ua] + BrowserHeaders, cookies := cookies);
    }

    /** The request tracking of `process_request`: one more request, and the cursor
        recorded as the last proxy change. */
    method CountRequest()
      requires Valid()
      modifies this`requestCount, this`lastProxyChange
      ensures Valid()
      ensures requestCount == old(requestCount) + 1 && lastProxyChange == currentProxyIndex
    {
      requestCount := requestCount + 1;
      if lastProxyChange != currentProxyIndex {
        lastProxyChange := currentProxyIndex;
      }
    }

    /** `process_request`: pick a proxy, count the request on it, and send the request
        through it with its user agent, its cookies and the browser headers. Apart from
        the scan of `get_available_proxy`, only the picked proxy's record changes. */
    method ProcessRequest(req: Request, now: int) returns (r: Request)
      requires Valid()
      modifies this`proxyStats, this`currentProxyIndex, this`requestCount, this`lastProxyChange
      ensures Valid()
      ensures proxyList == [] ==>
        && r == req && proxyStats == old(proxyStats) && currentProxyIndex == old(currentProxyIndex)
        && requestCount == old(requestCount) && lastProxyChange == old(lastProxyChange)
      ensures proxyList != [] ==>
        var p, s := proxyList[currentProxyIndex], ScannedStats(old(proxyStats), proxyList, now);
        && Picked(old(proxyStats), proxyList, now, old(currentProxyIndex), currentProxyIndex)
        && p in proxyStats && proxyStats == s[p := proxyStats[p]]
        && proxyStats[p].currentUserAgent.Some?
        && StickyAgent(HealthOf(s, p), proxyStats[p].currentUserAgent.value)
        && proxyStats[p] == Used(HealthOf(s, p), now, proxyStats[p].currentUserAgent.value)
        && r == Dressed(req, p, proxyStats[p])
        && requestCount == old(requestCount) + 1 && lastProxyChange == currentProxyIndex
    {
      var chosen := GetAvailableProxy(now);
      if chosen.None? {
        return req;
      }
      // every pool entry is non-empty, so `if not proxy` passes here
      var p := chosen.value;
      ghost var scanned := proxyStats;
      r := SendThrough(req, p, now);
      assert proxyStats[p] == Used(HealthOf(scanned, p), now, proxyStats[p].currentUserAgent.value);
      CountRequest();
    }

    /** `process_response`: the response's cookies kept for its proxy, then a failure
        recorded (sleep and rotation) for a blocking status, or the error run cleared.
        The response itself is passed on, unless the rotation raised (`raised`, a
        blocking status on a request that names a proxy while the pool is empty). */
    method ProcessResponse(req: Request, resp: Response, now: int) returns (r: Response, raised: bool)
      requires Valid()
      modifies this`proxyStats, this`currentProxyIndex, this`proxyRotationCount
      ensures Valid() && r == resp
      ensures !HasText(req.currentProxy) ==>
        && !raised && proxyStats == old(proxyStats) && currentProxyIndex == old(currentProxyIndex)
        && proxyRotationCount == old(proxyRotationCount)
      ensures HasText(req.currentProxy) ==>
        var p := req.currentProxy.value;
        proxyStats == old(proxyStats)[p := AfterResponse(HealthOf(old(proxyStats), p), resp, now)]
      ensures HasText(req.currentProxy) && resp.status in FailureStatuses ==>
        Rotated(old(currentProxyIndex), old(proxyRotationCount), raised)
      ensures resp.status !in FailureStatuses ==>
        && !raised && currentProxyIndex == old(currentProxyIndex)
        && proxyRotationCount == old(proxyRotationCount)
    {
      r, raised := resp, false;
      if req.currentProxy.None? || req.currentProxy.value == "" {
        return;
      }
      raised := RecordResponse(req.currentProxy.value, resp, now);
    }

    /** The bookkeeping of `process_response` for a response that came through `proxy`. */
    method RecordResponse(proxy: string, resp: Response, now: int) returns (raised: bool)
      requires Valid()
      modifies this`proxyStats, this`currentProxyIndex, this`proxyRotationCount
      ensures Valid()
      ensures proxyStats == old(proxyStats)[proxy := AfterResponse(HealthOf(old(proxyStats), proxy), resp, now)]
      ensures resp.status in FailureStatuses ==> Rotated(old(currentProxyIndex), old(proxyRotationCount), raised)
      ensures resp.status !in FailureStatuses ==>
        && !raised && currentProxyIndex == old(currentProxyIndex)
        && proxyRotationCount == old(proxyRotationCount)
    {
      ghost var h1 := WithCookies(HealthOf(proxyStats, proxy), resp.setCookies);
      KeepResponseCookies(proxy, resp.setCookies);
      assert HealthOf(proxyStats, proxy) == h1;
      if resp.status in FailureStatuses {
        raised := RecordFailure(proxy, now);
        Rewritten(old(proxyStats), proxy, h1, AfterFailure(h1, now));
      } else {
        raised := false;
        RecordSuccess(proxy, now);
        Rewritten(old(proxyStats), proxy, h1, AfterSuccess(h1, now));
      }
    }

    /** The cookie half of `process_response`: the proxy's record looked up, and the
        cookies of the `Set-Cookie` values, if there are any, merged into its jar. */
    method KeepResponseCookies(proxy: string, setCookies: seq<string>)
      requires Valid()
      modifies this`proxyStats
      ensures Valid()
      ensures proxyStats == old(proxyStats)[proxy := WithCookies(HealthOf(old(proxyStats), proxy), setCookies)]
    {
      var h := HealthOf(proxyStats, proxy);
      proxyStats := proxyStats[proxy := h];
      if setCookies != [] && setCookies[|setCookies| - 1] != "" {
        var cookies := ResponseCookies(setCookies);
        SetSessionCookies(proxy, cookies);
        Rewritten(old(proxyStats), proxy, h, h.(sessionCookies := h.sessionCookies + cookies));
      }
    }

    /** A response that is not a block: the proxy's error run cleared. */
    method RecordSuccess(proxy: string, now: int)
      requires Valid()
      modifies this`proxyStats
      ensures Valid()
      ensures proxyStats == old(proxyStats)[proxy := AfterSuccess(HealthOf(old(proxyStats), proxy), now)]
    {
      var h := HealthOf(proxyStats, proxy);
      proxyStats := proxyStats[proxy := h.(consecutiveErrors := 0, lastSuccess := now)];
    }

    /** `process_exception`: a failure recorded for the request's proxy (sleep and
        rotation); the exception itself is only logged. `raised` is the
        `ZeroDivisionError` of the rotation on an empty pool. */
    method ProcessException(req: Request, now: int) returns (raised: bool)
      requires Valid()
      modifies this`proxyStats, this`currentProxyIndex, this`proxyRotationCount
      ensures Valid()
      ensures !HasText(req.currentProxy) ==>
        && !raised && proxyStats == old(proxyStats) && currentProxyIndex == old(currentProxyIndex)
        && proxyRotationCount == old(proxyRotationCount)
      ensures HasText(req.currentProxy) ==>
        var p := req.currentProxy.value;
        && proxyStats == old(proxyStats)[p := AfterFailure(HealthOf(old(proxyStats), p), now)]
        && Rotated(old(currentProxyIndex), old(proxyRotationCount), raised)
    {
      if req.currentProxy.None? || req.currentProxy.value == "" {
        return false;
      }
      raised := RecordFailure(req.currentProxy.value, now);
    }
  }
}
