/**
 * The `CtqScraperSpider` object of `spiders/ctq_scraper.py`: the NEQ list it is built
 * with, its proxy pool with the round-robin cursor, its request and error counters,
 * and the methods that send the requests the page decisions of module CtqWorkflow ask
 * for.
 *
 * Reading the NEQ file and `proxies.json` is I/O: the constructor receives what those
 * reads returned.
 */
module CtqSpider {
  import opened Common
  import opened Str
  import CtqForms
  import Url
  import CtqAddress
  import ProxyAuth
  import opened CtqWorkflow
  import opened RoundRobin

  // ---------------------------------------------------------------------------
  // the NEQ list

  /** `neqs.split(",") if neqs else []`. */
  function SplitArg(neqs: Option<string>): seq<string> {
    if HasText(neqs) then Split(neqs.value, ",") else []
  }

  /** `list(dict.fromkeys(xs))`: the first occurrence of each value, in order. */
  function Dedup(xs: seq<string>): (r: seq<string>)
    ensures forall x :: x in r <==> x in xs
    ensures forall i, j :: 0 <= i < j < |r| ==> r[i] != r[j]
  {
    if xs == [] then []
    else
      var d := Dedup(xs[..|xs| - 1]);
      var x := xs[|xs| - 1];
      assert forall y :: y in xs <==> y in xs[..|xs| - 1] || y == x by {
        assert xs == xs[..|xs| - 1] + [x];
      }
      if x in d then d else d + [x]
  }

  /** The deduplicated list keeps first-occurrence order: wherever `r[j]` occurs in
      the input, some earlier position holds `r[i]` for every `i < j`. */
  lemma {:induction false} DedupKeepsFirstOrder(xs: seq<string>)
    ensures FirstOrder(xs, Dedup(xs))
  {
    if xs != [] {
      var init := xs[..|xs| - 1];
      var x := xs[|xs| - 1];
      var d := Dedup(init);
      var r := Dedup(xs);
      DedupKeepsFirstOrder(init);
      forall i, j, m | 0 <= i < j < |r| && 0 <= m < |xs| && xs[m] == r[j]
        ensures r[i] in xs[..m]
      {
        assert r == d || (r == d + [x] && x !in init);
        if j < |d| {
          assert r[j] == d[j] && r[i] == d[i];
          if m < |init| {
            assert init[m] == xs[m] == d[j];
            assert xs[..m] == init[..m];
            assert FirstOrder(init, d);
            assert d[i] in init[..m];
          } else {
            assert d[i] in d;
            assert d[i] in init;
            assert xs[..m] == init;
          }
        } else {
          assert r[j] == x && x !in init && r[i] == d[i];
          assert m == |init|;
          assert xs[..m] == init;
        }
      }
    }
  }

  /** `r` lists values of `xs` in the order of their first occurrence there: every
      occurrence of `r[j]` in `xs` comes after some occurrence of each `r[i]`, `i < j`. */
  predicate FirstOrder(xs: seq<string>, r: seq<string>) {
    forall i, j, m :: 0 <= i < j < |r| && 0 <= m < |xs| && xs[m] == r[j] ==> r[i] in xs[..m]
  }

  /** A list without repeats comes through unchanged. */
  lemma {:induction false} DedupDistinct(xs: seq<string>)
    requires forall i, j :: 0 <= i < j < |xs| ==> xs[i] != xs[j]
    ensures Dedup(xs) == xs
  {
    if xs != [] {
      var init := xs[..|xs| - 1];
      DedupDistinct(init);
      assert xs[|xs| - 1] !in init;
      assert init + [xs[|xs| - 1]] == xs;
    }
  }

  /** The position of the first occurrence of `x`. */
  function IndexOf(xs: seq<string>, x: string): (i: nat)
    requires x in xs
    ensures i < |xs| && xs[i] == x && x !in xs[..i]
  {
    if xs[0] == x then 0
    else
      var i := 1 + IndexOf(xs[1..], x);
      assert xs[..i] == [xs[0]] + xs[1..][..i - 1];
      i
  }

  /** Resuming at `start`: the list from the first occurrence of `start` on, or the
      whole list when `start` is not given or not in it. */
  function Resume(xs: seq<string>, start: Option<string>): (r: seq<string>)
    ensures HasText(start) && start.value in xs ==>
      |r| > 0 && r[0] == start.value && exists i :: 0 <= i <= |xs| && r == xs[i..] && start.value !in xs[..i]
    ensures !(HasText(start) && start.value in xs) ==> r == xs
  {
    if HasText(start) && start.value in xs then
      var i := IndexOf(xs, start.value);
      xs[i..]
    else xs
  }

  /** The NEQ list the spider is built with. */
  function NeqList(neqsArg: Option<string>, fileNeqs: seq<string>, start: Option<string>): seq<string> {
    Resume(Dedup(Normalize(SplitArg(neqsArg) + fileNeqs)), start)
  }

  /** Every NEQ of the list is stripped and non-empty, no NEQ appears twice, and every
      one of them was given, in the argument or in the file. */
  lemma NeqListClean(neqsArg: Option<string>, fileNeqs: seq<string>, start: Option<string>)
    ensures var r := NeqList(neqsArg, fileNeqs, start);
      && (forall k :: 0 <= k < |r| ==> r[k] != "" && Bare(r[k]))
      && (forall i, j :: 0 <= i < j < |r| ==> r[i] != r[j])
      && (forall k :: 0 <= k < |r| ==> r[k] in Normalize(SplitArg(neqsArg) + fileNeqs))
  {
    var clean := Normalize(SplitArg(neqsArg) + fileNeqs);
    var d := Dedup(clean);
    assert forall k :: 0 <= k < |d| ==> d[k] in clean && d[k] != "" && Bare(d[k]) by {
      forall k | 0 <= k < |d| ensures d[k] in clean && d[k] != "" && Bare(d[k]) {
        assert d[k] in d;
        var m :| 0 <= m < |clean| && clean[m] == d[k];
      }
    }
    var i := ResumeAt(d, start);
    SuffixKeeps(d, clean, i);
  }

  /** Resuming takes a suffix. */
  lemma ResumeAt(xs: seq<string>, start: Option<string>) returns (i: nat)
    ensures i <= |xs| && Resume(xs, start) == xs[i..]
  {
    if HasText(start) && start.value in xs {
      i := IndexOf(xs, start.value);
    } else {
      i := 0;
    }
  }

  /** A suffix of a clean list without repeats is one too, and draws from the same
      values. */
  lemma SuffixKeeps(xs: seq<string>, from: seq<string>, i: nat)
    requires i <= |xs|
    requires forall k :: 0 <= k < |xs| ==> xs[k] in from && xs[k] != "" && Bare(xs[k])
    requires forall a, b :: 0 <= a < b < |xs| ==> xs[a] != xs[b]
    ensures var r := xs[i..];
      && (forall k :: 0 <= k < |r| ==> r[k] != "" && Bare(r[k]))
      && (forall a, b :: 0 <= a < b < |r| ==> r[a] != r[b])
      && (forall k :: 0 <= k < |r| ==> r[k] in from)
  {
    var r := xs[i..];
    assert forall k :: 0 <= k < |r| ==> r[k] == xs[i + k];
  }

  /** Without a resume point, or with one that is not in the list, the list is the
      deduplicated clean input; with one, it starts at that NEQ and is a suffix of it. */
  lemma NeqListResume(neqsArg: Option<string>, fileNeqs: seq<string>, start: Option<string>)
    ensures var full := Dedup(Normalize(SplitArg(neqsArg) + fileNeqs));
      var r := NeqList(neqsArg, fileNeqs, start);
      if HasText(start) && start.value in full
      then r == full[IndexOf(full, start.value)..] && r[0] == start.value
      else r == full
  {
  }

  // ---------------------------------------------------------------------------
  // proxy entries

  /** One pool entry read as `IP:PORT:USER:PASS`, else `IP,PORT,USER,PASS`, else a
      two-field `IP,PORT`, else taken as it is. */
  function ParseProxyEntry(entry: string): (c: ProxyAuth.Creds)
    ensures c.user != "" || c.password != "" ==>
      |Split(entry, ":")| == 4 || |Split(entry, ",")| == 4
  {
    var colon := Split(entry, ":");
    var parts := if |colon| != 4 then Split(entry, ",") else colon;
    if |parts| == 4 then ProxyAuth.Creds(parts[0] + ":" + parts[1], parts[2], parts[3])
    else if |parts| == 2 then ProxyAuth.Creds(parts[0] + ":" + parts[1], "", "")
    else ProxyAuth.Creds(entry, "", "")
  }

  /** `get_proxy_creds(index)`: the entry at `index` modulo the pool size. */
  function GetProxyCreds(pool: seq<string>, index: int): (c: ProxyAuth.Creds)
    ensures pool == [] ==> c == ProxyAuth.NoCreds
    ensures pool != [] ==> c == ParseProxyEntry(pool[index % |pool|])
  {
    if pool == [] then ProxyAuth.NoCreds else ParseProxyEntry(pool[index % |pool|])
  }

  /** The four fields of `IP:PORT:USER:PASS` come back as `IP:PORT`, user and password. */
  lemma ColonEntry(fields: seq<string>)
    requires |fields| == 4 && forall k :: 0 <= k < 4 ==> ':' !in fields[k]
    ensures ParseProxyEntry(Join(fields, ":")) == ProxyAuth.Creds(fields[0] + ":" + fields[1], fields[2], fields[3])
  {
    SplitJoin(fields, ":");
  }

  /** The four fields of `IP,PORT,USER,PASS` come back the same way, when no field holds
      a colon. */
  lemma CommaEntry(fields: seq<string>)
    requires |fields| == 4 && forall k :: 0 <= k < 4 ==> ',' !in fields[k] && ':' !in fields[k]
    ensures ParseProxyEntry(Join(fields, ",")) == ProxyAuth.Creds(fields[0] + ":" + fields[1], fields[2], fields[3])
  {
    var entry := Join(fields, ",");
    SplitJoin(fields, ",");
    JoinAvoids(fields, ",", ':');
    ContainsChar(entry, ':');
    SplitWithout(entry, ":");
    assert |Split(entry, ":")| == 1;
  }

  /** `IP,PORT` comes back as `IP:PORT` without credentials. */
  lemma CommaPairEntry(ip: string, port: string)
    requires ',' !in ip && ',' !in port && ':' !in ip && ':' !in port
    ensures ParseProxyEntry(ip + "," + port) == ProxyAuth.Creds(ip + ":" + port, "", "")
  {
    var entry := ip + "," + port;
    assert Join([ip, port], ",") == entry;
    SplitJoin([ip, port], ",");
    JoinAvoids([ip, port], ",", ':');
    ContainsChar(entry, ':');
    SplitWithout(entry, ":");
  }

  /** An entry with neither separator is used verbatim, without credentials. */
  lemma PlainEntry(entry: string)
    requires ',' !in entry && ':' !in entry
    ensures ParseProxyEntry(entry) == ProxyAuth.Creds(entry, "", "")
  {
    ContainsChar(entry, ':');
    ContainsChar(entry, ',');
    SplitWithout(entry, ":");
    SplitWithout(entry, ",");
  }

  // ---------------------------------------------------------------------------
  // requests

  datatype Method = Get | Post

  /** A request as the spider yields it; `proxy` is the `proxy` key of its meta. Every
      request of this spider also sets `dont_retry` and the same list of statuses it
      handles itself, which are not repeated here. */
  datatype Request = Request(
    url: string, httpMethod: Method, formdata: map<string, string>,
    headers: map<string, string>, proxy: Option<string>, callback: Callback, meta: Meta)

  /** The headers of the follow-up forms. */
  function FormHeaders(referer: string): map<string, string> {
    map["Origin" := Url.CtqOrigin, "Referer" := referer,
        "Content-Type" := "application/x-www-form-urlencoded"]
  }

  /** The request for a draft, through the given proxy or none. */
  function FormRequest(d: Draft, proxy: Option<ProxyAuth.Creds>): Request {
    match proxy
    case None => Request(d.url, Post, d.formdata, FormHeaders(d.referer), None, d.callback, d.meta)
    case Some(c) =>
      Request(d.url, Post, d.formdata, ProxyAuth.WithProxyAuth(FormHeaders(d.referer), c),
              Some(ProxyAuth.ProxyUrl(c)), d.callback, d.meta)
  }

  /** The fixed browser headers of `make_request`. */
  const BrowserHeaders: map<string, string> :=
    map["User-Agent" := "Mozilla/5.0 (Windows NT 10.0; Win64; x64) AppleWebKit/537.36 (KHTML, like Gecko) Chrome/120.0.0.0 Safari/537.36",
        "Accept" := "text/html,application/xhtml+xml,application/xml;q=0.9,image/avif,image/webp,image/apng,*/*;q=0.8",
        "Accept-Language" := "en-US,en;q=0.9,fr;q=0.8",
        "Accept-Encoding" := "gzip, deflate, br",
        "Connection" := "keep-alive",
        "Upgrade-Insecure-Requests" := "1",
        "Sec-Fetch-Dest" := "document",
        "Sec-Fetch-Mode" := "navigate",
        "Sec-Fetch-Site" := "same-origin",
        "Cache-Control" := "max-age=0"]

  /** The headers `make_request` starts from for a meta. */
  function RequestHeaders(meta: Meta): map<string, string> {
    if HasText(meta.referer) then BrowserHeaders["Referer" := meta.referer.value]
    else BrowserHeaders
  }

  /** The request `make_request` yields through the given proxy, or none. */
  function BuildRequest(url: string, callback: Callback, meta: Meta, httpMethod: Method,
                        formdata: map<string, string>, proxy: Option<ProxyAuth.Creds>): Request {
    match proxy
    case None =>
      Request(url, httpMethod, if httpMethod == Post then formdata else map[],
              RequestHeaders(meta), None, callback, meta)
    case Some(c) =>
      Request(url, httpMethod, if httpMethod == Post then formdata else map[],
              ProxyAuth.WithProxyAuth(RequestHeaders(meta), c), Some(ProxyAuth.ProxyUrl(c)), callback, meta)
  }

  /** A request from `make_request` goes where it was asked with the meta it was given,
      sends the form only when it is a POST, carries the referer the meta names, and goes
      through the proxy with its credentials exactly when one was drawn. */
  lemma BuildRequestShape(url: string, callback: Callback, meta: Meta, httpMethod: Method,
                          formdata: map<string, string>, proxy: Option<ProxyAuth.Creds>)
    ensures var r := BuildRequest(url, callback, meta, httpMethod, formdata, proxy);
      && r.url == url && r.callback == callback && r.meta == meta && r.httpMethod == httpMethod
      && r.formdata == (if httpMethod == Post then formdata else map[])
      && ("Referer" in r.headers <==> HasText(meta.referer))
      && (HasText(meta.referer) ==> r.headers["Referer"] == meta.referer.value)
      && r.proxy == (if proxy.Some? then Some(ProxyAuth.ProxyUrl(proxy.value)) else None)
      && (ProxyAuth.AuthHeader in r.headers <==> proxy.Some? && ProxyAuth.HasAuth(proxy.value))
      && (proxy.Some? && ProxyAuth.HasAuth(proxy.value) ==>
            r.headers[ProxyAuth.AuthHeader] == ProxyAuth.BasicAuth(proxy.value.user, proxy.value.password))
      && (forall k :: k != "Referer" && k != ProxyAuth.AuthHeader ==>
            (k in r.headers <==> k in BrowserHeaders) && (k in BrowserHeaders ==> r.headers[k] == BrowserHeaders[k]))
  {
    assert "Referer" !in BrowserHeaders && ProxyAuth.AuthHeader !in BrowserHeaders;
    if proxy.Some? {
      ProxyAuth.ProxyAuthAttached(RequestHeaders(meta), proxy.value);
    }
  }

  /** A GET of the start page for `neq`, with its own cookie jar. */
  predicate IsStartRequest(req: Request, neq: string) {
    req.url == StartUrl && req.httpMethod == Get && req.callback == ParseInitial
    && req.meta == SessionMeta(neq, Some("jar-" + neq))
  }

  /** The request goes through the pool entry at position `cursor` of the pool. */
  predicate ThroughProxy(req: Request, pool: seq<string>, cursor: int) {
    0 <= cursor < |pool| && req.proxy == Some(ProxyAuth.ProxyUrl(ParseProxyEntry(pool[cursor])))
  }

  /** At a position of the pool, `get_proxy_creds` reads the entry there. */
  lemma CredsAtCursor(pool: seq<string>, cursor: int)
    requires 0 <= cursor < |pool|
    ensures GetProxyCreds(pool, cursor) == ParseProxyEntry(pool[cursor])
  {
    ModBelow(cursor, |pool|);
  }

  /** The start request for `neq` through `proxy`. */
  lemma StartRequestFacts(neq: string, proxy: Option<ProxyAuth.Creds>)
    ensures var r := BuildRequest(StartUrl, ParseInitial, SessionMeta(neq, Some("jar-" + neq)), Get, map[], proxy);
      IsStartRequest(r, neq) && r.proxy == (if proxy.None? then None else Some(ProxyAuth.ProxyUrl(proxy.value)))
  {
  }

  /** `req` is the start request of the `k`-th NEQ, sent through the pool entry `k + 1`
      steps after cursor `start` (through none when the pool is empty). */
  predicate StartedAt(req: Request, neqs: seq<string>, pool: seq<string>, start: int, k: nat) {
    k < |neqs| && IsStartRequest(req, neqs[k])
    && (if pool == [] then req.proxy == None else 0 <= start < |pool| && ThroughProxy(req, pool, Advance(start, |pool|, k + 1)))
  }

  /** `reqs` are the start requests of the first `|reqs|` NEQs, in order: each one as
      `StartedAt` says. */
  predicate StartedInOrder(reqs: seq<Request>, neqs: seq<string>, pool: seq<string>, start: int)
    decreases |reqs|
  {
    |reqs| <= |neqs|
    && (reqs != [] ==>
          StartedInOrder(reqs[..|reqs| - 1], neqs, pool, start)
          && StartedAt(reqs[|reqs| - 1], neqs, pool, start, |reqs| - 1))
  }

  lemma StartedSnoc(reqs: seq<Request>, neqs: seq<string>, pool: seq<string>, start: int, req: Request)
    requires StartedInOrder(reqs, neqs, pool, start)
    requires StartedAt(req, neqs, pool, start, |reqs|)
    ensures StartedInOrder(reqs + [req], neqs, pool, start)
  {
    assert (reqs + [req])[..|reqs|] == reqs;
  }

  /** Every request of the batch is the start request for its place. */
  lemma {:induction false} StartedEach(reqs: seq<Request>, neqs: seq<string>, pool: seq<string>, start: int)
    requires StartedInOrder(reqs, neqs, pool, start)
    ensures forall k :: 0 <= k < |reqs| ==> StartedAt(reqs[k], neqs, pool, start, k)
    decreases |reqs|
  {
    if reqs != [] {
      var front := reqs[..|reqs| - 1];
      StartedEach(front, neqs, pool, start);
      forall k | 0 <= k < |reqs|
        ensures StartedAt(reqs[k], neqs, pool, start, k)
      {
        if k < |front| {
          assert reqs[k] == front[k];
        }
      }
    }
  }

  /** What a callback hands back to the framework. */
  datatype Outcome = Nothing | Send(request: Request) | Yield(record: Record)

  // ---------------------------------------------------------------------------
  // the spider

  class Spider {
    var neqs: seq<string>
    var proxyList: seq<string>
    var currentProxyIndex: int
    var totalRequests: nat
    var errors: nat

    /** The cursor is a position of the pool (or 0 when the pool is empty). */
    ghost predicate Valid()
      reads this`proxyList, this`currentProxyIndex
    {
      0 <= currentProxyIndex && (proxyList == [] ==> currentProxyIndex == 0)
      && (proxyList != [] ==> currentProxyIndex < |proxyList|)
    }

    /** `__init__`: the NEQs of the comma list and of the file, stripped, without blanks
        and repeats, resumed at `startNeq` when it is in the list; and the pool. */
    constructor (neqsArg: Option<string>, fileNeqs: seq<string>, startNeq: Option<string>,
                 proxiesJson: Option<seq<string>>)
      ensures neqs == NeqList(neqsArg, fileNeqs, startNeq)
      ensures proxyList == ProxyAuth.ProxyPool(proxiesJson)
      ensures currentProxyIndex == 0 && totalRequests == 0 && errors == 0
      ensures Valid()
    {
      neqs := SplitArg(neqsArg);
      proxyList := ProxyAuth.ProxyPool(proxiesJson);
      currentProxyIndex := 0;
      totalRequests := 0;
      errors := 0;
      new;
      neqs := neqs + fileNeqs;
      neqs := Dedup(Normalize(neqs));
      if HasText(startNeq) && startNeq.value in neqs {
        var startIndex := IndexOf(neqs, startNeq.value);
        neqs := neqs[startIndex..];
      }
    }

    /** `_next_proxy`: advance the cursor one step round the pool, then read the entry
        under it. */
    method NextProxy() returns (c: ProxyAuth.Creds)
      requires Valid()
      modifies this`currentProxyIndex
      ensures Valid()
      ensures proxyList == [] ==> c == ProxyAuth.NoCreds && currentProxyIndex == old(currentProxyIndex)
      ensures proxyList != [] ==>
        && currentProxyIndex == NextSlot(old(currentProxyIndex), |proxyList|)
        && c == GetProxyCreds(proxyList, currentProxyIndex)
    {
      if proxyList == [] {
        return ProxyAuth.NoCreds;
      }
      NextSlotIsMod(currentProxyIndex, |proxyList|);
      currentProxyIndex := (currentProxyIndex + 1) % |proxyList|;
      c := GetProxyCreds(proxyList, currentProxyIndex);
    }

    /** Send a draft: through the next proxy of the pool when there is one. */
    method SendDraft(d: Draft) returns (req: Request)
      requires Valid()
      modifies this`currentProxyIndex
      ensures Valid()
      ensures proxyList == [] ==> req == FormRequest(d, None) && currentProxyIndex == old(currentProxyIndex)
      ensures proxyList != [] ==>
        && currentProxyIndex == NextSlot(old(currentProxyIndex), |proxyList|)
        && req == FormRequest(d, Some(GetProxyCreds(proxyList, currentProxyIndex)))
    {
      if proxyList != [] {
        var c := NextProxy();
        req := FormRequest(d, Some(c));
      } else {
        req := FormRequest(d, None);
      }
    }

    /** What a callback's step comes to, from cursor `c0`: a stop yields nothing and a
        record yields the record, both with the cursor where it was; a next step sends
        its draft as a form request through the next entry of the pool, or through no
        proxy when the pool is empty. */
    predicate Answered(s: Step, o: Outcome, c0: int)
      reads this
    {
      match s
      case Stop => o == Nothing && currentProxyIndex == c0
      case Emit(r) => o == Yield(r) && currentProxyIndex == c0
      case Next(d) =>
        if proxyList == [] then o == Send(FormRequest(d, None)) && currentProxyIndex == c0
        else
          && 0 <= c0 < |proxyList|
          && currentProxyIndex == NextSlot(c0, |proxyList|)
          && o == Send(FormRequest(d, Some(GetProxyCreds(proxyList, currentProxyIndex))))
    }

    /** Carry out a step of a callback. */
    method Respond(s: Step) returns (o: Outcome)
      requires Valid()
      modifies this`currentProxyIndex
      ensures Valid()
      ensures Answered(s, o, old(currentProxyIndex))
      ensures s.Stop? ==> o == Nothing && currentProxyIndex == old(currentProxyIndex)
      ensures s.Emit? ==> o == Yield(s.record) && currentProxyIndex == old(currentProxyIndex)
      ensures s.Next? ==>
        && o.Send? && o.request.url == s.draft.url
        && o.request.formdata == s.draft.formdata && o.request.meta == s.draft.meta
        && o.request.callback == s.draft.callback
        && (proxyList == [] ==> o.request.proxy == None && currentProxyIndex == old(currentProxyIndex))
        && (proxyList != [] ==>
              currentProxyIndex == NextSlot(old(currentProxyIndex), |proxyList|)
              && o.request == FormRequest(s.draft, Some(GetProxyCreds(proxyList, currentProxyIndex))))
    {
      match s
      case Stop => o := Nothing;
      case Emit(r) => o := Yield(r);
      case Next(d) =>
        var req := SendDraft(d);
        o := Send(req);
    }

    /** `parse_initial`. */
    method ParseInitialPage(meta: Meta, page: SearchPage) returns (o: Outcome)
      requires Valid()
      modifies this`currentProxyIndex
      ensures Valid()
      ensures o.Send? <==> page.hasForm && HasText(page.viewState)
      ensures !o.Yield?
      ensures Answered(InitialStep(meta, page), o, old(currentProxyIndex))
    {
      o := Respond(InitialStep(meta, page));
    }

    /** `check_validity`. */
    method CheckValidityPage(meta: Meta, page: ResultPage) returns (o: Outcome)
      requires Valid()
      modifies this`currentProxyIndex
      ensures Valid()
      ensures o.Send? <==> Confirmed(meta, page)
      ensures !o.Yield?
      ensures Answered(ValidityStep(meta, page), o, old(currentProxyIndex))
    {
      ValidityDecision(meta, page);
      o := Respond(ValidityStep(meta, page));
    }

    /** `parse_vrac_result`. */
    method ParseVracPage(meta: Meta, page: VracPage) returns (o: Outcome)
      requires Valid()
      requires meta.ctqAction.Some? && meta.ctqFormdata.Some?
      modifies this`currentProxyIndex
      ensures Valid()
      ensures o.Yield? <==> !HasText(meta.ctqAction)
      ensures o.Yield? ==> o.record.vrac == VracCells(page)
      ensures Answered(VracStep(meta, page), o, old(currentProxyIndex))
    {
      o := Respond(VracStep(meta, page));
    }

    /** `parse_ctq_result` and `parse_ctq_result_with_vrac` draw no proxy: they only
        yield the record. */
    method ParseDetailPage(meta: Meta, page: DetailPage) returns (o: Outcome)
      ensures o == Yield(DetailRecord(meta, page, meta.vracData.GetOr(NoVrac)))
    {
      if meta.vracData.Some? {
        o := Yield(DetailWithVracStep(meta, page).record);
      } else {
        o := Yield(DetailStep(meta, page).record);
      }
    }

    /** `make_request`: the browser headers, the proxy when the pool has one, and one
        more request counted. */
    method MakeRequest(url: string, callback: Callback, meta: Meta, httpMethod: Method,
                       formdata: map<string, string>) returns (req: Request)
      requires Valid()
      modifies this`currentProxyIndex, this`totalRequests
      ensures Valid()
      ensures totalRequests == old(totalRequests) + 1
      ensures proxyList == [] ==>
        && currentProxyIndex == old(currentProxyIndex)
        && req == BuildRequest(url, callback, meta, httpMethod, formdata, None)
      ensures proxyList != [] ==>
        && currentProxyIndex == NextSlot(old(currentProxyIndex), |proxyList|)
        && req == BuildRequest(url, callback, meta, httpMethod, formdata, Some(GetProxyCreds(proxyList, currentProxyIndex)))
    {
      var headers := RequestHeaders(meta);
      var proxy: Option<string> := None;
      if proxyList != [] {
        var c := NextProxy();
        headers := ProxyAuth.WithProxyAuth(headers, c);
        proxy := Some(ProxyAuth.ProxyUrl(c));
      }
      totalRequests := totalRequests + 1;
      req := Request(url, httpMethod, if httpMethod == Post then formdata else map[], headers, proxy, callback, meta);
    }

    /** `start_requests`: one GET of the start page per NEQ, in list order, each with its
        own cookie jar; the pool is walked round-robin, one step per request. */
    method StartRequests() returns (reqs: seq<Request>)
      requires Valid()
      modifies this`currentProxyIndex, this`totalRequests
      ensures Valid()
      ensures |reqs| == |neqs| && totalRequests == old(totalRequests) + |neqs|
      ensures forall k :: 0 <= k < |reqs| ==> StartedAt(reqs[k], neqs, proxyList, old(currentProxyIndex), k)
      ensures currentProxyIndex == if proxyList == [] then old(currentProxyIndex)
                                   else Advance(old(currentProxyIndex), |proxyList|, |neqs|)
    {
      ghost var start := currentProxyIndex;
      reqs := [];
      var i := 0;
      while i < |neqs|
        invariant 0 <= i <= |neqs| && |reqs| == i
        invariant Valid()
        invariant totalRequests == old(totalRequests) + i
        invariant StartedInOrder(reqs, neqs, proxyList, start)
        invariant currentProxyIndex == if proxyList == [] then start else Advance(start, |proxyList|, i)
      {
        var req := SendStart(neqs[i]);
        StartedSnoc(reqs, neqs, proxyList, start, req);
        reqs := reqs + [req];
        i := i + 1;
      }
      StartedEach(reqs, neqs, proxyList, start);
    }

    /** The start request of one NEQ, through the next entry of the pool. */
    method SendStart(neq: string) returns (req: Request)
      requires Valid()
      modifies this`currentProxyIndex, this`totalRequests
      ensures Valid()
      ensures totalRequests == old(totalRequests) + 1
      ensures IsStartRequest(req, neq)
      ensures proxyList == [] ==> req.proxy == None && currentProxyIndex == old(currentProxyIndex)
      ensures proxyList != [] ==>
        && currentProxyIndex == NextSlot(old(currentProxyIndex), |proxyList|)
        && ThroughProxy(req, proxyList, currentProxyIndex)
    {
      req := MakeRequest(StartUrl, ParseInitial, SessionMeta(neq, Some("jar-" + neq)), Get, map[]);
      if proxyList != [] {
        CredsAtCursor(proxyList, currentProxyIndex);
      }
      StartRequestFacts(neq, if proxyList == [] then None else Some(GetProxyCreds(proxyList, currentProxyIndex)));
    }

    /** `handle_error`: without the failed request, or without a pool, count one more
        error; with a pool, re-issue the request through the next proxy, with its
        credentials set or removed. */
    method HandleError(failed: Option<Request>) returns (retry: Option<Request>)
      requires Valid()
      modifies this`currentProxyIndex, this`errors
      ensures Valid()
      ensures retry.Some? <==> failed.Some? && proxyList != []
      ensures errors == old(errors) + (if retry.None? then 1 else 0)
      ensures retry.None? ==> currentProxyIndex == old(currentProxyIndex)
      ensures retry.Some? ==>
        && currentProxyIndex == NextSlot(old(currentProxyIndex), |proxyList|)
        && var c := GetProxyCreds(proxyList, currentProxyIndex);
           retry.value == failed.value.(proxy := Some(ProxyAuth.ProxyUrl(c)),
                                        headers := ProxyAuth.WithProxyAuth(failed.value.headers, c))
    {
      if failed.None? {
        errors := errors + 1;
        return None;
      }
      var req := failed.value;
      if proxyList != [] {
        var c := NextProxy();
        retry := Some(req.(proxy := Some(ProxyAuth.ProxyUrl(c)), headers := ProxyAuth.WithProxyAuth(req.headers, c)));
      } else {
        errors := errors + 1;
        retry := None;
      }
    }
  }
}
