/**
 * `ReqScraperSpider` (`spiders/neq_confirmation.py`): for each NEQ of a CSV file, ask
 * the CTQ registry and then the RBQ licence registry whether the enterprise is
 * listed, and emit `{"NEQ", "RBQ", "CTQ"}` when at least one of them says "Yes".
 * Requests go through a residential proxy endpoint when one is configured, else
 * through a rotating pool read from `proxies.json`.
 *
 * Page contents are the parameters of the callbacks; the CSV and JSON files are
 * given as what reading them returned.
 */
module NeqConfirmation {
  import opened Common
  import opened Str
  import ProxyAuth
  import Url
  import opened RoundRobin

  // ---------------------------------------------------------------------------
  // the NEQ column

  /** Header names taken as the NEQ column outright, once stripped and lower-cased. */
  const AcceptedColumns: set<string> := {"neq_numbers", "neq", "neques", "req", "neqnumber", "neqs"}

  /** `col.strip().lower()`. */
  function NormColumn(col: string): string { Lower(Strip(col)) }

  /** A header taken as the NEQ column outright. */
  predicate AcceptedName(col: string) { NormColumn(col) in AcceptedColumns }

  /** A header that mentions `neq`. */
  predicate MentionsNeq(col: string) { Contains(NormColumn(col), "neq") }

  /** The position of the first header with property `p`. */
  function FirstWhere(cols: seq<string>, p: string -> bool): (r: Option<nat>)
    ensures r.Some? ==> r.value < |cols| && p(cols[r.value])
    ensures r.Some? ==> forall j :: 0 <= j < r.value ==> !p(cols[j])
    ensures r.None? <==> forall j :: 0 <= j < |cols| ==> !p(cols[j])
  {
    if cols == [] then None
    else if p(cols[0]) then Some(0)
    else match FirstWhere(cols[1..], p)
      case None => None
      case Some(i) => Some(i + 1)
  }

  /** The NEQ column: the first accepted name, else the first header mentioning `neq`,
      else the only header of a one-column file, else none. */
  function NeqColumn(cols: seq<string>): (r: Option<string>)
    ensures r.Some? ==> r.value in cols
    ensures (exists i :: 0 <= i < |cols| && AcceptedName(cols[i])) ==>
      exists i :: 0 <= i < |cols| && r == Some(cols[i]) && AcceptedName(cols[i])
        && forall j :: 0 <= j < i ==> !AcceptedName(cols[j])
    ensures ((forall i :: 0 <= i < |cols| ==> !AcceptedName(cols[i]))
             && (exists i :: 0 <= i < |cols| && MentionsNeq(cols[i]))) ==>
      exists i :: 0 <= i < |cols| && r == Some(cols[i]) && MentionsNeq(cols[i])
        && forall j :: 0 <= j < i ==> !MentionsNeq(cols[j])
    ensures r.None? <==>
      (forall i :: 0 <= i < |cols| ==> !AcceptedName(cols[i]) && !MentionsNeq(cols[i]))
      && |cols| != 1
  {
    match FirstWhere(cols, AcceptedName)
    case Some(i) => Some(cols[i])
    case None =>
      match FirstWhere(cols, MentionsNeq)
      case Some(i) => Some(cols[i])
      case None => if |cols| == 1 then Some(cols[0]) else None
  }

  /** One scan of the header for the first column with property `p` (the `for` loop
      with `break`). */
  method ScanColumns(cols: seq<string>, p: string -> bool) returns (found: Option<nat>)
    ensures found == FirstWhere(cols, p)
  {
    var i := 0;
    while i < |cols|
      invariant 0 <= i <= |cols|
      invariant forall j :: 0 <= j < i ==> !p(cols[j])
    {
      if p(cols[i]) {
        return Some(i);
      }
      i := i + 1;
    }
    return None;
  }

  /** The column detection of `__init__`. */
  method FindNeqColumn(cols: seq<string>) returns (target: Option<string>)
    ensures target == NeqColumn(cols)
  {
    var found := ScanColumns(cols, AcceptedName);
    if found.None? {
      found := ScanColumns(cols, MentionsNeq);
    }
    target := None;
    if found.Some? {
      target := Some(cols[found.value]);
    } else if |cols| == 1 {
      target := Some(cols[0]);
    }
  }

  // ---------------------------------------------------------------------------
  // the NEQ values

  /** One CSV row: the cells by header name (a short row lacks the last names). */
  type Row = map<string, string>

  /** `row.get(col) or ""`. */
  function Cell(row: Row, col: string): string {
    if col in row then row[col] else ""
  }

  /** The cells of one column, row by row. */
  function ColumnCells(rows: seq<Row>, col: string): (r: seq<string>)
    ensures |r| == |rows| && forall k :: 0 <= k < |rows| ==> r[k] == Cell(rows[k], col)
  {
    seq(|rows|, k requires 0 <= k < |rows| => Cell(rows[k], col))
  }

  /** One more row adds its stripped cell, unless that is blank. */
  lemma LoadStep(rows: seq<Row>, col: string, i: nat)
    requires i < |rows|
    ensures Normalize(ColumnCells(rows[..i + 1], col))
         == Normalize(ColumnCells(rows[..i], col))
            + (if Strip(Cell(rows[i], col)) != "" then [Strip(Cell(rows[i], col))] else [])
  {
    var x := Cell(rows[i], col);
    assert ColumnCells(rows[..i + 1], col) == ColumnCells(rows[..i], col) + [x];
    NormalizeAppend(ColumnCells(rows[..i], col), [x]);
    assert [x][1..] == [];
  }

  /** The row loop of `__init__`: each stripped, non-blank value of the column, in row
      order. */
  method LoadColumn(rows: seq<Row>, col: string) returns (neqs: seq<string>)
    ensures neqs == Normalize(ColumnCells(rows, col))
  {
    neqs := [];
    var i := 0;
    while i < |rows|
      invariant 0 <= i <= |rows|
      invariant neqs == Normalize(ColumnCells(rows[..i], col))
    {
      var raw := Strip(Cell(rows[i], col));
      LoadStep(rows, col, i);
      if raw != "" {
        neqs := neqs + [raw];
      }
      i := i + 1;
    }
    assert rows[..i] == rows;
  }

  /** Loading keeps every value, repeated ones included: the rows of two files give the
      values of the first followed by those of the second, and each value is a stripped
      non-blank cell of the column. */
  lemma LoadedValues(rows: seq<Row>, more: seq<Row>, col: string, x: string)
    ensures Normalize(ColumnCells(rows + more, col))
         == Normalize(ColumnCells(rows, col)) + Normalize(ColumnCells(more, col))
    ensures x in Normalize(ColumnCells(rows, col)) <==>
      x != "" && exists k :: 0 <= k < |rows| && Strip(Cell(rows[k], col)) == x
  {
    assert ColumnCells(rows + more, col) == ColumnCells(rows, col) + ColumnCells(more, col);
    NormalizeAppend(ColumnCells(rows, col), ColumnCells(more, col));
    NormalizeMembers(ColumnCells(rows, col), x);
  }

  /** A CSV file as read: its header (empty for an empty file) and its rows. */
  datatype Csv = Csv(fieldnames: seq<string>, rows: seq<Row>)

  /** The NEQ list of a file: nothing without a file or an NEQ column. */
  function NeqList(input: Option<Csv>): (r: seq<string>)
    ensures forall k :: 0 <= k < |r| ==> r[k] != "" && Bare(r[k])
  {
    match input
    case None => []
    case Some(csv) =>
      match NeqColumn(csv.fieldnames)
      case None => []
      case Some(col) => Normalize(ColumnCells(csv.rows, col))
  }

  /** The NEQs of the input file, when there is one and it has an NEQ column. */
  method ReadNeqs(input: Option<Csv>) returns (neqs: seq<string>)
    ensures neqs == NeqList(input)
  {
    neqs := [];
    if input.Some? {
      var col := FindNeqColumn(input.value.fieldnames);
      if col.Some? {
        neqs := LoadColumn(input.value.rows, col.value);
      }
    }
  }

  // ---------------------------------------------------------------------------
  // the confirmation workflow

  const CtqSearchUrl: string := "https://www.pes.ctq.gouv.qc.ca/pes2/mvc/dossierclient"
  const RbqSearchUrl: string := "https://www.pes.rbq.gouv.qc.ca/RegistreLicences/Recherche?mode=Entreprise"

  datatype Callback = InitCtq | ParseCtqRedirect | ParseCtqResult | InitRbq | ParseRbqRedirect | ParseRbqResult

  /** The meta a request carries: the NEQ, and from the RBQ search on the CTQ verdict
      (`"Yes"` as true). */
  datatype Meta = Meta(neq: string, ctq: Option<bool>)

  /** What a callback asks for next: `post` with `formdata`, or a plain GET. */
  datatype Draft = Draft(url: string, callback: Callback, meta: Meta, post: bool, formdata: map<string, string>)

  /** One emitted item. */
  datatype Confirmation = Confirmation(neq: string, rbq: string, ctq: string)

  datatype Step = Fetch(draft: Draft) | Emit(item: Confirmation) | Nothing

  function YesNo(b: bool): (s: string)
    ensures s == "Yes" || s == "No"
  {
    if b then "Yes" else "No"
  }

  /** `start_requests`: the CTQ search page for one NEQ. */
  function StartDraft(neq: string): Draft {
    Draft(CtqSearchUrl, InitCtq, Meta(neq, None), false, map[])
  }

  /** The CTQ search form for one NEQ. */
  function CtqPayload(neq: string): (m: map<string, string>)
    ensures "mainForm:neq" in m && m["mainForm:neq"] == neq
    ensures "javax.faces.ViewState" in m && m["javax.faces.ViewState"] == "e1s1"
  {
    map["mainForm:typeDroit" := "", "mainForm:personnePhysique" := "",
        "mainForm:municipalite" := "", "mainForm:municipaliteHorsQuebec" := "",
        "mainForm:neq" := neq, "mainForm:nir" := "", "mainForm:ni" := "",
        "mainForm:ner" := "", "mainForm:nar" := "", "mainForm:numeroPermis" := "",
        "mainForm:numeroDemande" := "", "mainForm:numeroDossier" := "",
        "mainForm:j_id_32" := "Rechercher", "mainForm_SUBMIT" := "1",
        "javax.faces.ViewState" := "e1s1"]
  }

  /** `init_ctq_request`: the search form posted back to the page's URL. */
  function InitCtqStep(url: string, meta: Meta): Draft {
    Draft(url, ParseCtqRedirect, Meta(meta.neq, None), true, CtqPayload(meta.neq))
  }

  /** `start_rbq_check`: the RBQ search page, carrying the CTQ verdict. */
  function RbqStart(neq: string, ctq: bool): Draft {
    Draft(RbqSearchUrl, InitRbq, Meta(neq, Some(ctq)), false, map[])
  }

  /** `parse_ctq_redirect`: follow the form action to the result page, or go on to the
      RBQ with a CTQ "No" when the page has none. */
  function CtqRedirectStep(neq: string, action: Option<string>): (d: Draft)
    ensures !HasText(action) <==> d == RbqStart(neq, false)
    ensures HasText(action) ==>
      d.callback == ParseCtqResult && d.meta == Meta(neq, None) && !d.post
  {
    Url.OriginsAreHttps();
    if HasText(action) then
      Draft(Url.JoinOrigin(Url.CtqOrigin, action.value), ParseCtqResult, Meta(neq, None), false, map[])
    else RbqStart(neq, false)
  }

  /** What `parse_ctq_result` reads: the error heading, and the first text of a
      paragraph after an `acronym`. */
  datatype CtqResultPage = CtqResultPage(hasErrors: bool, displayedNeq: Option<string>)

  /** The CTQ verdict: no error heading, and the displayed NEQ is the one asked for. */
  predicate CtqListed(page: CtqResultPage, neq: string) {
    !page.hasErrors && page.displayedNeq == Some(neq)
  }

  /** `parse_ctq_result`: on to the RBQ with the verdict. */
  function CtqResultStep(neq: string, page: CtqResultPage): Draft {
    RbqStart(neq, CtqListed(page, neq))
  }

  /** The RBQ search form for one NEQ. */
  function RbqPayload(neq: string): (m: map<string, string>)
    ensures "NEQ" in m && m["NEQ"] == neq
  {
    map["NomEntreprise" := "", "NoLicence" := "", "NEQ" := neq, "NoTelephone" := "",
        "g-recaptcha-response" := ""]
  }

  /** `init_rbq_request`: the search form posted back to the page's URL. */
  function InitRbqStep(url: string, neq: string, ctq: bool): Draft {
    Draft(url, ParseRbqRedirect, Meta(neq, Some(ctq)), true, RbqPayload(neq))
  }

  /** `parse_rbq_redirect`: follow the form action, or, without one, emit an RBQ "No"
      when the CTQ said "Yes" and nothing otherwise. */
  function RbqRedirectStep(neq: string, ctq: bool, action: Option<string>): (s: Step)
    ensures HasText(action) <==> s.Fetch?
    ensures s.Fetch? ==> s.draft.callback == ParseRbqResult && s.draft.meta == Meta(neq, Some(ctq))
    ensures s.Emit? <==> !HasText(action) && ctq
    ensures s.Emit? ==> s.item == Confirmation(neq, "No", "Yes")
  {
    Url.OriginsAreHttps();
    if HasText(action) then
      Fetch(Draft(Url.JoinOrigin(Url.RbqOrigin, action.value), ParseRbqResult, Meta(neq, Some(ctq)), false, map[]))
    else if ctq then Emit(Confirmation(neq, "No", YesNo(ctq)))
    else Nothing
  }

  /** `parse_rbq_result`: the RBQ says "Yes" when the page has a results navigation; an
      item is emitted unless both registries said "No". */
  function RbqResultStep(neq: string, ctq: bool, hasResults: bool): (s: Step)
    ensures s.Emit? <==> hasResults || ctq
    ensures !s.Fetch?
    ensures s.Emit? ==> s.item == Confirmation(neq, YesNo(hasResults), YesNo(ctq))
  {
    var rbq := YesNo(hasResults);
    var ctqResult := YesNo(ctq);
    if !(rbq == "No" && ctqResult == "No") then Emit(Confirmation(neq, rbq, ctqResult)) else Nothing
  }

  /** The whole exchange for one NEQ, from the CTQ redirect page to the RBQ result
      page: what it emits, if anything. */
  function Confirm(neq: string, ctqAction: Option<string>, ctqPage: CtqResultPage,
                   rbqAction: Option<string>, rbqHasResults: bool): Option<Confirmation>
  {
    var ctq := HasText(ctqAction) && CtqListed(ctqPage, neq);
    match RbqRedirectStep(neq, ctq, rbqAction)
    case Emit(item) => Some(item)
    case Nothing => None
    case Fetch(_) =>
      match RbqResultStep(neq, ctq, rbqHasResults)
      case Emit(item) => Some(item)
      case _ => None
  }

  /** An item comes out exactly when one of the registries lists the NEQ, and it says
      which: the CTQ when its result page shows the NEQ without errors, the RBQ when its
      result page has results. */
  lemma ConfirmIffListed(neq: string, ctqAction: Option<string>, ctqPage: CtqResultPage,
                         rbqAction: Option<string>, rbqHasResults: bool)
    ensures var ctq := HasText(ctqAction) && CtqListed(ctqPage, neq);
      var rbq := HasText(rbqAction) && rbqHasResults;
      && (Confirm(neq, ctqAction, ctqPage, rbqAction, rbqHasResults).Some? <==> ctq || rbq)
      && (ctq || rbq ==>
            Confirm(neq, ctqAction, ctqPage, rbqAction, rbqHasResults)
            == Some(Confirmation(neq, YesNo(rbq), YesNo(ctq))))
  {
    var ctq := HasText(ctqAction) && CtqListed(ctqPage, neq);
    if HasText(ctqAction) {
      assert CtqRedirectStep(neq, ctqAction).callback == ParseCtqResult;
    } else {
      assert CtqRedirectStep(neq, ctqAction) == RbqStart(neq, false);
    }
  }

  // ---------------------------------------------------------------------------
  // proxies and requests

  /** `get_proxy_creds(index)`: the entry at `index` modulo the pool size, read as
      `IP:PORT:USER:PASS` or else taken as it is. */
  function GetProxyCreds(pool: seq<string>, index: int): (c: ProxyAuth.Creds)
    ensures pool == [] ==> c == ProxyAuth.NoCreds
    ensures pool != [] && |Split(pool[index % |pool|], ":")| != 4 ==>
      c == ProxyAuth.Creds(pool[index % |pool|], "", "")
  {
    if pool == [] then ProxyAuth.NoCreds
    else
      var entry := pool[index % |pool|];
      var parts := Split(entry, ":");
      if |parts| == 4 then ProxyAuth.Creds(parts[0] + ":" + parts[1], parts[2], parts[3])
      else ProxyAuth.Creds(entry, "", "")
  }

  /** The four fields of `IP:PORT:USER:PASS` come back as `IP:PORT`, user and password. */
  lemma ProxyCredsFields(pool: seq<string>, index: int, fields: seq<string>)
    requires pool != [] && pool[index % |pool|] == Join(fields, ":")
    requires |fields| == 4 && forall k :: 0 <= k < 4 ==> ':' !in fields[k]
    ensures GetProxyCreds(pool, index) == ProxyAuth.Creds(fields[0] + ":" + fields[1], fields[2], fields[3])
  {
    SplitJoin(fields, ":");
  }

  /** An entry without a colon, or with a number of fields other than four, carries no
      credentials. */
  lemma ProxyCredsPlain(pool: seq<string>, index: int)
    requires pool != [] && ':' !in pool[index % |pool|]
    ensures GetProxyCreds(pool, index) == ProxyAuth.Creds(pool[index % |pool|], "", "")
    ensures !ProxyAuth.HasAuth(GetProxyCreds(pool, index))
  {
    ContainsChar(pool[index % |pool|], ':');
    SplitWithout(pool[index % |pool|], ":");
  }

  /** How a request leaves: directly, or through a proxy URL with an optional
      `Proxy-Authorization` value. */
  datatype Route = Direct | Via(proxyUrl: string, auth: Option<string>)

  /** The spider's settings from the crawler: the residential endpoint and its
      credentials. */
  datatype Settings = Settings(host: string, port: string, user: string, password: string)

  /** Each setting stripped of surrounding whitespace. */
  function Stripped(s: Settings): (r: Settings)
    ensures Bare(r.host) && Bare(r.port) && Bare(r.user) && Bare(r.password)
  {
    StripIsBare(s.host);
    StripIsBare(s.port);
    StripIsBare(s.user);
    StripIsBare(s.password);
    Settings(Strip(s.host), Strip(s.port), Strip(s.user), Strip(s.password))
  }

  /** The residential endpoint is used only when host, port, user and password are all
      set. */
  predicate ResidentialConfigured(s: Settings) {
    s.host != "" && s.port != "" && s.user != "" && s.password != ""
  }

  /** The `proxy` meta URL of the residential endpoint. */
  function ResidentialUrl(s: Settings): string { "http://" + s.host + ":" + s.port }

  /** The route of `make_request`: the residential endpoint first, else the pool entry
      at the cursor, else none. */
  function RouteFor(residential: bool, resi: Settings, pool: seq<string>, index: int): (r: Route)
    ensures residential ==> r == Via(ResidentialUrl(resi), Some(ProxyAuth.BasicAuth(resi.user, resi.password)))
    ensures !residential && pool == [] ==> r == Direct
    ensures !residential && pool != [] ==>
      var c := GetProxyCreds(pool, index);
      r == Via(ProxyAuth.ProxyUrl(c), PoolAuth(c))
  {
    if residential then Via(ResidentialUrl(resi), Some(ProxyAuth.BasicAuth(resi.user, resi.password)))
    else if pool != [] then
      var c := GetProxyCreds(pool, index);
      Via(ProxyAuth.ProxyUrl(c), PoolAuth(c))
    else Direct
  }

  /** With the residential proxy on, the pool and its cursor play no part: every
      request goes through the one endpoint with its credentials. */
  lemma ResidentialIgnoresPool(resi: Settings, pool: seq<string>, index: int, pool': seq<string>, index': int)
    ensures RouteFor(true, resi, pool, index) == RouteFor(true, resi, pool', index')
    ensures RouteFor(true, resi, pool, index).Via? && RouteFor(true, resi, pool, index).auth.Some?
  {
  }

  datatype Method = Get | Post

  /** A request as the spider yields it; `proxy` is the `proxy` key of its meta. Every
      request also sets `dont_retry` and the statuses it handles itself, which are the
      same for all and not repeated here. */
  datatype Request = Request(url: string, httpMethod: Method, formdata: map<string, string>,
                             headers: map<string, string>, proxy: Option<string>,
                             callback: Callback, meta: Meta)

  /** The fixed headers of `make_request`. */
  const BaseHeaders: map<string, string> :=
    map["User-Agent" := "Mozilla/5.0 (Windows NT 10.0; Win64; x64)",
        "Accept" := "text/html,application/xhtml+xml,application/xml;q=0.9,*/*;q=0.8",
        "Accept-Language" := "en-US,en;q=0.9",
        "Connection" := "close"]

  lemma BaseHeadersCarryNoAuth()
    ensures ProxyAuth.AuthHeader !in BaseHeaders
  {
  }

  /** The `Proxy-Authorization` value for a pool entry, if it has credentials. */
  function PoolAuth(c: ProxyAuth.Creds): (r: Option<string>)
    ensures r.Some? <==> ProxyAuth.HasAuth(c)
  {
    if ProxyAuth.HasAuth(c) then Some(ProxyAuth.BasicAuth(c.user, c.password)) else None
  }

  /** The headers of a request with the given `Proxy-Authorization` value, if any. */
  function HeadersWith(auth: Option<string>): map<string, string> {
    match auth
    case Some(a) => BaseHeaders[ProxyAuth.AuthHeader := a]
    case None => BaseHeaders
  }

  /** The headers of a request through a pool entry are the fixed ones with that entry's
      credentials set. */
  lemma PoolHeaders(c: ProxyAuth.Creds)
    ensures HeadersWith(PoolAuth(c)) == ProxyAuth.WithProxyAuth(BaseHeaders, c)
  {
    BaseHeadersCarryNoAuth();
    if !ProxyAuth.HasAuth(c) {
      assert BaseHeaders - {ProxyAuth.AuthHeader} == BaseHeaders;
    }
  }

  /** The request `make_request` builds for a draft along a route. */
  function BuildRequest(d: Draft, route: Route): (r: Request)
    ensures r.url == d.url && r.callback == d.callback && r.meta == d.meta
    ensures r.httpMethod == (if d.post then Post else Get)
    ensures r.proxy == (if route.Via? then Some(route.proxyUrl) else None)
    ensures ProxyAuth.AuthHeader in r.headers <==> route.Via? && route.auth.Some?
    ensures route.Via? && route.auth.Some? ==> r.headers[ProxyAuth.AuthHeader] == route.auth.value
    ensures forall k :: k != ProxyAuth.AuthHeader ==>
      (k in r.headers <==> k in BaseHeaders) && (k in BaseHeaders ==> r.headers[k] == BaseHeaders[k])
    ensures r.formdata == (if d.post then d.formdata else map[])
  {
    var headers := HeadersWith(if route.Via? then route.auth else None);
    var proxy := if route.Via? then Some(route.proxyUrl) else None;
    BaseHeadersCarryNoAuth();
    Request(d.url, if d.post then Post else Get, if d.post then d.formdata else map[],
            headers, proxy, d.callback, d.meta)
  }

  /** `reqs` are the start requests of the first `|reqs|` NEQs along one route, in
      order. */
  predicate StartedInOrder(reqs: seq<Request>, neqs: seq<string>, route: Route)
    decreases |reqs|
  {
    |reqs| <= |neqs|
    && (reqs != [] ==>
          StartedInOrder(reqs[..|reqs| - 1], neqs, route)
          && reqs[|reqs| - 1] == BuildRequest(StartDraft(neqs[|reqs| - 1]), route))
  }

  lemma StartedSnoc(reqs: seq<Request>, neqs: seq<string>, route: Route)
    requires StartedInOrder(reqs, neqs, route) && |reqs| < |neqs|
    ensures StartedInOrder(reqs + [BuildRequest(StartDraft(neqs[|reqs|]), route)], neqs, route)
  {
    assert (reqs + [BuildRequest(StartDraft(neqs[|reqs|]), route)])[..|reqs|] == reqs;
  }

  /** The `k`-th request of the batch is the start request of the `k`-th NEQ. */
  lemma {:induction false} StartedEach(reqs: seq<Request>, neqs: seq<string>, route: Route)
    requires StartedInOrder(reqs, neqs, route)
    ensures forall k :: 0 <= k < |reqs| ==> reqs[k] == BuildRequest(StartDraft(neqs[k]), route)
    decreases |reqs|
  {
    if reqs != [] {
      var front := reqs[..|reqs| - 1];
      StartedEach(front, neqs, route);
      forall k | 0 <= k < |reqs|
        ensures reqs[k] == BuildRequest(StartDraft(neqs[k]), route)
      {
        if k < |front| {
          assert reqs[k] == front[k];
        }
      }
    }
  }

  /** A failed request sent again through the residential endpoint: its proxy and
      credentials set again, and the connection closed. */
  function ResidentialRetry(req: Request, resi: Settings): Request {
    req.(proxy := Some(ResidentialUrl(resi)),
         headers := req.headers[ProxyAuth.AuthHeader := ProxyAuth.BasicAuth(resi.user, resi.password)]["Connection" := "close"])
  }

  /** A failed request sent again through another pool entry. */
  function PoolRetry(req: Request, c: ProxyAuth.Creds): Request {
    req.(proxy := Some(ProxyAuth.ProxyUrl(c)), headers := ProxyAuth.WithProxyAuth(req.headers, c))
  }

  /** A request retried through pool entry `j` is the request that would have been
      built for entry `j` in the first place: the proxy and the credentials of the
      failed entry leave no trace. */
  lemma PoolRetryIsFresh(d: Draft, resi: Settings, pool: seq<string>, i: int, j: int)
    requires pool != []
    ensures PoolRetry(BuildRequest(d, RouteFor(false, resi, pool, i)), GetProxyCreds(pool, j))
         == BuildRequest(d, RouteFor(false, resi, pool, j))
  {
    var ci, cj := GetProxyCreds(pool, i), GetProxyCreds(pool, j);
    BaseHeadersCarryNoAuth();
    ProxyAuth.WithProxyAuthForgets(BaseHeaders, PoolAuth(ci), cj);
    PoolHeaders(ci);
    PoolHeaders(cj);
  }

  /** Retrying through the residential endpoint sends the same request again. */
  lemma ResidentialRetrySame(d: Draft, resi: Settings, pool: seq<string>, i: int)
    ensures var req := BuildRequest(d, RouteFor(true, resi, pool, i));
      ResidentialRetry(req, resi) == req
  {
    var req := BuildRequest(d, RouteFor(true, resi, pool, i));
    assert "Connection" in req.headers && req.headers["Connection"] == "close";
    assert req.headers[ProxyAuth.AuthHeader := ProxyAuth.BasicAuth(resi.user, resi.password)]["Connection" := "close"]
        == req.headers;
  }

  /** What a callback leads to once its step is carried out. */
  datatype Outcome = Sent(request: Request) | Yielded(item: Confirmation) | Done

  class Spider {
    var neqList: seq<string>
    var proxyList: seq<string>
    var currentProxyIndex: int
    var totalRequests: nat
    var errors: nat
    var useResidential: bool
    var resi: Settings

    /** The cursor is a position of the pool (0 when the pool is empty), and the
        residential endpoint is on exactly when all four settings are set. */
    ghost predicate Valid()
      reads this`proxyList, this`currentProxyIndex, this`useResidential, this`resi
    {
      && 0 <= currentProxyIndex && (proxyList == [] ==> currentProxyIndex == 0)
      && (proxyList != [] ==> currentProxyIndex < |proxyList|)
      && useResidential == ResidentialConfigured(resi)
    }

    /** `__init__` followed by `from_crawler`: the pool from `proxies.json` (none when
        it is missing or not a list), the NEQs from the input file, and the residential
        settings stripped. */
    constructor (proxiesJson: Option<seq<string>>, input: Option<Csv>, settings: Settings)
      ensures proxyList == ProxyAuth.ProxyPool(proxiesJson)
      ensures neqList == NeqList(input)
      ensures resi == Stripped(settings)
      ensures currentProxyIndex == 0 && totalRequests == 0 && errors == 0
      ensures Valid()
    {
      var neqs := ReadNeqs(input);
      var stripped := Stripped(settings);
      var pool := ProxyAuth.ProxyPool(proxiesJson);
      var on := ResidentialConfigured(stripped);
      neqList, proxyList, resi, useResidential := neqs, pool, stripped, on;
      currentProxyIndex, totalRequests, errors := 0, 0, 0;
    }

    /** The route requests take now. */
    function CurrentRoute(): Route
      reads this`proxyList, this`currentProxyIndex, this`useResidential, this`resi
    {
      RouteFor(useResidential, resi, proxyList, currentProxyIndex)
    }

    /** `make_request`: the request along the current route; one more request counted,
        the cursor left where it is. */
    method MakeRequest(d: Draft) returns (req: Request)
      requires Valid()
      modifies this`totalRequests
      ensures Valid()
      ensures req == BuildRequest(d, CurrentRoute())
      ensures totalRequests == old(totalRequests) + 1
    {
      var route: Route := Direct;
      if useResidential {
        route := Via(ResidentialUrl(resi), Some(ProxyAuth.BasicAuth(resi.user, resi.password)));
      } else if proxyList != [] {
        var c := GetProxyCreds(proxyList, currentProxyIndex);
        var auth: Option<string> := None;
        if c.user != "" && c.password != "" {
          auth := Some(ProxyAuth.BasicAuth(c.user, c.password));
        }
        route := Via(ProxyAuth.ProxyUrl(c), auth);
      }
      totalRequests := totalRequests + 1;
      req := BuildRequest(d, route);
    }

    /** `start_requests`: the CTQ search page for every NEQ, in order. */
    method StartRequests() returns (reqs: seq<Request>)
      requires Valid()
      modifies this`totalRequests
      ensures Valid()
      ensures |reqs| == |neqList|
      ensures forall k :: 0 <= k < |reqs| ==> reqs[k] == BuildRequest(StartDraft(neqList[k]), CurrentRoute())
      ensures totalRequests == old(totalRequests) + |neqList|
    {
      ghost var route := CurrentRoute();
      reqs := [];
      var i := 0;
      while i < |neqList|
        invariant 0 <= i <= |neqList| && |reqs| == i
        invariant Valid() && route == CurrentRoute()
        invariant StartedInOrder(reqs, neqList, route)
        invariant totalRequests == old(totalRequests) + i
      {
        var req := MakeRequest(StartDraft(neqList[i]));
        StartedSnoc(reqs, neqList, route);
        reqs := reqs + [req];
        i := i + 1;
      }
      StartedEach(reqs, neqList, route);
    }

    /** A callback's step carried out: a draft becomes a request, an item is yielded. */
    method Follow(s: Step) returns (out: Outcome)
      requires Valid()
      modifies this`totalRequests
      ensures Valid()
      ensures s.Fetch? ==>
        out == Sent(BuildRequest(s.draft, CurrentRoute())) && totalRequests == old(totalRequests) + 1
      ensures s.Emit? ==> out == Yielded(s.item) && totalRequests == old(totalRequests)
      ensures s.Nothing? ==> out == Done && totalRequests == old(totalRequests)
    {
      match s
      case Fetch(d) =>
        var req := MakeRequest(d);
        out := Sent(req);
      case Emit(item) =>
        out := Yielded(item);
      case Nothing =>
        out := Done;
    }

    /** `handle_error`: without a request, count an error; through the residential
        endpoint, retry the same request there; with a pool, move the cursor one entry
        on and retry through that entry; with neither, count an error. */
    method HandleError(failed: Option<Request>) returns (retry: Option<Request>)
      requires Valid()
      modifies this`currentProxyIndex, this`errors
      ensures Valid()
      ensures failed.None? || (!useResidential && proxyList == []) ==>
        retry.None? && errors == old(errors) + 1 && currentProxyIndex == old(currentProxyIndex)
      ensures failed.Some? && useResidential ==>
        && errors == old(errors) && currentProxyIndex == old(currentProxyIndex)
        && retry == Some(ResidentialRetry(failed.value, resi))
      ensures failed.Some? && !useResidential && proxyList != [] ==>
        && errors == old(errors)
        && currentProxyIndex == Advance(old(currentProxyIndex), |proxyList|, 1)
        && retry == Some(PoolRetry(failed.value, GetProxyCreds(proxyList, currentProxyIndex)))
    {
      if failed.None? {
        errors := errors + 1;
        return None;
      }
      var req := failed.value;
      if useResidential {
        var headers := req.headers[ProxyAuth.AuthHeader := ProxyAuth.BasicAuth(resi.user, resi.password)];
        headers := headers["Connection" := "close"];
        retry := Some(req.(proxy := Some(ResidentialUrl(resi)), headers := headers));
      } else if proxyList != [] {
        NextSlotIsMod(currentProxyIndex, |proxyList|);
        currentProxyIndex := (currentProxyIndex + 1) % |proxyList|;
        var c := GetProxyCreds(proxyList, currentProxyIndex);
        var headers := req.headers;
        if c.user != "" && c.password != "" {
          headers := headers[ProxyAuth.AuthHeader := ProxyAuth.BasicAuth(c.user, c.password)];
        } else {
          headers := headers - {ProxyAuth.AuthHeader};
        }
        assert headers == ProxyAuth.WithProxyAuth(req.headers, c);
        retry := Some(req.(proxy := Some(ProxyAuth.ProxyUrl(c)), headers := headers));
      } else {
        errors := errors + 1;
        retry := None;
      }
    }
  }
}
