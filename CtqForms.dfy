/**
 * The form and URL helpers of the CTQ lookup (`spiders/ctq_scraper.py`):
 * the rewrite of the `execution=` query parameter, the parser of the
 * `submitForm(...)` onclick handler, the follow-up form payload with its
 * defaults, and the join of a form action onto the site origin.
 */
module CtqForms {
  import opened Common
  import opened Str

  // ---------------------------------------------------------------------------
  // the execution= rewrite

  const ExecutionKey: string := "execution="

  /** The characters that end an `execution=` value: the class `[^&;]` excludes them. */
  predicate IsValueStop(c: char) { c == '&' || c == ';' }

  /** A view-state token that `[^&;]*` would consume whole. */
  predicate PlainToken(t: string) { forall k :: 0 <= k < |t| ==> !IsValueStop(t[k]) }

  /** Where the `[^&;]*` run that starts at `k` ends. */
  function ValueEnd(s: string, k: nat): (e: nat)
    requires k <= |s|
    ensures k <= e <= |s|
    ensures forall m :: k <= m < e ==> !IsValueStop(s[m])
    ensures e < |s| ==> IsValueStop(s[e])
    decreases |s| - k
  {
    if k == |s| || IsValueStop(s[k]) then k else ValueEnd(s, k + 1)
  }

  /** A parameter name the rewrite can look for: not empty, and not starting with a
      character that ends a value. */
  predicate ParamKey(key: string) { key != [] && !IsValueStop(key[0]) }

  lemma ExecutionKeyIsParam()
    ensures ParamKey(ExecutionKey)
  {
  }

  /** Where the first match of `key` starts and where its value ends. */
  function NextMatch(s: string, key: string): (r: Option<(nat, nat)>)
    ensures r.Some? ==> r.value.0 + |key| <= r.value.1 <= |s|
  {
    match Find(s, key)
    case None => None
    case Some(i) => Some((i, ValueEnd(s, i + |key|)))
  }

  /** `re.sub(key + '[^&;]*', key + token, s)`: every match, found left to right
      without overlap, is replaced by the key and the token. */
  function SubValue(s: string, key: string, token: string): string
    requires key != []
    decreases |s|
  {
    match NextMatch(s, key)
    case None => s
    case Some((i, e)) => s[..i] + key + token + SubValue(s[e..], key, token)
  }

  /** The URL the VRAC and detail POSTs go to: `execution=<token>` appended with `&` or
      `?` when the URL has no such parameter, every existing value replaced otherwise. */
  function RewriteExecution(url: string, token: string): string {
    if !Contains(url, ExecutionKey) then
      url + (if '?' in url then "&" else "?") + ExecutionKey + token
    else
      SubValue(url, ExecutionKey, token)
  }

  /** A URL without the parameter keeps its text as a prefix and gains `&` (when it
      already has a query) or `?`, then `execution=<token>`. */
  lemma RewriteAppends(url: string, token: string)
    requires !Contains(url, ExecutionKey)
    ensures var r := RewriteExecution(url, token);
      StartsWith(r, url) && |r| == |url| + 1 + |ExecutionKey| + |token|
      && (r[|url|] == '&' <==> '?' in url) && (r[|url|] == '?' <==> '?' !in url)
      && r[|url| + 1..] == ExecutionKey + token
  {
  }

  /** `ValueEnd` is the end of the run: any `e` with no stop before it and a stop (or
      the end of the text) at it is the value `ValueEnd` computes. */
  lemma {:induction false} ValueEndAt(s: string, k: nat, e: nat)
    requires k <= e <= |s|
    requires forall m :: k <= m < e ==> !IsValueStop(s[m])
    requires e < |s| ==> IsValueStop(s[e])
    ensures ValueEnd(s, k) == e
    decreases e - k
  {
    if k < e {
      ValueEndAt(s, k + 1, e);
    }
  }

  /** The first match keeps its place and, for a plain token, its value becomes the
      token; the rest of the text is the rewrite of what followed the old value. */
  lemma SubValueFirst(s: string, K: string, token: string, i: nat)
    requires ParamKey(K) && Find(s, K) == Some(i) && PlainToken(token)
    ensures var r := SubValue(s, K, token);
      var e := ValueEnd(s, i + |K|);
      Find(r, K) == Some(i)
      && r[..i] == s[..i]
      && ValueEnd(r, i + |K|) == i + |K| + |token|
      && r[i + |K|..i + |K| + |token|] == token
      && r[i + |K| + |token|..] == SubValue(s[e..], K, token)
  {
    var e := ValueEnd(s, i + |K|);
    var rest := SubValue(s[e..], K, token);
    SubValueUnfold(s, K, token, i);
    FourPieces(s[..i], K, token, rest);
    FindKeptBefore(s, K, i, token + rest);
    if e < |s| {
      SubKeepsHead(s[e..], K, token);
    }
    TokenValueEnds(s[..i] + K, token, rest);
  }

  /** A plain token followed by nothing or by a stop character is one whole value. */
  lemma TokenValueEnds(a: string, token: string, rest: string)
    requires PlainToken(token) && (rest != [] ==> IsValueStop(rest[0]))
    ensures ValueEnd(a + token + rest, |a|) == |a| + |token|
  {
    var r := a + token + rest;
    assert forall m :: |a| <= m < |a| + |token| ==> r[m] == token[m - |a|];
    assert |a| + |token| < |r| ==> r[|a| + |token|] == rest[0];
    ValueEndAt(r, |a|, |a| + |token|);
  }

  /** The rewrite of a text that starts with something other than the key's first
      character starts with the same character, so a match cannot begin there. */
  lemma SubKeepsHead(y: string, K: string, token: string)
    requires K != [] && y != [] && y[0] != K[0]
    ensures SubValue(y, K, token) != [] && SubValue(y, K, token)[0] == y[0]
  {
    match Find(y, K)
    case None =>
    case Some(i) =>
      assert y[i] == K[0];
  }

  /** Rewriting with a plain token twice is rewriting once. */
  lemma {:induction false} SubValueIdempotent(s: string, K: string, token: string)
    requires ParamKey(K) && PlainToken(token)
    ensures SubValue(SubValue(s, K, token), K, token) == SubValue(s, K, token)
    decreases |s|
  {
    match Find(s, K)
    case None =>
    case Some(i) =>
      var e := ValueEnd(s, i + |K|);
      var r := SubValue(s, K, token);
      SubValueFirst(s, K, token, i);
      var stop := i + |K| + |token|;
      SubValueIdempotent(s[e..], K, token);
      assert SubValue(r, K, token) == r[..i] + K + token + SubValue(r[stop..], K, token);
      assert r == r[..i] + K + token + r[stop..];
  }

  /** One step of the rewrite: the text before the first match, the key and the token,
      then the rewrite of what follows the old value. */
  lemma SubValueUnfold(s: string, K: string, token: string, i: nat)
    requires K != [] && Find(s, K) == Some(i)
    ensures i + |K| <= |s|
    ensures SubValue(s, K, token) == s[..i] + K + token + SubValue(s[ValueEnd(s, i + |K|)..], K, token)
  {
    var e := ValueEnd(s, i + |K|);
    assert NextMatch(s, K) == Some((i, e));
  }

  /** Rewriting a text that has a match leaves `key + token` in it. */
  lemma SubValueCarries(s: string, K: string, token: string)
    requires K != [] && Contains(s, K)
    ensures Contains(SubValue(s, K, token), K + token)
  {
    var i := Find(s, K).value;
    SubValueUnfold(s, K, token, i);
    ContainsJoined(s[..i], K, token, SubValue(s[ValueEnd(s, i + |K|)..], K, token));
  }

  /** Whatever the URL, the result carries `execution=<token>`. */
  lemma RewriteCarriesToken(url: string, token: string)
    ensures Contains(RewriteExecution(url, token), ExecutionKey + token)
  {
    var r := RewriteExecution(url, token);
    var K := ExecutionKey;
    if !Contains(url, K) {
      var head := url + (if '?' in url then "&" else "?");
      assert r == head + (K + token) + [];
      ContainsInfix(head, K + token, []);
    } else {
      SubValueCarries(url, K, token);
    }
  }

  /** For a token the value class consumes whole, rewriting the rewritten URL changes
      nothing. */
  lemma RewriteIdempotent(url: string, token: string)
    requires PlainToken(token)
    ensures RewriteExecution(RewriteExecution(url, token), token) == RewriteExecution(url, token)
  {
    var K := ExecutionKey;
    if !Contains(url, K) {
      AppendedIsFixed(url, token);
    } else {
      var i := Find(url, K).value;
      ExecutionKeyIsParam();
      SubValueFirst(url, K, token, i);
      SubValueIdempotent(url, K, token);
    }
  }

  /** A URL that gained `execution=<token>` by appending is left alone by the rewrite. */
  lemma AppendedIsFixed(url: string, token: string)
    requires PlainToken(token) && !Contains(url, ExecutionKey)
    ensures var r := RewriteExecution(url, token);
      Find(r, ExecutionKey) == Some(|url| + 1) && SubValue(r, ExecutionKey, token) == r
  {
    var K := ExecutionKey;
    var r := RewriteExecution(url, token);
    var n := |url|;
    var c := r[n];
    assert r == url + [c] + K + token;
    FindAppended(url, c, K, token);
    ValueEndAt(r, n + 1 + |K|, |r|);
    assert r[|r|..] == [];
    assert SubValue([], K, token) == [];
    assert r[..n + 1] == url + [c];
  }

  // ---------------------------------------------------------------------------
  // the submitForm(...) onclick handler

  /** One `['key','value']` row: quotes removed, then exactly two comma fields, as the
      unpacking `key, value = row.replace("'", "").split(",")` demands. */
  function ParseRow(row: string): (r: Option<(string, string)>)
    ensures r.Some? ==> ',' !in r.value.0 && ',' !in r.value.1
  {
    var f := Split(RemoveChar(row, '\''), ",");
    SplitPieces(RemoveChar(row, '\''), ",");
    if |f| == 2 then
      assert !Contains(f[0], ",") && !Contains(f[1], ",");
      ContainsChar(f[0], ',');
      ContainsChar(f[1], ',');
      Some((f[0], f[1]))
    else None
  }

  /** The row the page writes for a key and a value: `'key','value'`. */
  function RowText(key: string, value: string): string {
    "'" + key + "','" + value + "'"
  }

  lemma {:induction false} RemoveCharAppend(a: string, b: string, c: char)
    ensures RemoveChar(a + b, c) == RemoveChar(a, c) + RemoveChar(b, c)
    decreases |a|
  {
    if a != [] {
      var head := if a[0] == c then [] else [a[0]];
      assert (a + b)[0] == a[0];
      assert (a + b)[1..] == a[1..] + b;
      assert RemoveChar(a + b, c) == head + RemoveChar(a[1..] + b, c);
      RemoveCharAppend(a[1..], b, c);
      assert RemoveChar(a, c) == head + RemoveChar(a[1..], c);
    } else {
      assert a + b == b;
    }
  }

  /** Removing the quotes from a written row leaves `key,value`. */
  lemma UnquoteRowText(key: string, value: string)
    requires '\'' !in key && '\'' !in value
    ensures RemoveChar(RowText(key, value), '\'') == key + "," + value
  {
    var q := '\'';
    assert RowText(key, value) == [q] + key + [q, ',', q] + value + [q];
    UnquoteFields(q, ',', key, value);
  }

  /** The same for any quote character and separator. */
  lemma UnquoteFields(q: char, sep: char, key: string, value: string)
    requires q !in key && q !in value && q != sep
    ensures RemoveChar([q] + key + [q, sep, q] + value + [q], q) == key + [sep] + value
  {
    assert RemoveChar([q], q) == [];
    var a1 := [q] + key;
    RemoveCharAppend([q], key, q);
    RemoveAbsentChar(key, q);
    assert RemoveChar(a1, q) == key;
    var a2 := a1 + [q, sep, q];
    RemoveCharAppend(a1, [q, sep, q], q);
    assert RemoveChar([q, sep, q], q) == [sep] by {
      assert [q, sep, q][1..] == [sep, q];
      assert [sep, q][1..] == [q];
    }
    assert RemoveChar(a2, q) == key + [sep];
    var a3 := a2 + value;
    RemoveCharAppend(a2, value, q);
    RemoveAbsentChar(value, q);
    assert RemoveChar(a3, q) == key + [sep] + value;
    RemoveCharAppend(a3, [q], q);
    assert RemoveChar(a3, q) + [] == RemoveChar(a3, q);
  }

  /** A row the page writes parses back to its key and value. */
  lemma ParseRowText(key: string, value: string)
    requires '\'' !in key && '\'' !in value && ',' !in key && ',' !in value
    ensures ParseRow(RowText(key, value)) == Some((key, value))
  {
    UnquoteRowText(key, value);
    var xs := [key, value];
    assert Join(xs, ",") == key + "," + value by {
      assert xs[1..] == [value];
    }
    SplitJoin(xs, ",");
  }

  /** What the handler text yields before its rows are read: the target id and the
      row texts, or `None` where an index or an unpacking fails. */
  datatype Handler = Handler(target: string, rows: seq<string>)

  /** The quote characters `.strip("'\"")` removes around the target id. */
  const Quotes: set<char> := {'\'', '"'}

  function SplitHandler(onclick: string): (r: Option<Handler>)
    ensures r.Some? ==> Contains(onclick, "submitForm(")
  {
    var afterCall := Split(onclick, "submitForm(");
    if |afterCall| < 2 then
      None
    else
      var args := Split(afterCall[1], ")")[0];
      var prePost := Split(args, ",null,");
      if |prePost| != 2 then
        None
      else
        var preFields := Split(prePost[0], ",");
        if |preFields| < 2 then
          None
        else
          assert Contains(onclick, "submitForm(") by {
            if !Contains(onclick, "submitForm(") {
              SplitWithout(onclick, "submitForm(");
            }
          }
          Some(Handler(StripChars(Strip(preFields[1]), Quotes),
                       Split(Slice(Strip(prePost[1]), 2, -2), "],[")))
  }

  /** The rows read before the first one that `parse` refuses (the first row that
      fails to unpack ends the loop). */
  function KeepUntilBad<T>(rows: seq<string>, parse: string -> Option<T>): (r: seq<T>)
    ensures |r| <= |rows|
    ensures forall k :: 0 <= k < |r| ==> parse(rows[k]) == Some(r[k])
    ensures |r| < |rows| ==> parse(rows[|r|]).None?
  {
    if rows == [] then []
    else match parse(rows[0])
      case None => []
      case Some(kv) => [kv] + KeepUntilBad(rows[1..], parse)
  }

  /** A row that parses, reached without a failure before it, is one of the rows kept. */
  lemma KeptRow<T>(rows: seq<string>, parse: string -> Option<T>, n: nat)
    requires n <= |KeepUntilBad(rows, parse)| && n < |rows| && parse(rows[n]).Some?
    ensures n < |KeepUntilBad(rows, parse)| && KeepUntilBad(rows, parse)[n] == parse(rows[n]).value
  {
  }

  /** The dictionary the assignments `params[key] = value` build, in order. */
  function ToMap(pairs: seq<(string, string)>): map<string, string> {
    if pairs == [] then map[]
    else
      var last := pairs[|pairs| - 1];
      ToMap(pairs[..|pairs| - 1])[last.0 := last.1]
  }

  /** The dictionary's keys are exactly the rows' keys. */
  lemma {:induction false} ToMapKeys(pairs: seq<(string, string)>)
    ensures forall k :: k in ToMap(pairs) <==> exists j :: 0 <= j < |pairs| && pairs[j].0 == k
    decreases |pairs|
  {
    if pairs != [] {
      var front := pairs[..|pairs| - 1];
      ToMapKeys(front);
      assert forall j :: 0 <= j < |front| ==> front[j] == pairs[j];
    }
  }

  /** Storing one more row is one more assignment. */
  lemma ToMapSnoc(pairs: seq<(string, string)>, n: nat)
    requires n < |pairs|
    ensures ToMap(pairs[..n + 1]) == ToMap(pairs[..n])[pairs[n].0 := pairs[n].1]
  {
    assert pairs[..n + 1][..n] == pairs[..n];
  }

  /** A later row with the same key overwrites an earlier one: the value kept is that of
      the last row carrying the key. */
  lemma {:induction false} ToMapLastWins(pairs: seq<(string, string)>, j: nat)
    requires j < |pairs|
    requires forall m :: j < m < |pairs| ==> pairs[m].0 != pairs[j].0
    ensures pairs[j].0 in ToMap(pairs) && ToMap(pairs)[pairs[j].0] == pairs[j].1
    decreases |pairs|
  {
    var n := |pairs| - 1;
    if j < n {
      var front := pairs[..n];
      assert front[j] == pairs[j];
      ToMapLastWins(front, j);
    }
  }

  /** The `for row in rows` loop of `extract_form_data`: rows are stored one by one until
      one fails to unpack, and what was stored before it is kept. */
  method CollectParams(rows: seq<string>) returns (params: map<string, string>, complete: bool)
    ensures params == ToMap(KeepUntilBad(rows, ParseRow))
    ensures complete <==> |KeepUntilBad(rows, ParseRow)| == |rows|
  {
    ghost var good := KeepUntilBad(rows, ParseRow);
    params := map[];
    var n := 0;
    while n < |rows| && ParseRow(rows[n]).Some?
      invariant n <= |good|
      invariant params == ToMap(good[..n])
    {
      var kv := ParseRow(rows[n]).value;
      KeptRow(rows, ParseRow, n);
      ToMapSnoc(good, n);
      params := params[kv.0 := kv.1];
      n := n + 1;
    }
    assert good[..n] == good;
    complete := n == |rows|;
  }

  /** `extract_onclick_formdata`: all or nothing. Without `submitForm(`, or when any
      split, index or unpacking fails, the result is `({}, None)`; otherwise the rows'
      dictionary and the target id. */
  function ParseOnclickFormdata(onclick: string): (map<string, string>, Option<string>) {
    if !Contains(onclick, "submitForm(") then (map[], None)
    else match SplitHandler(onclick)
      case None => (map[], None)
      case Some(h) =>
        var good := KeepUntilBad(h.rows, ParseRow);
        if |good| == |h.rows| then (ToMap(good), Some(h.target)) else (map[], None)
  }

  /** The parser never returns part of a result: either nothing, or the target id with
      the dictionary built from every row, each of which parsed. */
  lemma OnclickAllOrNothing(onclick: string)
    ensures var (params, target) := ParseOnclickFormdata(onclick);
      (params == map[] && target.None?)
      || (SplitHandler(onclick).Some?
          && target == Some(SplitHandler(onclick).value.target)
          && var rows := SplitHandler(onclick).value.rows;
             KeepUntilBad(rows, ParseRow) == RowPairs(rows) && params == ToMap(RowPairs(rows)))
  {
    var (params, target) := ParseOnclickFormdata(onclick);
    if target.Some? {
      var rows := SplitHandler(onclick).value.rows;
      AllKeptAreAll(rows);
    }
  }

  /** Every row parsed: the sequence of their keys and values. */
  function RowPairs(rows: seq<string>): (r: seq<(string, string)>)
    requires forall k :: 0 <= k < |rows| ==> ParseRow(rows[k]).Some?
    ensures |r| == |rows|
  {
    seq(|rows|, k requires 0 <= k < |rows| => ParseRow(rows[k]).value)
  }

  /** When no row fails, the rows kept are all the rows, each parsed. */
  lemma AllKeptAreAll(rows: seq<string>)
    requires |KeepUntilBad(rows, ParseRow)| == |rows|
    ensures forall k :: 0 <= k < |rows| ==> ParseRow(rows[k]).Some?
    ensures KeepUntilBad(rows, ParseRow) == RowPairs(rows)
  {
    var good := KeepUntilBad(rows, ParseRow);
    assert forall k :: 0 <= k < |rows| ==> ParseRow(rows[k]) == Some(good[k]);
  }

  /** The target id never begins or ends with a quote character. Whitespace inside the
      quotes stays: the field is stripped before its quotes are. */
  lemma TargetIsBare(onclick: string)
    requires SplitHandler(onclick).Some?
    ensures var t := SplitHandler(onclick).value.target;
      t == [] || (t[0] !in Quotes && t[|t| - 1] !in Quotes)
  {
    var h := SplitHandler(onclick).value;
    var afterCall := Split(onclick, "submitForm(");
    var args := Split(afterCall[1], ")")[0];
    var prePost := Split(args, ",null,");
    var preFields := Split(prePost[0], ",");
    StripCharsNoOuter(Strip(preFields[1]), Quotes);
  }

  // ---------------------------------------------------------------------------
  // the follow-up form payload

  /** `params.get(key, default)`. */
  function GetOr(params: map<string, string>, key: string, default: string): string {
    if key in params then params[key] else default
  }

  /** The six row keys of the detail form and the value each takes when the handler does
      not supply it. */
  const RowKeys: seq<string> := ["leClientNo", "leContexte", "leOrderBy", "leOrderDir",
                                  "leContexteEstDejaDetermine", "leDdrSeq"]
  const RowDefaults: seq<string> := ["129540", "PECVL", "", "", "oui", "0"]

  const DefaultTarget: string := "mainForm:j_id_z_7_2"

  /** The view state of the payload: the `execution` argument, else the page's own
      token, else `"1"`. */
  function PickViewState(execution: Option<string>, pageToken: Option<string>): (v: string)
    ensures v != ""
    ensures HasText(execution) ==> v == execution.value
    ensures !HasText(execution) && HasText(pageToken) ==> v == pageToken.value
    ensures !HasText(execution) && !HasText(pageToken) ==> v == "1"
  {
    if HasText(execution) then execution.value
    else if HasText(pageToken) then pageToken.value
    else "1"
  }

  /** The dictionary `extract_form_data` returns for the handler's parameters, target id
      and view state. */
  function Payload(params: map<string, string>, target: Option<string>, viewState: string): map<string, string> {
    map["mainForm_SUBMIT" := "1",
        "javax.faces.ViewState" := viewState,
        RowKeys[0] := GetOr(params, RowKeys[0], RowDefaults[0]),
        RowKeys[1] := GetOr(params, RowKeys[1], RowDefaults[1]),
        RowKeys[2] := GetOr(params, RowKeys[2], RowDefaults[2]),
        RowKeys[3] := GetOr(params, RowKeys[3], RowDefaults[3]),
        RowKeys[4] := GetOr(params, RowKeys[4], RowDefaults[4]),
        RowKeys[5] := GetOr(params, RowKeys[5], RowDefaults[5]),
        "mainForm:_idcl" := if HasText(target) then target.value else DefaultTarget]
  }

  /** The rows and target id `extract_form_data` gets out of the `PECVL` handler: what
      was read before a failure is kept, including a target id read before the rows. */
  function PartialFormdata(onclick: Option<string>): (map<string, string>, Option<string>) {
    if !HasText(onclick) then (map[], None) else HandlerFormdata(SplitHandler(onclick.value))
  }

  /** The rows and target id read from a handler that split, or nothing. */
  function HandlerFormdata(h: Option<Handler>): (map<string, string>, Option<string>) {
    match h
    case None => (map[], None)
    case Some(h) => (ToMap(KeepUntilBad(h.rows, ParseRow)), Some(h.target))
  }

  /** `extract_form_data(response, execution)` on a page whose `PECVL` handler is
      `onclick` and whose form token is `pageToken`. */
  function ExtractFormData(onclick: Option<string>, pageToken: Option<string>, execution: Option<string>): map<string, string> {
    var read := PartialFormdata(onclick);
    Payload(read.0, read.1, PickViewState(execution, pageToken))
  }

  /** The payload always has exactly the nine fields of the detail form. */
  lemma PayloadKeys(params: map<string, string>, target: Option<string>, viewState: string)
    ensures Payload(params, target, viewState).Keys
            == {"mainForm_SUBMIT", "javax.faces.ViewState", "mainForm:_idcl"} + set k | k in RowKeys
  {
  }

  /** Each row field is the handler's value when it supplied one and its default
      otherwise; the view state is passed through, and the clicked id falls back to the
      default only when no usable target was read. */
  lemma PayloadFields(params: map<string, string>, target: Option<string>, viewState: string, i: nat)
    requires i < 6
    ensures var p := Payload(params, target, viewState);
      RowKeys[i] in p
      && p[RowKeys[i]] == (if RowKeys[i] in params then params[RowKeys[i]] else RowDefaults[i])
      && p["javax.faces.ViewState"] == viewState
      && (p["mainForm:_idcl"] == DefaultTarget <==> !HasText(target) || target.value == DefaultTarget)
  {
  }

  /** A page without a usable handler gets the default payload. */
  lemma NoHandlerDefaults(onclick: Option<string>, pageToken: Option<string>, execution: Option<string>)
    requires !HasText(onclick) || SplitHandler(onclick.value).None?
    ensures var p := ExtractFormData(onclick, pageToken, execution);
      (forall i :: 0 <= i < 6 ==> p[RowKeys[i]] == RowDefaults[i])
      && p["mainForm:_idcl"] == DefaultTarget
  {
  }

  /** A page whose handler splits gets the payload of the rows read before the first
      failure and of the handler's target id. */
  lemma HandlerPayload(onclick: string, h: Handler, pageToken: Option<string>, execution: Option<string>)
    requires SplitHandler(onclick) == Some(h)
    ensures ExtractFormData(Some(onclick), pageToken, execution)
            == Payload(ToMap(KeepUntilBad(h.rows, ParseRow)), Some(h.target), PickViewState(execution, pageToken))
  {
    assert onclick != "" by {
      assert Contains(onclick, "submitForm(");
    }
    var read := PartialFormdata(Some(onclick));
    assert read == HandlerFormdata(Some(h));
  }

  /** A row that was read before the first failure, and not overwritten by a later one,
      reaches the payload even if a later row fails to unpack. */
  lemma ReadRowsReachPayload(onclick: string, h: Handler, pageToken: Option<string>, execution: Option<string>, j: nat, i: nat)
    requires SplitHandler(onclick) == Some(h)
    requires var good := KeepUntilBad(h.rows, ParseRow);
      j < |good| && i < 6 && good[j].0 == RowKeys[i]
      && forall m :: j < m < |good| ==> good[m].0 != RowKeys[i]
    ensures var p := ExtractFormData(Some(onclick), pageToken, execution);
      RowKeys[i] in p && p[RowKeys[i]] == KeepUntilBad(h.rows, ParseRow)[j].1
  {
    var good := KeepUntilBad(h.rows, ParseRow);
    ToMapLastWins(good, j);
    HandlerPayload(onclick, h, pageToken, execution);
    PayloadFields(ToMap(good), Some(h.target), PickViewState(execution, pageToken), i);
  }
}
