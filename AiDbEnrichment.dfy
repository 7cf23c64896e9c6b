/**
 * `ai_db_enrichment.py`: fill in the missing telephone and web-site columns of the
 * `ai_test` table by asking the enrichment of `ai_enhancment.py` about each row, and
 * write the answers back, committing every `commit_every` updates.
 *
 * The database is not modelled: the table is a map from `id` to the row's columns,
 * and whether each update and each commit succeeds is a parameter, as are
 * `enrich_company` and Python's `int()` on text.
 */
module AiDbEnrichment {
  import opened Common
  import opened Str
  import opened Json
  import AiEnhancement

  // ---------------------------------------------------------------------------
  // fetch_pending_rows

  /** The columns of one `ai_test` row that the script reads; `None` is SQL `NULL`. */
  datatype Columns = Columns(
    neq: Option<string>, nom: Option<string>, fullAddress: Option<string>,
    adresse: Option<string>, ville: Option<string>, province: Option<string>,
    codePostal: Option<string>, telephone: Option<string>, website: Option<string>)

  /** The `ai_test` table: the columns of each row under its `id`, the primary key. */
  type Table = map<int, Columns>

  /** A row as the query returns it. */
  datatype DbRow = DbRow(id: int, cols: Columns)

  /** A column that is `NULL` or `''`. */
  predicate Blank(v: Option<string>) { v.None? || v.value == "" }

  /** The `WHERE` clause: the telephone or the web site is missing. */
  predicate Pending(c: Columns) { Blank(c.telephone) || Blank(c.website) }

  /** The ids of the rows the `WHERE` clause selects. */
  function PendingIds(table: Table): (p: set<int>)
    ensures p <= table.Keys
  {
    set id | id in table && Pending(table[id])
  }

  /** A non-empty set of ids has a least one. */
  lemma {:induction false} HasLeast(s: set<int>)
    requires s != {}
    ensures exists m :: m in s && forall x :: x in s ==> m <= x
    decreases |s|
  {
    if forall z :: z !in s {
      assert false;
    }
    var x :| x in s;
    assert forall z :: z in s ==> z == x || z in s - {x};
    if s == {x} {
    } else {
      HasLeast(s - {x});
      var y :| y in s - {x} && forall z :: z in s - {x} ==> y <= z;
      if x < y {
        assert forall z :: z in s ==> x <= z;
      } else {
        assert forall z :: z in s ==> y <= z;
      }
    }
  }

  /** The least id of a non-empty set. */
  ghost function Least(s: set<int>): (m: int)
    requires s != {}
    ensures m in s && forall x :: x in s ==> m <= x
  {
    HasLeast(s);
    var m :| m in s && forall x :: x in s ==> m <= x;
    m
  }

  /** The ids of `s` in ascending order (`ORDER BY id ASC`). */
  ghost function Ascending(s: set<int>): (r: seq<int>)
    ensures |r| == |s|
    decreases |s|
  {
    if s == {} then []
    else
      var m := Least(s);
      [m] + Ascending(s - {m})
  }

  /** `Ascending` holds exactly the ids of the set. */
  lemma {:induction false} AscendingHolds(s: set<int>)
    ensures forall x :: x in Ascending(s) <==> x in s
    decreases |s|
  {
    if s != {} {
      var m := Least(s);
      AscendingHolds(s - {m});
      assert Ascending(s) == [m] + Ascending(s - {m});
    }
  }

  /** Each id of `Ascending` is smaller than every id after it. */
  lemma {:induction false} AscendingPair(s: set<int>, i: nat, j: nat)
    requires i < j < |Ascending(s)|
    ensures Ascending(s)[i] < Ascending(s)[j]
    decreases i
  {
    var m := Least(s);
    var rest := Ascending(s - {m});
    assert Ascending(s) == [m] + rest;
    if i == 0 {
      AscendingHolds(s - {m});
      assert rest[j - 1] in rest;
    } else {
      AscendingPair(s - {m}, i - 1, j - 1);
    }
  }

  /** `Ascending` holds exactly the ids of the set, each larger than the one before. */
  lemma AscendingSorted(s: set<int>)
    ensures forall x :: x in Ascending(s) <==> x in s
    ensures forall i, j :: 0 <= i < j < |Ascending(s)| ==> Ascending(s)[i] < Ascending(s)[j]
  {
    AscendingHolds(s);
    forall i, j | 0 <= i < j < |Ascending(s)| ensures Ascending(s)[i] < Ascending(s)[j] {
      AscendingPair(s, i, j);
    }
  }

  /** The ids listed in ascending order are ids of pending rows of the table. */
  lemma PendingIdsListed(table: Table)
    ensures forall k :: 0 <= k < |Ascending(PendingIds(table))| ==>
      Ascending(PendingIds(table))[k] in PendingIds(table) && Ascending(PendingIds(table))[k] in table
  {
    var p := PendingIds(table);
    var ids := Ascending(p);
    AscendingHolds(p);
    forall k | 0 <= k < |ids| ensures ids[k] in p {
      var x := ids[k];
      assert x in Ascending(p);
      assert x in Ascending(p) <==> x in p;
    }
  }

  /** The rows of the table under `ids`, in that order. */
  function RowsOf(ids: seq<int>, table: Table): (r: seq<DbRow>)
    requires forall k :: 0 <= k < |ids| ==> ids[k] in table
    ensures |r| == |ids|
    ensures forall k :: 0 <= k < |r| ==> r[k].id == ids[k] && r[k].cols == table[ids[k]]
  {
    if ids == [] then [] else [DbRow(ids[0], table[ids[0]])] + RowsOf(ids[1..], table)
  }

  /** `fetch_pending_rows(conn, limit)`: the pending rows in ascending `id` order, only
      the first `limit` of them when `limit` is given and positive. */
  ghost function PendingRows(table: Table, limit: Option<int>): seq<DbRow> {
    PendingIdsListed(table);
    var rows := RowsOf(Ascending(PendingIds(table)), table);
    if limit.Some? && 0 < limit.value < |rows| then rows[..limit.value] else rows
  }

  /** The rows returned are the first rows of the pending ids in ascending order. */
  lemma PendingRowsAre(table: Table, limit: Option<int>)
    ensures var r, ids := PendingRows(table, limit), Ascending(PendingIds(table));
      && |r| == (if limit.Some? && 0 < limit.value < |ids| then limit.value else |ids|)
      && forall k :: 0 <= k < |r| ==> r[k].id == ids[k] && r[k].id in table && r[k].cols == table[r[k].id]
  {
    PendingIdsListed(table);
  }

  /** The query returns pending rows of the table, as stored, in strictly ascending
      `id` order; as many as there are pending rows, or `limit` of them when a positive
      `limit` is smaller. */
  lemma PendingRowsShape(table: Table, limit: Option<int>)
    ensures var r, p := PendingRows(table, limit), PendingIds(table);
      && (forall k :: 0 <= k < |r| ==> r[k].id in p && r[k].cols == table[r[k].id])
      && (forall i, j :: 0 <= i < j < |r| ==> r[i].id < r[j].id)
      && |r| == (if limit.Some? && 0 < limit.value < |p| then limit.value else |p|)
  {
    var ids := Ascending(PendingIds(table));
    var r := PendingRows(table, limit);
    PendingRowsAre(table, limit);
    PendingIdsListed(table);
    AscendingSorted(PendingIds(table));
    forall i, j | 0 <= i < j < |r| ensures r[i].id < r[j].id {
      assert r[i].id == ids[i] && r[j].id == ids[j];
    }
  }

  /** A positive limit keeps the pending rows with the smallest ids: every pending row
      left out has a larger id than every row returned. */
  lemma PendingRowsSmallest(table: Table, limit: Option<int>, id: int)
    requires id in PendingIds(table)
    requires forall k :: 0 <= k < |PendingRows(table, limit)| ==> PendingRows(table, limit)[k].id != id
    ensures forall k :: 0 <= k < |PendingRows(table, limit)| ==> PendingRows(table, limit)[k].id < id
  {
    var ids := Ascending(PendingIds(table));
    var r := PendingRows(table, limit);
    PendingRowsAre(table, limit);
    AscendingSorted(PendingIds(table));
    assert id in ids;
    var t :| 0 <= t < |ids| && ids[t] == id;
    assert |r| <= t;
    forall k | 0 <= k < |r| ensures r[k].id < id {
      assert r[k].id == ids[k];
    }
  }

  /** Without a positive limit, every pending row is returned. */
  lemma UnlimitedGetsAll(table: Table, limit: Option<int>, id: int)
    requires limit.None? || limit.value <= 0
    requires id in table && Pending(table[id])
    ensures exists k :: 0 <= k < |PendingRows(table, limit)| && PendingRows(table, limit)[k] == DbRow(id, table[id])
  {
    var ids := Ascending(PendingIds(table));
    AscendingHolds(PendingIds(table));
    assert id in PendingIds(table) && id in ids;
    var t :| 0 <= t < |ids| && ids[t] == id;
    PendingRowsAre(table, limit);
    var r := PendingRows(table, limit);
    assert |r| == |ids| && r[t].id == id && r[t].cols == table[id];
  }

  // ---------------------------------------------------------------------------
  // _parse_int and the command line

  /** Python's `int()` on text: the integer it denotes, or `None` where it raises
      `ValueError`. It is not modelled; operations that call it take it as a parameter. */
  type IntParser = string -> Option<int>

  /** `_parse_int`: the integer the text denotes when it is positive; `None` for no
      text, for text `int()` rejects, and for zero or a negative number. */
  function ParseInt(value: Option<string>, toInt: IntParser): (r: Option<int>)
    ensures r.Some? ==> r.value > 0 && value.Some? && toInt(value.value) == r
    ensures r.None? <==> value.None? || toInt(value.value).None? || toInt(value.value).value <= 0
  {
    match value
    case None => None
    case Some(s) =>
      match toInt(s)
      case None => None
      case Some(iv) => if iv > 0 then Some(iv) else None
  }

  /** The row limit of the command line: `_parse_int(sys.argv[1])` when there is an
      argument, `None` otherwise. */
  function MaxRows(args: seq<string>, toInt: IntParser): Option<int> {
    if |args| > 1 then ParseInt(Some(args[1]), toInt) else None
  }

  /** A command-line argument caps the query exactly when it is a positive integer; any
      other argument, or none, fetches every pending row. */
  lemma CommandLineLimit(table: Table, args: seq<string>, toInt: IntParser)
    ensures var m := MaxRows(args, toInt);
      m.Some? <==> |args| > 1 && toInt(args[1]).Some? && toInt(args[1]).value > 0
    ensures MaxRows(args, toInt).None? ==> PendingRows(table, MaxRows(args, toInt)) == PendingRows(table, None)
    ensures MaxRows(args, toInt).Some? ==>
      PendingRows(table, MaxRows(args, toInt)) == PendingRows(table, toInt(args[1]))
  {
  }

  // ---------------------------------------------------------------------------
  // build_company_payload

  /** `(v or "").strip()`. */
  function Cleaned(v: Option<string>): (r: string)
    ensures Bare(r)
    ensures Blank(v) ==> r == ""
  {
    StripIsBare(v.GetOr(""));
    Strip(v.GetOr(""))
  }

  /** The fields of the payload handed to `enrich_company`. */
  const PayloadKeys: set<string> := {"neq", "nom", "adresse", "ville", "province", "code_postal"}

  /** `build_company_payload`: the row's fields stripped, `NULL` read as `""`, and the
      full address standing in for a blank street address. */
  function BuildCompanyPayload(c: Columns): AiEnhancement.Company {
    var adresse := Cleaned(c.adresse);
    map["neq" := Cleaned(c.neq), "nom" := Cleaned(c.nom),
        "adresse" := if adresse != "" then adresse else Cleaned(c.fullAddress),
        "ville" := Cleaned(c.ville), "province" := Cleaned(c.province),
        "code_postal" := Cleaned(c.codePostal)]
  }

  /** The payload has exactly the six fields, every one stripped; the address is the
      stripped street address unless that is `NULL` or blank, and the stripped full
      address then. */
  lemma PayloadShape(c: Columns)
    ensures var p := BuildCompanyPayload(c);
      && p.Keys == PayloadKeys
      && (forall k :: k in p ==> Bare(p[k]))
      && p["nom"] == Cleaned(c.nom) && p["neq"] == Cleaned(c.neq)
      && p["ville"] == Cleaned(c.ville) && p["province"] == Cleaned(c.province)
      && p["code_postal"] == Cleaned(c.codePostal)
      && (Strip(c.adresse.GetOr("")) != "" ==> p["adresse"] == Strip(c.adresse.GetOr("")))
      && (Strip(c.adresse.GetOr("")) == "" ==> p["adresse"] == Strip(c.fullAddress.GetOr("")))
  {
    var p := BuildCompanyPayload(c);
    var adresse := Cleaned(c.adresse);
    assert p["adresse"] == if adresse != "" then adresse else Cleaned(c.fullAddress);
    assert Bare(p["adresse"]);
  }

  /** The columns that hold exactly the values of a payload. */
  function PayloadColumns(p: AiEnhancement.Company, c: Columns): Columns
    requires PayloadKeys <= p.Keys
  {
    c.(neq := Some(p["neq"]), nom := Some(p["nom"]), adresse := Some(p["adresse"]),
       ville := Some(p["ville"]), province := Some(p["province"]), codePostal := Some(p["code_postal"]))
  }

  /** Building is stable: a row that already holds the values of its payload gives the
      same payload again. */
  lemma PayloadStable(c: Columns)
    ensures var p := BuildCompanyPayload(c);
      PayloadKeys <= p.Keys && BuildCompanyPayload(PayloadColumns(p, c)) == p
  {
    var p := BuildCompanyPayload(c);
    PayloadShape(c);
    forall k | k in p ensures Strip(p[k]) == p[k] {
      StripBare(p[k]);
    }
    var c' := PayloadColumns(p, c);
    assert Cleaned(c'.adresse) == p["adresse"];
    assert Cleaned(c'.neq) == p["neq"] && Cleaned(c'.nom) == p["nom"] && Cleaned(c'.ville) == p["ville"];
    assert Cleaned(c'.province) == p["province"] && Cleaned(c'.codePostal) == p["code_postal"];
  }

  // ---------------------------------------------------------------------------
  // enrich_ai_test_rows

  /** What became of one row, in the order the loop reached them: the enrichment raised
      an `Exception`; the update raised and was rolled back; or the update went
      through, followed by a commit when `commit` is present (`false` when the commit
      raised and was rolled back). */
  datatype RowLog =
    | NotEnriched
    | UpdateFailed(id: int, telephone: string, website: string)
    | Updated(id: int, telephone: string, website: string, commit: Option<bool>)

  /** How the loop ended: there were no rows; an exception it does not catch stopped
      it; it went through every row and made the final commit (`committed`, its
      success, a failure being rolled back); or it went through every row and the
      final commit and its rollback both raised. */
  datatype Ending = NoRows | Halted | Finished(committed: bool) | FinalRollbackRaised

  /** The log of the rows reached, the final `processed`, and how the run ended. */
  datatype RunResult = RunResult(log: seq<RowLog>, processed: nat, ending: Ending)

  /** The collaborators of the loop: `enrich_company`; whether the update of the row at
      position `i` succeeds; whether the commit after the row at position `i`, or the
      final commit (position `|rows|`), succeeds; whether the rollback after a failed
      update or commit at position `i` succeeds (a row has at most one); and
      `commit_every`. */
  datatype Env = Env(enrich: AiEnhancement.Company -> AiEnhancement.Enrichment,
                     updateOk: nat -> bool, commitOk: nat -> bool, rollbackOk: nat -> bool,
                     commitEvery: int)

  /** `(enriched.get(k) or "").strip()`: `""` for a falsy value, the stripped text of a
      string, and `None` where `strip` raises on a value that is not text. */
  function WrittenText(record: map<string, Json>, k: string): (r: Option<string>)
    ensures r.Some? ==> Bare(r.value)
    ensures !Truthy(Get(record, k)) ==> r == Some("")
  {
    var v := Get(record, k);
    if !Truthy(v) then Some("")
    else
      match v
      case JString(s) => StripIsBare(s); Some(Strip(s))
      case _ => None
  }

  /** The number of rows whose update went through. */
  function CountUpdated(log: seq<RowLog>): nat {
    if log == [] then 0
    else CountUpdated(log[..|log| - 1]) + (if log[|log| - 1].Updated? then 1 else 0)
  }

  /** What the loop makes of the enrichment's answer for a row: the texts to write;
      `Skip` when `enrich_company` raised an `Exception`; `Exit` when the answer raises
      out of the loop (`SystemExit` from the enrichment, or a phone number or web site
      that is not text). */
  datatype Reply = Texts(telephone: string, website: string) | Skip | Exit

  /** The reply to an answer of `enrich_company`. */
  function ReplyOf(answer: AiEnhancement.Enrichment): Reply {
    match answer
    case Failed => Skip
    case Fatal => Exit
    case Enriched(record) =>
      var tel, web := WrittenText(record, "phone_number"), WrittenText(record, "company_website");
      if tel.None? || web.None? then Exit else Texts(tel.value, web.value)
  }

  /** The replies for the rows, in order, each to the enrichment of the row's payload. */
  function Replies(rows: seq<DbRow>, env: Env): (r: seq<Reply>)
    ensures |r| == |rows|
  {
    if rows == [] then []
    else [ReplyOf(env.enrich(BuildCompanyPayload(rows[0].cols)))] + Replies(rows[1..], env)
  }

  /** The reply at position `k` is the one to the enrichment of row `k`'s payload. */
  lemma {:induction false} ReplyAt(rows: seq<DbRow>, env: Env, k: nat)
    requires k < |rows|
    ensures Replies(rows, env)[k] == ReplyOf(env.enrich(BuildCompanyPayload(rows[k].cols)))
  {
    if k > 0 {
      ReplyAt(rows[1..], env, k - 1);
    }
  }

  /** One turn of the loop on the row at position `i`, given its reply, after
      `processed` successful updates: the row's log entry and the new count; `None`
      where the turn raises out of the loop, as the reply says or because
      `commit_every` is zero (after the update, which is then never committed). */
  function Turn(reply: Reply, id: int, i: nat, processed: nat, env: Env): Option<(RowLog, nat)> {
    match reply
    case Skip => Some((NotEnriched, processed))
    case Exit => None
    case Texts(tel, web) =>
      if !env.updateOk(i) then
        if env.rollbackOk(i) then Some((UpdateFailed(id, tel, web), processed)) else None
      else if env.commitEvery == 0 then None
      else
        var n := processed + 1;
        var commit := if n % env.commitEvery == 0 then Some(env.commitOk(i)) else None;
        if commit == Some(false) && !env.rollbackOk(i) then None
        else Some((Updated(id, tel, web, commit), n))
  }

  /** A turn ends the run exactly when the enrichment exits the loop, the update fails
      and so does its rollback, `commit_every` is zero after an update, or a commit
      that is due fails and so does its rollback. */
  lemma TurnRaises(reply: Reply, id: int, i: nat, processed: nat, env: Env)
    ensures Turn(reply, id, i, processed, env).None? <==>
      || reply.Exit?
      || (reply.Texts? && !env.updateOk(i) && !env.rollbackOk(i))
      || (reply.Texts? && env.updateOk(i) && env.commitEvery == 0)
      || (reply.Texts? && env.updateOk(i) && env.commitEvery != 0 && (processed + 1) % env.commitEvery == 0
          && !env.commitOk(i) && !env.rollbackOk(i))
  {
  }

  /** The final commit: made, or refused and rolled back, or refused with a rollback
      that raises too. */
  function FinalEnding(env: Env, n: nat): (e: Ending)
    ensures e.Finished? <==> env.commitOk(n) || env.rollbackOk(n)
    ensures e.Finished? ==> e.committed == env.commitOk(n)
  {
    if env.commitOk(n) then Finished(true)
    else if env.rollbackOk(n) then Finished(false)
    else FinalRollbackRaised
  }

  /** The loop from position `i` on, `log` and `processed` standing for the rows before. */
  function RunFrom(rows: seq<DbRow>, i: nat, log: seq<RowLog>, processed: nat, env: Env): RunResult
    requires i <= |rows|
    decreases |rows| - i
  {
    if i == |rows| then RunResult(log, processed, FinalEnding(env, |rows|))
    else
      match Turn(Replies(rows, env)[i], rows[i].id, i, processed, env)
      case None => RunResult(log, processed, Halted)
      case Some((entry, n)) => RunFrom(rows, i + 1, log + [entry], n, env)
  }

  /** One turn of `RunFrom`: stop where the turn raises, go on from the next row otherwise. */
  lemma RunFromStep(rows: seq<DbRow>, i: nat, log: seq<RowLog>, processed: nat, env: Env)
    requires i < |rows|
    ensures var t := Turn(Replies(rows, env)[i], rows[i].id, i, processed, env);
      RunFrom(rows, i, log, processed, env)
      == if t.None? then RunResult(log, processed, Halted)
         else RunFrom(rows, i + 1, log + [t.value.0], t.value.1, env)
  {
  }

  /** `enrich_ai_test_rows` once the rows are fetched: nothing at all without rows. */
  function EnrichRows(rows: seq<DbRow>, env: Env): RunResult {
    if rows == [] then RunResult([], 0, NoRows) else RunFrom(rows, 0, [], 0, env)
  }

  /** The loop of `enrich_ai_test_rows`, step by step. */
  method EnrichAiTestRows(rows: seq<DbRow>, env: Env) returns (r: RunResult)
    ensures r == EnrichRows(rows, env)
  {
    if rows == [] {
      return RunResult([], 0, NoRows);
    }
    var log: seq<RowLog> := [];
    var processed: nat := 0;
    var i := 0;
    while i < |rows|
      invariant 0 <= i <= |rows|
      invariant RunFrom(rows, i, log, processed, env) == RunFrom(rows, 0, [], 0, env)
    {
      var row := rows[i];
      var enriched := env.enrich(BuildCompanyPayload(row.cols));
      ReplyAt(rows, env, i);
      RunFromStep(rows, i, log, processed, env);
      if enriched.Fatal? {
        return RunResult(log, processed, Halted);
      }
      if enriched.Failed? {
        log, i := log + [NotEnriched], i + 1;
        continue;
      }
      var telephone := WrittenText(enriched.record, "phone_number");
      var website := WrittenText(enriched.record, "company_website");
      if telephone.None? || website.None? {
        return RunResult(log, processed, Halted);
      }
      if !env.updateOk(i) {
        if !env.rollbackOk(i) {
          return RunResult(log, processed, Halted);
        }
        log, i := log + [UpdateFailed(row.id, telephone.value, website.value)], i + 1;
        continue;
      }
      if env.commitEvery == 0 {
        return RunResult(log, processed, Halted);
      }
      var n := processed + 1;
      var commit := if n % env.commitEvery == 0 then Some(env.commitOk(i)) else None;
      if commit == Some(false) && !env.rollbackOk(i) {
        return RunResult(log, processed, Halted);
      }
      log, processed, i := log + [Updated(row.id, telephone.value, website.value, commit)], n, i + 1;
    }
    if env.commitOk(|rows|) {
      return RunResult(log, processed, Finished(true));
    } else if env.rollbackOk(|rows|) {
      return RunResult(log, processed, Finished(false));
    }
    return RunResult(log, processed, FinalRollbackRaised);
  }

  /** The entry at position `k` of `log` is what the turn on its row gave, counting
      the updates before it. */
  predicate EntryFits(rows: seq<DbRow>, env: Env, log: seq<RowLog>, k: nat)
    requires k < |log| <= |rows|
  {
    Turn(Replies(rows, env)[k], rows[k].id, k, CountUpdated(log[..k]), env) == Some((log[k], CountUpdated(log[..k + 1])))
  }

  /** Every entry of `log` fits its row. */
  predicate Conforms(rows: seq<DbRow>, env: Env, log: seq<RowLog>)
    requires |log| <= |rows|
  {
    forall k :: 0 <= k < |log| ==> EntryFits(rows, env, log, k)
  }

  /** Whether an entry fits depends only on the log up to that entry. */
  lemma EntryFitsPrefix(rows: seq<DbRow>, env: Env, log: seq<RowLog>, log': seq<RowLog>, k: nat)
    requires k < |log| <= |rows| && k < |log'| <= |rows| && log[..k + 1] == log'[..k + 1]
    requires EntryFits(rows, env, log, k)
    ensures EntryFits(rows, env, log', k)
  {
    assert log[..k] == log[..k + 1][..k] && log'[..k] == log'[..k + 1][..k];
    assert log[k] == log[..k + 1][k] && log'[k] == log'[..k + 1][k];
  }

  /** A turn adds one to the count exactly when its row was updated. */
  lemma TurnCounts(reply: Reply, id: int, i: nat, processed: nat, env: Env)
    requires Turn(reply, id, i, processed, env).Some?
    ensures var (e, n) := Turn(reply, id, i, processed, env).value;
      n == processed + (if e.Updated? then 1 else 0)
  {
  }

  /** An entry added to the log counts when it is an update. */
  lemma CountSnoc(log: seq<RowLog>, entry: RowLog)
    ensures CountUpdated(log + [entry]) == CountUpdated(log) + (if entry.Updated? then 1 else 0)
  {
    assert (log + [entry])[..|log|] == log;
  }

  /** The entry the next turn gives fits, and the turn's count is the new count. */
  lemma LastEntryFits(rows: seq<DbRow>, env: Env, log: seq<RowLog>, entry: RowLog, n: nat)
    requires |log| < |rows|
    requires Turn(Replies(rows, env)[|log|], rows[|log|].id, |log|, CountUpdated(log), env) == Some((entry, n))
    ensures EntryFits(rows, env, log + [entry], |log|) && n == CountUpdated(log + [entry])
  {
    var log' := log + [entry];
    TurnCounts(Replies(rows, env)[|log|], rows[|log|].id, |log|, CountUpdated(log), env);
    CountSnoc(log, entry);
    assert log'[..|log|] == log && log'[|log|] == entry && log'[..|log| + 1] == log';
  }

  /** A conforming log extended by the next turn still conforms. */
  lemma ConformsSnoc(rows: seq<DbRow>, env: Env, log: seq<RowLog>, entry: RowLog, n: nat)
    requires |log| < |rows| && Conforms(rows, env, log)
    requires Turn(Replies(rows, env)[|log|], rows[|log|].id, |log|, CountUpdated(log), env) == Some((entry, n))
    ensures Conforms(rows, env, log + [entry]) && n == CountUpdated(log + [entry])
  {
    var log' := log + [entry];
    LastEntryFits(rows, env, log, entry, n);
    forall k | 0 <= k < |log'| ensures EntryFits(rows, env, log', k) {
      if k < |log| {
        assert log'[..k + 1] == log[..k + 1];
        EntryFitsPrefix(rows, env, log, log', k);
      }
    }
  }

  /** The account of a run from position `i`: the log conforms, `processed` counts the
      updates, and the run ends exactly as its last turn says. */
  lemma {:induction false} RunFromAccount(rows: seq<DbRow>, i: nat, log: seq<RowLog>, processed: nat, env: Env)
    requires i <= |rows| && |log| == i && processed == CountUpdated(log) && Conforms(rows, env, log)
    ensures var r := RunFrom(rows, i, log, processed, env);
      && i <= |r.log| <= |rows| && r.log[..i] == log && Conforms(rows, env, r.log)
      && r.processed == CountUpdated(r.log)
      && (r.ending.Halted? <==> |r.log| < |rows|)
      && (|r.log| == |rows| ==> r.ending == FinalEnding(env, |rows|))
      && (r.ending.Finished? ==> r.ending.committed == env.commitOk(|rows|))
      && (r.ending.Halted? ==> Turn(Replies(rows, env)[|r.log|], rows[|r.log|].id, |r.log|, r.processed, env).None?)
      && !r.ending.NoRows?
    decreases |rows| - i
  {
    if i < |rows| {
      match Turn(Replies(rows, env)[i], rows[i].id, i, processed, env)
      case None =>
      case Some((entry, n)) =>
        ConformsSnoc(rows, env, log, entry, n);
        RunFromAccount(rows, i + 1, log + [entry], n, env);
        var r := RunFrom(rows, i + 1, log + [entry], n, env);
        assert r.log[..i] == r.log[..i + 1][..i];
    } else {
      assert log[..i] == log;
    }
  }

  /** The account of a whole run: no rows give nothing; otherwise the log holds one
      entry per row reached, each what its turn gave, `processed` is the number of
      rows updated, and the run goes through every row unless a turn raises. */
  lemma RunAccount(rows: seq<DbRow>, env: Env)
    ensures var r := EnrichRows(rows, env);
      && |r.log| <= |rows| && Conforms(rows, env, r.log)
      && r.processed == CountUpdated(r.log)
      && (r.ending.NoRows? <==> rows == [])
      && (r.ending.Halted? <==> |r.log| < |rows|)
      && (rows != [] && |r.log| == |rows| ==> r.ending == FinalEnding(env, |rows|))
      && (r.ending.Finished? <==> rows != [] && |r.log| == |rows| && (env.commitOk(|rows|) || env.rollbackOk(|rows|)))
      && (r.ending.Finished? ==> r.ending.committed == env.commitOk(|rows|))
      && (r.ending.Halted? ==> Turn(Replies(rows, env)[|r.log|], rows[|r.log|].id, |r.log|, r.processed, env).None?)
  {
    if rows != [] {
      RunFromAccount(rows, 0, [], 0, env);
    }
  }

  /** What the loop writes for a row it updates, or tries to: the row's own id and the
      stripped phone number and web site of its enrichment, `""` standing for a missing
      one. The update goes through exactly when the database accepts it. */
  lemma WrittenValues(rows: seq<DbRow>, env: Env, k: nat)
    requires k < |EnrichRows(rows, env).log|
    ensures k < |rows|
    ensures var e := EnrichRows(rows, env).log[k];
      var answer := env.enrich(BuildCompanyPayload(rows[k].cols));
      && (e.NotEnriched? <==> answer.Failed?)
      && (!e.NotEnriched? ==>
            && answer.Enriched? && e.id == rows[k].id
            && Some(e.telephone) == WrittenText(answer.record, "phone_number")
            && Some(e.website) == WrittenText(answer.record, "company_website")
            && Bare(e.telephone) && Bare(e.website)
            && (e.Updated? <==> env.updateOk(k))
            && (e.UpdateFailed? ==> env.rollbackOk(k)))
  {
    RunAccount(rows, env);
    ReplyAt(rows, env, k);
    assert EntryFits(rows, env, EnrichRows(rows, env).log, k);
  }

  /** The commit cadence: a row updated is followed by a commit exactly when the count
      of rows updated so far, this one included, is a multiple of `commit_every`, and
      that commit is the one the database makes or refuses after this row. */
  lemma CommitCadence(rows: seq<DbRow>, env: Env, k: nat)
    requires k < |EnrichRows(rows, env).log| && EnrichRows(rows, env).log[k].Updated?
    ensures k < |rows|
    ensures var log := EnrichRows(rows, env).log;
      && env.commitEvery != 0
      && (log[k].commit.Some? <==> CountUpdated(log[..k + 1]) % env.commitEvery == 0)
      && (log[k].commit.Some? ==> log[k].commit.value == env.commitOk(k))
      && (log[k].commit == Some(false) ==> env.rollbackOk(k))
  {
    RunAccount(rows, env);
    var log := EnrichRows(rows, env).log;
    assert EntryFits(rows, env, log, k);
  }

  // ---------------------------------------------------------------------------
  // what the database keeps

  /** The ids whose updates the database has made permanent, and those still waiting
      for a commit, after the entries of `log`: an update waits for the next commit, and
      a failed update or commit is rolled back, discarding every update still waiting. */
  function Settle(log: seq<RowLog>): (seq<int>, seq<int>) {
    if log == [] then ([], [])
    else
      var (kept, waiting) := Settle(log[..|log| - 1]);
      match log[|log| - 1]
      case NotEnriched => (kept, waiting)
      case UpdateFailed(_, _, _) => (kept, [])
      case Updated(id, _, _, commit) =>
        match commit
        case None => (kept, waiting + [id])
        case Some(true) => (kept + waiting + [id], [])
        case Some(false) => (kept, [])
  }

  /** The ids whose updates the database keeps after the run: those waiting are kept
      only by a successful final commit, and lost when the run halts (the connection is
      closed without a commit). */
  function Durable(r: RunResult): seq<int> {
    var (kept, waiting) := Settle(r.log);
    if r.ending == Finished(true) then kept + waiting else kept
  }

  /** A rollback in the log: a failed update or a failed commit. */
  predicate RolledBack(log: seq<RowLog>) {
    exists k :: 0 <= k < |log| && (log[k].UpdateFailed? || (log[k].Updated? && log[k].commit == Some(false)))
  }

  /** Each update is made permanent at most once and waits at most once: the kept and
      waiting updates together are at most the updates made, and exactly as many when
      nothing was rolled back. */
  lemma {:induction false} SettleBound(log: seq<RowLog>)
    ensures |Settle(log).0| + |Settle(log).1| <= CountUpdated(log)
    ensures !RolledBack(log) ==> |Settle(log).0| + |Settle(log).1| == CountUpdated(log)
  {
    if log != [] {
      var init := log[..|log| - 1];
      SettleBound(init);
      if !RolledBack(log) {
        assert !RolledBack(init) by {
          forall k | 0 <= k < |init| ensures init[k] == log[k] { }
        }
        assert log[|log| - 1] == log[|log| - 1];
      }
    }
  }

  /** `processed` never undercounts what the database keeps, and it is exact for a run
      that finished with a successful final commit and no rollback on the way. */
  lemma DurableAtMostProcessed(rows: seq<DbRow>, env: Env)
    ensures var r := EnrichRows(rows, env);
      |Durable(r)| <= r.processed
      && (r.ending == Finished(true) && !RolledBack(r.log) ==> |Durable(r)| == r.processed)
  {
    RunAccount(rows, env);
    SettleBound(EnrichRows(rows, env).log);
  }

  /** An update waiting for a commit is discarded by a later failed update. */
  lemma FailedUpdateDiscardsWaiting(id0: int, id1: int)
    ensures Settle([Updated(id0, "", "", None), UpdateFailed(id1, "", "")]) == ([], [])
  {
    var r0 := Updated(id0, "", "", None);
    assert [r0, UpdateFailed(id1, "", "")][..1] == [r0] && [r0][..0] == [];
    assert [] + [id0] == [id0];
    assert Settle([r0]) == ([], [id0]);
  }

  /** An empty record gives two empty texts to write. */
  lemma EmptyRecordReply(rows: seq<DbRow>, env: Env, k: nat)
    requires k < |rows|
    requires forall c :: env.enrich(c) == AiEnhancement.Enriched(map[])
    ensures Replies(rows, env)[k] == Texts("", "")
  {
    ReplyAt(rows, env, k);
    assert WrittenText(map[], "phone_number") == Some("") && WrittenText(map[], "company_website") == Some("");
  }

  /** The run of two rows where the enrichment answers nothing, the first update goes
      through and the second fails: one row counted, and the run finishes. */
  lemma RollbackRun(rows: seq<DbRow>, env: Env)
    requires |rows| == 2 && env.commitEvery == 5
    requires forall c :: env.enrich(c) == AiEnhancement.Enriched(map[])
    requires env.updateOk(0) && !env.updateOk(1) && env.rollbackOk(1) && env.commitOk(2)
    ensures EnrichRows(rows, env) ==
      RunResult([Updated(rows[0].id, "", "", None), UpdateFailed(rows[1].id, "", "")], 1, Finished(true))
  {
    var r0 := Updated(rows[0].id, "", "", None);
    var r1 := UpdateFailed(rows[1].id, "", "");
    EmptyRecordReply(rows, env, 0);
    EmptyRecordReply(rows, env, 1);
    var replies := Replies(rows, env);
    assert Turn(replies[0], rows[0].id, 0, 0, env) == Some((r0, 1));
    assert Turn(replies[1], rows[1].id, 1, 1, env) == Some((r1, 1));
    assert [] + [r0] == [r0] && [r0] + [r1] == [r0, r1];
    RunFromStep(rows, 0, [], 0, env);
    RunFromStep(rows, 1, [r0], 1, env);
  }

  /** But a rollback also discards the earlier updates still waiting for a commit, which
      `processed` keeps counting: with `commit_every` 5, a first row updated and a
      second whose update fails, the run reports one row updated and the database keeps
      none. */
  lemma RollbackLosesCountedUpdate(rows: seq<DbRow>, env: Env)
    requires |rows| == 2 && env.commitEvery == 5
    requires forall c :: env.enrich(c) == AiEnhancement.Enriched(map[])
    requires env.updateOk(0) && !env.updateOk(1) && env.rollbackOk(1) && env.commitOk(2)
    ensures EnrichRows(rows, env).processed == 1 && Durable(EnrichRows(rows, env)) == []
  {
    RollbackRun(rows, env);
    FailedUpdateDiscardsWaiting(rows[0].id, rows[1].id);
  }
}
