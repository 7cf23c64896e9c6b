/**
 * The per-NEQ lookup of `spiders/ctq_scraper.py` as a chain of page decisions: the
 * search form is submitted, the result page is checked, the bulk-trucking (VRAC) page
 * is fetched when the company has one, and the detail page becomes one record.
 *
 * Each page is the record of what the spider's XPath queries return on it, and each
 * callback is a function from the session data carried with the request and the page
 * to one step: stop, send a follow-up form, or emit a record. Follow-up forms are
 * drafts here; the spider attaches the rotating proxy when it sends them (module
 * CtqSpider).
 */
module CtqWorkflow {
  import opened Common
  import opened Str
  import CtqForms
  import Url
  import CtqAddress

  const StartUrl: string := "https://www.pes.ctq.gouv.qc.ca/pes2/mvc/dossierclient"

  /** The form token used when the result page carries none. */
  const FallbackExecution: string := "e1s2"

  /** The spider method a response is handed to. */
  datatype Callback = ParseInitial | CheckValidity | ParseVracResult | ParseCtqResult | ParseCtqResultWithVrac

  /** The four cells of the VRAC registration table. */
  datatype Vrac = Vrac(numeroInscription: string, regionExploitation: string,
                       nombreCamions: string, nomCourtier: string)

  const NoVrac: Vrac := Vrac("", "", "", "")

  /** The session data a request carries to its callback (`response.meta`). A key the
      request did not set is `None`. */
  datatype Meta = Meta(
    neq: string, cookiejar: Option<string>, referer: Option<string>,
    hasVrac: Option<bool>, ctqAction: Option<string>,
    ctqFormdata: Option<map<string, string>>, extraValues: Option<string>,
    vracData: Option<Vrac>)

  function SessionMeta(neq: string, cookiejar: Option<string>): Meta {
    Meta(neq, cookiejar, None, None, None, None, None, None)
  }

  /** A form POST a callback asks for, before the proxy is chosen. */
  datatype Draft = Draft(url: string, formdata: map<string, string>, referer: string,
                         callback: Callback, meta: Meta)

  /** One company row of the output. */
  datatype Record = Record(
    neq: string, nom: string, fullAddress: string, adresse: string, ville: string,
    province: string, codePostal: string, pays: string, nir: string, titre: string,
    categorieTransport: string, dateInscription: string, dateProchaineMaj: string,
    codeSecurite: string, droitCirculation: string, droitExploiter: string,
    motif: string, extraValues: string, vrac: Vrac)

  datatype Step = Stop | Next(draft: Draft) | Emit(record: Record)

  // ---------------------------------------------------------------------------
  // pages

  /** The search page: whether `mainForm` is there and its `ViewState` input. */
  datatype SearchPage = SearchPage(url: string, status: int, hasForm: bool, viewState: Option<string>)

  /** The page answering the search. `viewState` is the input found by name,
      `formToken` the one found by id (read by `extract_form_data`), `clientLinks` the
      link texts of the first client block, `vracOnclick` the handler of the VRAC link
      and `pecvlOnclick` the handler of the `PECVL` link. */
  datatype ResultPage = ResultPage(
    url: string, status: int, hasBody: bool, viewState: Option<string>,
    formToken: Option<string>, action: Option<string>, hasErrors: bool,
    displayedNeq: Option<string>, clientLinks: seq<string>,
    vracOnclick: Option<string>, pecvlOnclick: Option<string>)

  /** The VRAC page: the first four cells of its table. */
  datatype VracPage = VracPage(url: string, status: int, cells: (Option<string>, Option<string>, Option<string>, Option<string>))

  /** The detail page of a company. */
  datatype DetailPage = DetailPage(
    url: string, status: int, displayedNeq: Option<string>, nom: Option<string>,
    addressTexts: seq<string>, nirTexts: seq<string>, titre: Option<string>,
    categorie: Option<string>, dateInscription: Option<string>,
    dateProchaineMaj: Option<string>, codeSecurite: Option<string>,
    droitCirculation: Option<string>, droitExploiter: Option<string>, motif: Option<string>)

  // ---------------------------------------------------------------------------
  // field helpers

  /** `response.xpath(q).get(default="").strip()` for a query returning `o`. */
  function Text(o: Option<string>): (r: string)
    ensures Bare(r)
    ensures o.None? ==> r == ""
  {
    StripIsBare(o.GetOr(""));
    Strip(o.GetOr(""))
  }

  /** `_format_excel_text`: despite its name it hands the value back unchanged. */
  function FormatExcelText(value: string): (r: string) {
    if value == "" then "" else value
  }

  lemma FormatExcelTextIsIdentity(value: string)
    ensures FormatExcelText(value) == value
  {
  }

  /** The first stripped text starting with `R-`, or `""`. */
  function FirstNir(texts: seq<string>): (r: string)
    ensures r == "" || StartsWith(r, "R-")
  {
    if texts == [] then ""
    else if StartsWith(Strip(texts[0]), "R-") then Strip(texts[0])
    else FirstNir(texts[1..])
  }

  /** `FirstNir` is empty exactly when no stripped text starts with `R-`. */
  lemma {:induction false} FirstNirEmpty(texts: seq<string>)
    ensures FirstNir(texts) == ""
            <==> forall k :: 0 <= k < |texts| ==> !StartsWith(Strip(texts[k]), "R-")
  {
    if texts != [] && !StartsWith(Strip(texts[0]), "R-") {
      FirstNirEmpty(texts[1..]);
      assert forall k :: 1 <= k < |texts| ==> texts[k] == texts[1..][k - 1];
    }
  }

  /** A non-empty `FirstNir` is the stripped text at index `i`, and no stripped text
      before `i` starts with `R-`. */
  lemma {:induction false} FirstNirAt(texts: seq<string>) returns (i: nat)
    requires FirstNir(texts) != ""
    ensures i < |texts| && FirstNir(texts) == Strip(texts[i])
    ensures forall k :: 0 <= k < i ==> !StartsWith(Strip(texts[k]), "R-")
  {
    if StartsWith(Strip(texts[0]), "R-") {
      i := 0;
    } else {
      var j := FirstNirAt(texts[1..]);
      i := j + 1;
      assert texts[i] == texts[1..][j];
      forall k | 0 <= k < i
        ensures !StartsWith(Strip(texts[k]), "R-")
      {
        if k > 0 {
          assert texts[k] == texts[1..][k - 1];
        }
      }
    }
  }

  /** `",".join(v.strip() for v in links if v.strip())`. */
  function ExtraValues(links: seq<string>): string {
    Join(Normalize(links), ",")
  }

  /** The first form the spider submits: the search by NEQ, all other criteria empty. */
  function SearchPayload(neq: string, viewState: string): map<string, string> {
    map["mainForm:typeDroit" := "", "mainForm:personnePhysique" := "",
        "mainForm:municipalite" := "", "mainForm:municipaliteHorsQuebec" := "",
        "mainForm:neq" := neq, "mainForm:nir" := "", "mainForm:ni" := "",
        "mainForm:ner" := "", "mainForm:nar" := "", "mainForm:numeroPermis" := "",
        "mainForm:numeroDemande" := "", "mainForm:numeroDossier" := "",
        "mainForm:j_id_32" := "Rechercher", "mainForm_SUBMIT" := "1",
        "javax.faces.ViewState" := viewState]
  }

  /** The search form asks for exactly the requested NEQ under the page's token. */
  lemma SearchPayloadCarriesNeq(neq: string, viewState: string)
    ensures var p := SearchPayload(neq, viewState);
      "mainForm:neq" in p && p["mainForm:neq"] == neq
      && "javax.faces.ViewState" in p && p["javax.faces.ViewState"] == viewState
  {
  }

  /** The form that opens the VRAC registry entry of the client. */
  function VracPayload(execution: string): map<string, string> {
    map["mainForm_SUBMIT" := "1", "javax.faces.ViewState" := execution,
        "leClientNo" := "4007", "leContexte" := "VRAC", "leOrderBy" := "",
        "leOrderDir" := "", "leContexteEstDejaDetermine" := "oui", "leDdrSeq" := "0",
        "mainForm:_idcl" := "mainForm:j_id_z_8_2"]
  }

  // ---------------------------------------------------------------------------
  // the callbacks

  /** `parse_initial`: submit the search unless the form or its token is missing. */
  function InitialStep(meta: Meta, page: SearchPage): (s: Step)
    ensures s.Stop? <==> !page.hasForm || !HasText(page.viewState)
    ensures s.Next? ==>
      && s.draft.callback == CheckValidity && s.draft.url == page.url
      && s.draft.meta == SessionMeta(meta.neq, meta.cookiejar)
      && s.draft.formdata == SearchPayload(meta.neq, page.viewState.value)
  {
    if !page.hasForm then Stop
    else if !HasText(page.viewState) then Stop
    else Next(Draft(page.url, SearchPayload(meta.neq, page.viewState.value), page.url,
                    CheckValidity, SessionMeta(meta.neq, meta.cookiejar)))
  }

  /** The token the follow-up forms use: the page's view state, else `e1s2`. */
  function RedirectExecution(page: ResultPage): (e: string)
    ensures e != ""
  {
    if HasText(page.viewState) then page.viewState.value else FallbackExecution
  }

  /** The result page shows the requested company. */
  predicate Confirmed(meta: Meta, page: ResultPage) {
    page.status != 401 && page.hasBody && HasText(page.action)
    && !page.hasErrors && page.displayedNeq == Some(meta.neq)
  }

  /** `check_validity`: stop on a 401, an empty body, a missing form action, the
      `Erreur(s)` marker or another NEQ; otherwise open the VRAC entry when the page
      has a VRAC link, and the detail form when it does not. */
  function ValidityStep(meta: Meta, page: ResultPage): Step {
    if page.status == 401 || !page.hasBody then Stop
    else
      var execution := RedirectExecution(page);
      if !HasText(page.action) then Stop
      else if page.hasErrors then Stop
      else if page.displayedNeq != Some(meta.neq) then Stop
      else
        Url.OriginsAreHttps();
        var action := page.action.value;
        var extra := ExtraValues(page.clientLinks);
        if HasText(page.vracOnclick) then
          Next(Draft(
            CtqForms.RewriteExecution(page.url, execution), VracPayload(execution), page.url,
            ParseVracResult,
            Meta(meta.neq, meta.cookiejar, None, Some(true), Some(action),
                 Some(CtqForms.ExtractFormData(page.pecvlOnclick, page.formToken, Some(execution))),
                 Some(extra), None)))
        else
          Next(Draft(
            CtqForms.RewriteExecution(Url.JoinOrigin(Url.CtqOrigin, action), execution),
            CtqForms.ExtractFormData(page.pecvlOnclick, page.formToken, Some(execution)),
            page.url, ParseCtqResult,
            Meta(meta.neq, meta.cookiejar, None, Some(false), None, None, Some(extra), None)))
  }

  /** The check never emits a record; it goes on exactly when the page confirms the
      requested company, and then it takes the VRAC branch exactly when the page has a
      VRAC link. */
  lemma ValidityDecision(meta: Meta, page: ResultPage)
    ensures !ValidityStep(meta, page).Emit?
    ensures ValidityStep(meta, page).Next? <==> Confirmed(meta, page)
    ensures ValidityStep(meta, page).Next? ==>
      && (ValidityStep(meta, page).draft.callback == ParseVracResult <==> HasText(page.vracOnclick))
      && (ValidityStep(meta, page).draft.callback == ParseCtqResult <==> !HasText(page.vracOnclick))
  {
  }

  /** Whichever branch is taken, the follow-up URL carries `execution=<token>`, the
      session keeps its NEQ and cookie jar, and the client links travel along. */
  lemma ValidityFollowUp(meta: Meta, page: ResultPage)
    requires Confirmed(meta, page)
    ensures var d := ValidityStep(meta, page).draft;
      Contains(d.url, CtqForms.ExecutionKey + RedirectExecution(page))
      && d.meta.neq == meta.neq && d.meta.cookiejar == meta.cookiejar
      && d.meta.extraValues == Some(ExtraValues(page.clientLinks))
      && d.referer == page.url
  {
    var execution := RedirectExecution(page);
    if HasText(page.vracOnclick) {
      CtqForms.RewriteCarriesToken(page.url, execution);
    } else {
      CtqForms.RewriteCarriesToken(Url.JoinOrigin(Url.CtqOrigin, page.action.value), execution);
    }
  }

  /** The VRAC branch carries the detail form built with the redirect token, for the
      step after the VRAC page. */
  lemma VracBranchCarriesDetailForm(meta: Meta, page: ResultPage)
    requires Confirmed(meta, page) && HasText(page.vracOnclick)
    ensures var d := ValidityStep(meta, page).draft;
      d.meta.ctqAction == page.action
      && d.meta.ctqFormdata
         == Some(CtqForms.ExtractFormData(page.pecvlOnclick, page.formToken, Some(RedirectExecution(page))))
      && d.formdata["javax.faces.ViewState"] == RedirectExecution(page)
  {
    var execution := RedirectExecution(page);
    var form := CtqForms.ExtractFormData(page.pecvlOnclick, page.formToken, Some(execution));
    var d := ValidityStep(meta, page).draft;
    assert d.formdata == VracPayload(execution);
    assert d.meta.ctqAction == Some(page.action.value) && d.meta.ctqFormdata == Some(form);
    assert VracPayload(execution)["javax.faces.ViewState"] == execution;
  }

  /** The cells of the VRAC table. */
  function VracCells(page: VracPage): (v: Vrac) {
    Vrac(Text(page.cells.0), Text(page.cells.1), Text(page.cells.2), Text(page.cells.3))
  }

  /** A record with only the NEQ and the VRAC cells filled in. */
  function VracOnlyRecord(neq: string, vrac: Vrac): Record {
    Record(neq, "", "", "", "", "", "", "", "", "", "", "", "", "", "", "", "", "", vrac)
  }

  /** `parse_vrac_result`: with the stored form action, post the stored detail form and
      carry the VRAC cells along; without one, emit the cells alone. */
  function VracStep(meta: Meta, page: VracPage): (s: Step)
    requires meta.ctqAction.Some? && meta.ctqFormdata.Some?
    ensures s.Emit? <==> !HasText(meta.ctqAction)
    ensures !s.Stop?
  {
    var vrac := VracCells(page);
    Url.OriginsAreHttps();
    if HasText(meta.ctqAction) then
      Next(Draft(Url.JoinOrigin(Url.CtqOrigin, meta.ctqAction.value), meta.ctqFormdata.value, page.url,
                 ParseCtqResultWithVrac,
                 Meta(meta.neq, meta.cookiejar, None, None, None, None,
                      Some(meta.extraValues.GetOr("")), Some(vrac))))
    else
      Emit(VracOnlyRecord(meta.neq, vrac))
  }

  /** The record of a detail page, with the given VRAC cells. */
  function DetailRecord(meta: Meta, page: DetailPage, vrac: Vrac): (r: Record)
    ensures r.vrac == vrac
    ensures r.neq == (if Text(page.displayedNeq) != "" then Text(page.displayedNeq) else meta.neq)
    ensures r.nir == "" || StartsWith(r.nir, "R-")
  {
    var a := CtqAddress.ParseAddress(page.addressTexts);
    var shown := Text(page.displayedNeq);
    Record(
      if shown != "" then shown else meta.neq,
      Text(page.nom), a.fullAddress, a.adresse, a.ville, a.province, a.codePostal, a.pays,
      FirstNir(page.nirTexts), Text(page.titre), Text(page.categorie),
      FormatExcelText(Text(page.dateInscription)), FormatExcelText(Text(page.dateProchaineMaj)),
      Text(page.codeSecurite), Text(page.droitCirculation), Text(page.droitExploiter),
      Text(page.motif), meta.extraValues.GetOr(""), vrac)
  }

  /** The address columns of a record are those of the address block on its page. */
  lemma DetailRecordAddress(meta: Meta, page: DetailPage, vrac: Vrac)
    ensures var r := DetailRecord(meta, page, vrac);
      var a := CtqAddress.ParseAddress(page.addressTexts);
      r.fullAddress == a.fullAddress && r.adresse == a.adresse && r.ville == a.ville
      && r.province == a.province && r.codePostal == a.codePostal && r.pays == a.pays
      && Bare(r.adresse) && Bare(r.pays)
  {
  }

  /** `parse_ctq_result`: the record without VRAC data. */
  function DetailStep(meta: Meta, page: DetailPage): Step {
    Emit(DetailRecord(meta, page, NoVrac))
  }

  /** `parse_ctq_result_with_vrac`: the record with the VRAC cells carried along. */
  function DetailWithVracStep(meta: Meta, page: DetailPage): Step
    requires meta.vracData.Some?
  {
    Emit(DetailRecord(meta, page, meta.vracData.value))
  }

  // ---------------------------------------------------------------------------
  // the whole lookup of one NEQ

  /** The outcome of the lookup of `neq` when the four pages it may visit are these:
      at most one record. */
  function Lookup(neq: string, search: SearchPage, result: ResultPage, vracPage: VracPage, detail: DetailPage): Option<Record> {
    var start := SessionMeta(neq, Some("jar-" + neq));
    match InitialStep(start, search)
    case Stop => None
    case Emit(r) => Some(r)
    case Next(d1) =>
      match ValidityStep(d1.meta, result)
      case Stop => None
      case Emit(r) => Some(r)
      case Next(d2) =>
        if d2.callback == ParseCtqResult then
          Some(DetailStep(d2.meta, detail).record)
        else
          match VracStep(d2.meta, vracPage)
          case Stop => None
          case Emit(r) => Some(r)
          case Next(d3) => Some(DetailWithVracStep(d3.meta, detail).record)
  }

  /** A lookup yields a record exactly when the search form could be submitted and the
      result page confirms the NEQ. The record's VRAC columns are all empty when the
      result page had no VRAC link and are the four table cells when it had one; the
      extra values are the client links of the result page. */
  lemma LookupOutcome(neq: string, search: SearchPage, result: ResultPage, vracPage: VracPage, detail: DetailPage)
    ensures var r := Lookup(neq, search, result, vracPage, detail);
      r.Some? <==> (search.hasForm && HasText(search.viewState)
                    && Confirmed(SessionMeta(neq, Some("jar-" + neq)), result))
    ensures var r := Lookup(neq, search, result, vracPage, detail);
      r.Some? ==>
        (r.value.vrac == (if HasText(result.vracOnclick) then VracCells(vracPage) else NoVrac))
        && r.value.extraValues == ExtraValues(result.clientLinks)
  {
    var start := SessionMeta(neq, Some("jar-" + neq));
    var s1 := InitialStep(start, search);
    if s1.Next? {
      var m := s1.draft.meta;
      assert m == start;
      ValidityDecision(m, result);
      if Confirmed(m, result) {
        ConfirmedOutcome(m, result, vracPage, detail);
      }
    }
  }

  /** After a confirmed result page, the record's VRAC columns and extra values. */
  lemma ConfirmedOutcome(m: Meta, result: ResultPage, vracPage: VracPage, detail: DetailPage)
    requires Confirmed(m, result)
    ensures var d2 := ValidityStep(m, result).draft;
      d2.meta.extraValues == Some(ExtraValues(result.clientLinks))
      && (d2.callback == ParseCtqResult ==> DetailStep(d2.meta, detail).record.vrac == NoVrac)
      && (d2.callback != ParseCtqResult ==>
            && d2.meta.ctqAction.Some? && d2.meta.ctqFormdata.Some?
            && HasText(d2.meta.ctqAction) && HasText(result.vracOnclick)
            && VracStep(d2.meta, vracPage).Next?
            && VracStep(d2.meta, vracPage).draft.meta.extraValues == d2.meta.extraValues
            && VracStep(d2.meta, vracPage).draft.meta.vracData == Some(VracCells(vracPage)))
  {
    ValidityFollowUp(m, result);
  }
}
