/**
 * The address block of a CTQ detail page (`parse_ctq_result` in
 * `spiders/ctq_scraper.py`): the lines are stripped and blank ones dropped,
 * the first line is the street, the second `City (Prov) Code` is cut at the
 * parentheses, and a country is looked for in front of a postal-code
 * pattern on the last line.
 */
module CtqAddress {
  import opened Common
  import opened Str

  // ---------------------------------------------------------------------------
  // the city line

  /** Line two cut at the parentheses: `ville` is the stripped text before the first
      `(`; `province` the stripped text between it and the next `)`; `code_postal` the
      stripped text after that `)` up to any further `)`. A missing `(` or `)` ends the
      cut, keeping the fields found so far and leaving the others empty. */
  function ParseCityLine(line: string): (r: (string, string, string))
    ensures '(' !in r.0 && ')' !in r.1
    ensures Bare(r.0) && Bare(r.1) && Bare(r.2)
  {
    var parts := Split(line, "(");
    SplitPieces(line, "(");
    var ville := Strip(parts[0]);
    StripIsBare(parts[0]);
    StripKeepsOut(parts[0], '(');
    if |parts| < 2 then (ville, "", "")
    else
      var inner := Split(parts[1], ")");
      SplitPieces(parts[1], ")");
      var province := Strip(inner[0]);
      StripIsBare(inner[0]);
      StripKeepsOut(inner[0], ')');
      if |inner| < 2 then (ville, province, "")
      else
        StripIsBare(inner[1]);
        (ville, province, Strip(inner[1]))
  }

  /** A piece `split` returns has no separator character in it, nor does its strip. */
  lemma StripKeepsOut(piece: string, c: char)
    requires !Contains(piece, [c])
    ensures c !in Strip(piece)
  {
    ContainsChar(piece, c);
  }

  /** The line as the register writes it: `City (Prov) Code`. */
  function CityLine(ville: string, province: string, code: string): string {
    ville + [' ', '('] + province + [')', ' '] + code
  }

  /** A written city line cuts back into its three fields. */
  lemma CityLineRoundTrip(ville: string, province: string, code: string)
    requires Bare(ville) && Bare(province) && Bare(code)
    requires '(' !in ville && '(' !in province && '(' !in code
    requires ')' !in province && ')' !in code
    ensures ParseCityLine(CityLine(ville, province, code)) == (ville, province, code)
  {
    CityLineSplits(ville, province, code);
    StripSpaceAfter(ville);
    StripBare(province);
    StripSpaceBefore(code);
  }

  /** The cuts of a written line at `(` and then at `)`. */
  lemma CityLineSplits(ville: string, province: string, code: string)
    requires '(' !in ville && '(' !in province && '(' !in code
    requires ')' !in province && ')' !in code
    ensures var b := Join([province, [' '] + code], ")");
      Split(CityLine(ville, province, code), "(") == [ville + [' '], b]
      && Split(b, ")") == [province, [' '] + code]
  {
    var a := ville + [' '];
    var c := [' '] + code;
    var b := Join([province, c], ")");
    CityLineJoins(ville, province, code);
    SplitJoin([a, b], "(");
    SplitJoin([province, c], ")");
  }

  /** The written line is the join of its pieces at `(`, and the second piece the join
      of its pieces at `)`. */
  lemma CityLineJoins(ville: string, province: string, code: string)
    ensures var b := Join([province, [' '] + code], ")");
      CityLine(ville, province, code) == Join([ville + [' '], b], "(")
  {
    var a := ville + [' '];
    var c := [' '] + code;
    assert [province, c][1..] == [c];
    assert Join([c], ")") == c;
    var b := Join([province, c], ")");
    assert b == province + ")" + c;
    assert [a, b][1..] == [b];
    assert Join([b], "(") == b;
    assert Join([a, b], "(") == a + "(" + b;
  }

  /** Without `(` the whole stripped line is the city. */
  lemma CityLineNoParen(line: string)
    requires '(' !in line
    ensures ParseCityLine(line) == (Strip(line), "", "")
  {
    ContainsChar(line, '(');
    SplitWithout(line, "(");
  }

  /** With `(` but no `)` after it, the city and the province are kept and the code is
      left empty. */
  lemma CityLineNoClose(before: string, after: string)
    requires '(' !in before && '(' !in after && ')' !in after
    ensures ParseCityLine(before + "(" + after) == (Strip(before), Strip(after), "")
  {
    assert before + "(" + after == Join([before, after], "(") by {
      assert [before, after][1..] == [after];
    }
    SplitJoin([before, after], "(");
    ContainsChar(after, ')');
    SplitWithout(after, ")");
  }

  // ---------------------------------------------------------------------------
  // the postal-code pattern `[A-Za-z0-9\s]+(\d{5}|\d{3}\s?\d{3}|\d{2}\s?\d{3})`

  /** The class `[A-Za-z0-9\s]`. */
  predicate InClass(c: char) { IsAsciiLetter(c) || IsDigit(c) || IsSpace(c) }

  /** `n` digits start at `i`. */
  predicate DigitsAt(s: string, i: nat, n: nat) {
    i + n <= |s| && forall k :: i <= k < i + n ==> IsDigit(s[k])
  }

  predicate SpaceAt(s: string, i: nat) { i < |s| && IsSpace(s[i]) }

  /** The group `(\d{5}|\d{3}\s?\d{3}|\d{2}\s?\d{3})` matches at `q`. */
  predicate PostalAt(s: string, q: nat) {
    DigitsAt(s, q, 5)
    || (DigitsAt(s, q, 3) && (DigitsAt(s, q + 3, 3) || (SpaceAt(s, q + 3) && DigitsAt(s, q + 4, 3))))
    || (DigitsAt(s, q, 2) && (DigitsAt(s, q + 2, 3) || (SpaceAt(s, q + 2) && DigitsAt(s, q + 3, 3))))
  }

  /** Where the run of class characters that starts at `p` ends. */
  function RunEnd(s: string, p: nat): (e: nat)
    requires p <= |s|
    ensures p <= e <= |s|
    ensures forall k :: p <= k < e ==> InClass(s[k])
    ensures e < |s| ==> !InClass(s[e])
    decreases |s| - p
  {
    if p == |s| || !InClass(s[p]) then p else RunEnd(s, p + 1)
  }

  /** Any `e` that ends the run is the value `RunEnd` computes. */
  lemma {:induction false} RunEndAt(s: string, p: nat, e: nat)
    requires p <= e <= |s|
    requires forall k :: p <= k < e ==> InClass(s[k])
    requires e < |s| ==> !InClass(s[e])
    ensures RunEnd(s, p) == e
    decreases e - p
  {
    if p < e {
      RunEndAt(s, p + 1, e);
    }
  }

  /** The greedy `+` backing off: the largest `q` in `(lo, hi]` where the group matches. */
  function LastPostal(s: string, lo: nat, hi: nat): (r: Option<nat>)
    ensures r.Some? ==> lo < r.value <= hi && PostalAt(s, r.value)
    ensures r.Some? ==> forall k :: r.value < k <= hi ==> !PostalAt(s, k)
    ensures r.None? ==> forall k :: lo < k <= hi ==> !PostalAt(s, k)
    decreases hi
  {
    if hi <= lo then None
    else if PostalAt(s, hi) then Some(hi)
    else LastPostal(s, lo, hi - 1)
  }

  /** The pattern matches at `p`: a class character there, and the group right after
      some non-empty part of the run that starts at `p`. */
  predicate MatchAt(s: string, p: nat) {
    p < |s| && InClass(s[p]) && exists q :: p < q <= RunEnd(s, p) && PostalAt(s, q)
  }

  /** `re.search`: the leftmost start at or after `from` where the pattern matches,
      with the start of its group. */
  function Search(s: string, from: nat): (r: Option<(nat, nat)>)
    ensures r.Some? ==> var (p, q) := r.value;
      from <= p < q <= |s| && MatchAt(s, p) && PostalAt(s, q) && q <= RunEnd(s, p)
      && forall k :: q < k <= RunEnd(s, p) ==> !PostalAt(s, k)
    ensures r.Some? ==> forall p :: from <= p < r.value.0 ==> !MatchAt(s, p)
    ensures r.None? ==> forall p :: from <= p ==> !MatchAt(s, p)
    decreases |s| - from
  {
    if from >= |s| then None
    else if InClass(s[from]) && LastPostal(s, from, RunEnd(s, from)).Some? then
      Some((from, LastPostal(s, from, RunEnd(s, from)).value))
    else
      Search(s, from + 1)
  }

  // ---------------------------------------------------------------------------
  // pays

  /** `address_lines[-1]`. */
  function LastLine(lines: seq<string>): string
    requires |lines| > 0
  {
    lines[|lines| - 1]
  }

  /** `extract_pays_from_address` as written: the text before `match.start()`, which is
      where the class run begins, not where the postal code begins. */
  function PaysAsWritten(lines: seq<string>): (r: string)
    ensures |lines| <= 2 ==> r == ""
    ensures |lines| > 2 ==> exists k :: 0 <= k <= |LastLine(lines)| && r == Strip(LastLine(lines)[..k])
    ensures Bare(r)
  {
    if |lines| <= 2 then ""
    else
      var last := LastLine(lines);
      match Search(last, 0)
      case Some((p, _)) =>
        StripIsBare(last[..p]);
        Strip(last[..p])
      case None =>
        assert "" == Strip(last[..0]);
        ""
  }

  /** The country as the comment above the pattern describes it: the stripped text in
      front of the postal code, which is where the group starts. */
  function Pays(lines: seq<string>): (r: string)
    ensures |lines| <= 2 ==> r == ""
    ensures |lines| > 2 ==> exists k :: 0 <= k <= |LastLine(lines)| && r == Strip(LastLine(lines)[..k])
    ensures Bare(r)
  {
    if |lines| <= 2 then ""
    else
      var last := LastLine(lines);
      match Search(last, 0)
      case Some((_, q)) =>
        StripIsBare(last[..q]);
        Strip(last[..q])
      case None =>
        assert "" == Strip(last[..0]);
        ""
  }

  /** When the pattern matches, the country is the text right in front of a postal code,
      and no later start in the same run also begins one. */
  lemma PaysBeforePostal(lines: seq<string>)
    requires |lines| > 2 && Search(lines[|lines| - 1], 0).Some?
    ensures var last := lines[|lines| - 1];
      var (p, q) := Search(last, 0).value;
      Pays(lines) == Strip(last[..q]) && PostalAt(last, q)
      && PaysAsWritten(lines) == Strip(last[..p]) && p < q
  {
  }

  /** The last line `USA 90210` as written gives no country: the match starts at `U`,
      while the postal code starts at `9`. */
  lemma PaysAsWrittenLosesCountry(lines: seq<string>)
    requires lines == ["123 Main St", "Montreal (QC) H1A 1A1", "USA 90210"]
    ensures PaysAsWritten(lines) == "" && Pays(lines) == "USA"
  {
    var s := LastLine(lines);
    UsaSearch(s);
    UsaCountry(s);
    PaysBeforePostal(lines);
  }

  /** The text in front of `U` strips to nothing, the text in front of `9` to `USA`. */
  lemma UsaCountry(s: string)
    requires s == "USA 90210"
    ensures Strip(s[..0]) == "" && Strip(s[..4]) == "USA"
  {
    StripBare(s[..0]);
    var country := s[..3];
    assert country == "USA";
    assert s[..4] == country + [' '];
    StripSpaceAfter(country);
  }

  /** The search over `USA 90210` starts at 0 and finds the group at 4. */
  lemma UsaSearch(s: string)
    requires s == "USA 90210"
    ensures Search(s, 0) == Some((0, 4))
  {
    UsaRun(s);
    UsaGroup(s);
  }

  lemma UsaRun(s: string)
    requires s == "USA 90210"
    ensures RunEnd(s, 0) == 9
  {
    assert forall k :: 0 <= k < 9 ==> InClass(s[k]);
    RunEndAt(s, 0, 9);
  }

  lemma UsaGroup(s: string)
    requires s == "USA 90210"
    ensures LastPostal(s, 0, 9) == Some(4)
  {
    assert !PostalAt(s, 9) && !PostalAt(s, 8);
    assert !PostalAt(s, 7) by {
      assert !SpaceAt(s, 9);
    }
    assert !PostalAt(s, 6) by {
      assert !SpaceAt(s, 8) && !SpaceAt(s, 9);
    }
    assert !PostalAt(s, 5) by {
      assert !SpaceAt(s, 7) && !SpaceAt(s, 8);
    }
    assert DigitsAt(s, 4, 5);
  }

  // ---------------------------------------------------------------------------
  // the address fields

  /** The address fields of a company record. */
  datatype Address = Address(
    fullAddress: string, adresse: string, ville: string, province: string,
    codePostal: string, pays: string)

  /** The address fields from the raw text nodes of the address block, the country
      taken as the source takes it (`PaysAsWritten`). */
  function ParseAddress(raw: seq<string>): (a: Address)
    ensures Bare(a.adresse) && Bare(a.ville) && Bare(a.province) && Bare(a.codePostal) && Bare(a.pays)
    ensures a.adresse == "" <==> Normalize(raw) == []
  {
    var lines := Normalize(raw);
    var (ville, province, code) := if |lines| > 1 then ParseCityLine(lines[1]) else ("", "", "");
    Address(Join(lines, " "), if |lines| > 0 then lines[0] else "", ville, province, code, PaysAsWritten(lines))
  }

  /** Re-parsing the normalized lines gives the same fields. */
  lemma AddressIdempotent(raw: seq<string>)
    ensures ParseAddress(Normalize(raw)) == ParseAddress(raw)
  {
    NormalizeIdempotent(raw);
  }

  /** A two-line block `street` / `City (Prov) Code`, such as `123 Main St` /
      `Montreal (QC) H1A 1A1`, gives the street, the city, the province and the code,
      and no country. */
  lemma TwoLineAddress(street: string, ville: string, province: string, code: string)
    requires street != [] && Bare(street)
    requires ville != [] && code != [] && Bare(ville) && Bare(province) && Bare(code)
    requires '(' !in ville && '(' !in province && '(' !in code
    requires ')' !in province && ')' !in code
    ensures var line := CityLine(ville, province, code);
      ParseAddress([street, line]) == Address(street + " " + line, street, ville, province, code, "")
  {
    var line := CityLine(ville, province, code);
    var raw := [street, line];
    assert line[0] == ville[0] && line[|line| - 1] == code[|code| - 1];
    NormalizeFixed(raw);
    CityLineRoundTrip(ville, province, code);
    assert raw[1..] == [line];
    assert Join(raw[1..], " ") == line;
    assert Join(raw, " ") == street + " " + line;
    assert PaysAsWritten(raw) == "";
    assert ParseCityLine(raw[1]) == (ville, province, code);
  }
}
