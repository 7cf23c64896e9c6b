/**
 * `ai_enhancment.py`: enrich company records read from a CSV file by asking a
 * language model for phone numbers, web sites and contacts, and save the answers
 * as a JSON list.
 *
 * The HTTP call to the model is not modelled: each operation that depends on it
 * takes the decoded answer (or its absence) as a parameter. `json.loads` is the
 * abstract `Json.Parser`. Files are given as what reading them returned.
 */
module AiEnhancement {
  import opened Common
  import opened Str
  import opened Json

  // ---------------------------------------------------------------------------
  // finding the JSON object in the model's answer

  /** The position of the first `c` in `s`. */
  function FirstIndex(s: string, c: char): (r: Option<nat>)
    ensures r.Some? ==> r.value < |s| && s[r.value] == c
    ensures r.Some? ==> forall k :: 0 <= k < r.value ==> s[k] != c
    ensures r.None? <==> c !in s
  {
    if s == [] then None
    else if s[0] == c then Some(0)
    else
      match FirstIndex(s[1..], c)
      case None => None
      case Some(i) => Some(i + 1)
  }

  /** The position of the last `c` in `s`. */
  function LastIndex(s: string, c: char): (r: Option<nat>)
    ensures r.Some? ==> r.value < |s| && s[r.value] == c
    ensures r.Some? ==> forall k :: r.value < k < |s| ==> s[k] != c
    ensures r.None? <==> c !in s
  {
    if s == [] then None
    else if s[|s| - 1] == c then Some(|s| - 1)
    else
      var init := s[..|s| - 1];
      match LastIndex(init, c)
      case None => assert s == init + [s[|s| - 1]]; None
      case Some(i) => Some(i)
  }

  /** What the search for `(\{.*\})` (with `.` matching newlines) captures: from the
      first `{` to the last `}`, when the last `}` comes after the first `{`. */
  function Candidate(text: string): Option<string> {
    match FirstIndex(text, '{')
    case None => None
    case Some(i) =>
      match LastIndex(text, '}')
      case None => None
      case Some(j) => if i < j then Some(text[i..j + 1]) else None
  }

  /** The candidate is the span of the text from its first `{` to its last `}`, and
      there is one exactly when some `{` comes before some `}`. */
  lemma CandidateSpan(text: string)
    ensures Candidate(text).Some? <==>
      exists i, j :: 0 <= i < j < |text| && text[i] == '{' && text[j] == '}'
    ensures Candidate(text).Some? ==>
      exists i, j :: 0 <= i < j < |text| && Candidate(text).value == text[i..j + 1]
        && text[i] == '{' && (forall k :: 0 <= k < i ==> text[k] != '{')
        && text[j] == '}' && (forall k :: j < k < |text| ==> text[k] != '}')
  {
    forall a, b | 0 <= a < b < |text| && text[a] == '{' && text[b] == '}'
      ensures Candidate(text).Some?
    {
      CandidateAround(text, a, b);
    }
    if Candidate(text).Some? {
      var i, j := FirstIndex(text, '{').value, LastIndex(text, '}').value;
      assert Candidate(text).value == text[i..j + 1];
    }
  }

  /** A `{` before a `}` lies inside the candidate. */
  lemma CandidateAround(text: string, a: nat, b: nat)
    requires a < b < |text| && text[a] == '{' && text[b] == '}'
    ensures FirstIndex(text, '{').Some? && FirstIndex(text, '{').value <= a
    ensures LastIndex(text, '}').Some? && LastIndex(text, '}').value >= b
    ensures Candidate(text).Some?
  {
    assert text[a] in text && text[b] in text;
  }

  // ---------------------------------------------------------------------------
  // the repairs

  /** A closing bracket, `[}\]]`. */
  predicate IsClosing(c: char) { c == '}' || c == ']' }

  /** The substitution of `,\s*([}\]])` by the bracket: scanning left to right, a
      comma followed by whitespace and then `}` or `]` is replaced by that bracket,
      and the scan resumes after the bracket. `ws` is what `\s` accepts; in a text
      pattern that is what `str.isspace` accepts, `Whitespace`. */
  function DropTrailingCommas(s: string, ws: set<char>): (r: string)
    ensures |r| <= |s|
    decreases |s|
  {
    if s == [] then []
    else
      match TrailingComma(s, ws)
      case Some(k) => [s[k]] + DropTrailingCommas(s[k + 1..], ws)
      case None => [s[0]] + DropTrailingCommas(s[1..], ws)
  }

  /** Where `s` starts with a comma, whitespace and a closing bracket: the position
      of the bracket. */
  function TrailingComma(s: string, ws: set<char>): (r: Option<nat>)
    ensures r.Some? ==> 1 <= r.value < |s| && r.value == 1 + LeadIn(s[1..], ws)
  {
    if s != [] && s[0] == ',' then
      var k := 1 + LeadIn(s[1..], ws);
      if k < |s| && IsClosing(s[k]) then Some(k) else None
    else None
  }

  /** The first repair: every `'` becomes `"`, then trailing commas go. */
  function FirstRepair(candidate: string): string {
    DropTrailingCommas(ReplaceChar(candidate, '\'', '"'), Whitespace)
  }

  /** The second repair: when `{` outnumbers `}`, append the missing `}`; otherwise
      there is nothing to try. */
  function BraceRepair(s: string): Option<string> {
    var opening, closing := CountChar(s, '{'), CountChar(s, '}');
    if opening > closing then Some(s + Repeat('}', opening - closing)) else None
  }

  /** Dropping trailing commas removes only commas and whitespace: every other
      character occurs as often as before. */
  lemma {:induction false} DropKeepsOthers(s: string, ws: set<char>, c: char)
    requires c != ',' && c !in ws
    ensures multiset(DropTrailingCommas(s, ws))[c] == multiset(s)[c]
    decreases |s|
  {
    if s != [] {
      match TrailingComma(s, ws)
      case Some(k) =>
        var tail := DropTrailingCommas(s[k + 1..], ws);
        assert multiset([s[k]] + tail) == multiset([s[k]]) + multiset(tail);
        DropKeepsOthers(s[k + 1..], ws, c);
        RunWithout(s, ws, k, c);
        CountAroundRun(s, k, c);
      case None =>
        var tail := DropTrailingCommas(s[1..], ws);
        assert multiset([s[0]] + tail) == multiset([s[0]]) + multiset(tail);
        DropKeepsOthers(s[1..], ws, c);
        assert s == [s[0]] + s[1..];
    }
  }

  /** A comma and a run without `c` before position `k` do not count towards `c`. */
  lemma CountAroundRun(s: string, k: nat, c: char)
    requires 1 <= k < |s| && s[0] == ',' && c != ',' && c !in multiset(s[1..k])
    ensures multiset(s)[c] == multiset([s[k]])[c] + multiset(s[k + 1..])[c]
  {
    assert s == [s[0]] + s[1..k] + [s[k]] + s[k + 1..];
  }

  /** A character outside `ws` does not occur in the run of `ws` after the first
      character. */
  lemma RunWithout(s: string, ws: set<char>, k: nat, c: char)
    requires 1 <= k <= |s| && k == 1 + LeadIn(s[1..], ws)
    requires c !in ws
    ensures c !in multiset(s[1..k])
  {
    LeadInSpan(s[1..], ws);
    forall m | 1 <= m < k ensures s[m] != c {
      assert s[m] == s[1..][m - 1];
    }
    assert c !in s[1..k];
  }

  /** Text without commas is left as it is. */
  lemma {:induction false} DropWithoutComma(s: string, ws: set<char>)
    requires ',' !in s
    ensures DropTrailingCommas(s, ws) == s
    decreases |s|
  {
    if s != [] {
      DropWithoutComma(s[1..], ws);
      assert s == [s[0]] + s[1..];
    }
  }

  /** The comma at `k` of `u` is not a trailing one: after its run of whitespace comes,
      still inside `u`, a character that is not a closing bracket. */
  predicate KeptComma(u: string, k: nat, ws: set<char>)
    requires k < |u|
  {
    var j := k + 1 + LeadIn(u[k + 1..], ws);
    j < |u| && !IsClosing(u[j])
  }

  /** No comma of `u` is a trailing one, whatever text follows `u`. */
  predicate NoTrailingComma(u: string, ws: set<char>) {
    forall k :: 0 <= k < |u| && u[k] == ',' ==> KeptComma(u, k, ws)
  }

  /** A text none of whose commas is trailing does not start a trailing comma, whatever
      text follows it. */
  lemma KeptHeadAppend(u: string, t: string, ws: set<char>)
    requires u != [] && NoTrailingComma(u, ws)
    ensures TrailingComma(u + t, ws).None?
  {
    var s := u + t;
    assert s[0] == u[0];
    if u[0] == ',' {
      assert KeptComma(u, 0, ws);
      assert s[1..] == u[1..] + t;
      LeadInAppend(u[1..], t, ws);
      var j := 1 + LeadIn(u[1..], ws);
      assert s[j] == u[j];
    }
  }

  /** Dropping the first character keeps every comma that was not trailing so. */
  lemma NoTrailingTail(u: string, ws: set<char>)
    requires u != [] && NoTrailingComma(u, ws)
    ensures NoTrailingComma(u[1..], ws)
  {
    forall k | 0 <= k < |u[1..]| && u[1..][k] == ','
      ensures KeptComma(u[1..], k, ws)
    {
      assert u[k + 1] == ',';
      assert KeptComma(u, k + 1, ws);
      assert u[1..][k + 1..] == u[k + 2..];
    }
  }

  /** A text whose commas are none of them trailing comes through the substitution
      unchanged, commas included, and the scan goes on after it as if it began there. */
  lemma {:induction false} DropKeepsPlainPrefix(u: string, t: string, ws: set<char>)
    requires NoTrailingComma(u, ws)
    ensures DropTrailingCommas(u + t, ws) == u + DropTrailingCommas(t, ws)
    decreases |u|
  {
    if u == [] {
      assert u + t == t;
    } else {
      var s := u + t;
      assert s[0] == u[0] && s[1..] == u[1..] + t;
      KeptHeadAppend(u, t, ws);
      assert DropTrailingCommas(s, ws) == [u[0]] + DropTrailingCommas(u[1..] + t, ws);
      NoTrailingTail(u, ws);
      DropKeepsPlainPrefix(u[1..], t, ws);
      HeadAppend(u, DropTrailingCommas(t, ws));
    }
  }

  lemma HeadAppend<T>(u: seq<T>, x: seq<T>)
    requires u != []
    ensures u + x == [u[0]] + (u[1..] + x)
  {
    assert u == [u[0]] + u[1..];
  }

  /** A text that starts with a trailing comma loses it: the comma and the whitespace
      `w` give way to the bracket `b`, and the scan resumes after it. */
  lemma DropLeadingTrailing(w: string, b: char, t: string, ws: set<char>)
    requires forall k :: 0 <= k < |w| ==> w[k] in ws
    requires IsClosing(b) && b !in ws
    ensures DropTrailingCommas([','] + w + [b] + t, ws) == [b] + DropTrailingCommas(t, ws)
  {
    var s := [','] + w + [b] + t;
    var rest := w + [b] + t;
    assert s[1..] == rest;
    LeadInSpan(rest, ws);
    assert rest[|w|] == b;
    assert LeadIn(rest, ws) == |w|;
    assert TrailingComma(s, ws) == Some(|w| + 1);
    assert s[|w| + 2..] == t;
  }

  /** A trailing comma goes: a comma followed only by whitespace `w` before a closing
      bracket `b` is replaced by `b`, when no comma before it is a trailing one; the
      text before it is kept as it is. */
  lemma DropFirstTrailing(u: string, w: string, b: char, t: string, ws: set<char>)
    requires NoTrailingComma(u, ws)
    requires forall k :: 0 <= k < |w| ==> w[k] in ws
    requires IsClosing(b) && b !in ws
    ensures DropTrailingCommas(u + ([','] + w + [b] + t), ws) == u + ([b] + DropTrailingCommas(t, ws))
  {
    DropLeadingTrailing(w, b, t, ws);
    DropKeepsPlainPrefix(u, [','] + w + [b] + t, ws);
  }

  /** The trailing comma of `{"a":1,"b":2,}` goes, after the scan has passed the comma
      that separates the two members and kept it. */
  lemma TrailingAfterKeptComma()
    ensures DropTrailingCommas("{\"a\":1,\"b\":2,}", Whitespace) == "{\"a\":1,\"b\":2}"
  {
    var u := "{\"a\":1,\"b\":2";
    assert '"' !in Whitespace;
    assert u[7..][0] == '"';
    assert LeadIn(u[7..], Whitespace) == 0;
    forall k | 0 <= k < |u| && u[k] == ',' ensures KeptComma(u, k, Whitespace) {
      assert k == 6;
    }
    DropFirstTrailing(u, "", '}', "", Whitespace);
    assert "{\"a\":1,\"b\":2,}" == u + ([','] + "" + ['}'] + "");
    assert u + (['}'] + DropTrailingCommas("", Whitespace)) == "{\"a\":1,\"b\":2}";
  }

  /** The first repair leaves no single quote, and keeps every brace. */
  lemma FirstRepairShape(candidate: string)
    ensures '\'' !in FirstRepair(candidate)
    ensures CountChar(FirstRepair(candidate), '{') == CountChar(candidate, '{')
    ensures CountChar(FirstRepair(candidate), '}') == CountChar(candidate, '}')
  {
    var q := ReplaceChar(candidate, '\'', '"');
    assert '\'' !in q;
    assert '\'' !in Whitespace && '{' !in Whitespace && '}' !in Whitespace;
    DropKeepsOthers(q, Whitespace, '\'');
    DropKeepsOthers(q, Whitespace, '{');
    DropKeepsOthers(q, Whitespace, '}');
    assert CountChar(q, '{') == CountChar(candidate, '{') by { ReplaceCount(candidate, '{'); }
    assert CountChar(q, '}') == CountChar(candidate, '}') by { ReplaceCount(candidate, '}'); }
  }

  /** Replacing `'` by `"` keeps the count of any other character. */
  lemma {:induction false} ReplaceCount(s: string, c: char)
    requires c != '\'' && c != '"'
    ensures CountChar(ReplaceChar(s, '\'', '"'), c) == CountChar(s, c)
    decreases |s|
  {
    if s != [] {
      ReplaceCount(s[1..], c);
      var r := ReplaceChar(s, '\'', '"');
      assert r == [r[0]] + ReplaceChar(s[1..], '\'', '"');
      assert s == [s[0]] + s[1..];
    }
  }

  /** `c * n` holds `n` copies of `c` and nothing else. */
  lemma {:induction false} RepeatCount(c: char, n: nat, d: char)
    ensures CountChar(Repeat(c, n), d) == if c == d then n else 0
  {
    if n > 0 {
      RepeatCount(c, n - 1, d);
      assert Repeat(c, n) == [c] + Repeat(c, n - 1);
    }
  }

  /** The brace repair applies exactly when `{` outnumbers `}`, keeps the text as its
      prefix, adds only `}`, and leaves the braces balanced. */
  lemma BraceRepairBalances(s: string)
    ensures BraceRepair(s).Some? <==> CountChar(s, '{') > CountChar(s, '}')
    ensures BraceRepair(s).Some? ==>
      var t := BraceRepair(s).value;
      |t| == |s| + CountChar(s, '{') - CountChar(s, '}') && t[..|s|] == s
      && (forall k :: |s| <= k < |t| ==> t[k] == '}')
      && CountChar(t, '{') == CountChar(t, '}')
  {
    var opening, closing := CountChar(s, '{'), CountChar(s, '}');
    if opening > closing {
      var tail := Repeat('}', opening - closing);
      var t := s + tail;
      RepeatCount('}', opening - closing, '{');
      RepeatCount('}', opening - closing, '}');
      assert multiset(t) == multiset(s) + multiset(tail);
      assert t[..|s|] == s;
      assert forall k :: |s| <= k < |t| ==> t[k] == tail[k - |s|];
    }
  }

  // ---------------------------------------------------------------------------
  // extract_json_from_text

  /** `extract_json_from_text`: parse the candidate; failing that, its first repair;
      failing that, and when braces are missing, the brace repair. Without a
      candidate the whole text is parsed. `None` is the exception it lets out. */
  function ExtractJson(text: string, loads: Parser): Option<Json> {
    match Candidate(text)
    case None => loads(text)
    case Some(c) =>
      if loads(c).Some? then loads(c)
      else
        var s := FirstRepair(c);
        if loads(s).Some? then loads(s)
        else
          match BraceRepair(s)
          case Some(t) => loads(t)
          case None => None
  }

  /** The texts handed to the parser, in order. */
  function Attempts(text: string): (r: seq<string>)
    ensures 1 <= |r| <= 3
  {
    match Candidate(text)
    case None => [text]
    case Some(c) =>
      var s := FirstRepair(c);
      [c, s] + (match BraceRepair(s) case Some(t) => [t] case None => [])
  }

  /** The first text of `xs` the parser accepts, and what it makes of it. */
  function FirstParsed(xs: seq<string>, loads: Parser): Option<Json> {
    if xs == [] then None
    else if loads(xs[0]).Some? then loads(xs[0])
    else FirstParsed(xs[1..], loads)
  }

  /** `FirstParsed` fails only when every text is rejected, and otherwise returns
      what the parser makes of the first accepted one. */
  lemma {:induction false} FirstParsedIsFirst(xs: seq<string>, loads: Parser)
    ensures FirstParsed(xs, loads).Some? <==> exists k :: 0 <= k < |xs| && loads(xs[k]).Some?
    ensures FirstParsed(xs, loads).Some? ==>
      exists k :: 0 <= k < |xs| && FirstParsed(xs, loads) == loads(xs[k])
        && forall m :: 0 <= m < k ==> loads(xs[m]).None?
  {
    if xs != [] && loads(xs[0]).None? {
      FirstParsedIsFirst(xs[1..], loads);
      forall k | 1 <= k < |xs| ensures xs[k] == xs[1..][k - 1] { }
      if FirstParsed(xs, loads).Some? {
        var k :| 0 <= k < |xs[1..]| && FirstParsed(xs[1..], loads) == loads(xs[1..][k])
          && forall m :: 0 <= m < k ==> loads(xs[1..][m]).None?;
        assert FirstParsed(xs, loads) == loads(xs[k + 1]);
        forall m | 0 <= m < k + 1 ensures loads(xs[m]).None? {
          if m > 0 { assert xs[m] == xs[1..][m - 1]; }
        }
      }
    }
  }

  /** The extraction tries the attempts in order and keeps the first success: it
      fails only when the parser rejects every one of them. */
  lemma ExtractJsonTriesInOrder(text: string, loads: Parser)
    ensures ExtractJson(text, loads) == FirstParsed(Attempts(text), loads)
  {
    match Candidate(text)
    case None =>
      assert Attempts(text) == [text];
      assert [text][1..] == [];
    case Some(c) =>
      var s := FirstRepair(c);
      TriesInOrder(c, s, match BraceRepair(s) case Some(t) => [t] case None => [], loads);
  }

  lemma TriesInOrder(c: string, s: string, more: seq<string>, loads: Parser)
    requires |more| <= 1
    ensures FirstParsed([c, s] + more, loads)
      == if loads(c).Some? then loads(c)
         else if loads(s).Some? then loads(s)
         else if more == [] then None else loads(more[0])
  {
    var xs := [c, s] + more;
    assert xs[1..] == [s] + more;
    assert xs[1..][1..] == more;
    if more != [] {
      assert more[1..] == [];
      assert FirstParsed(more, loads) == loads(more[0]);
    }
    assert FirstParsed(xs[1..], loads)
      == if loads(s).Some? then loads(s) else FirstParsed(more, loads);
  }

  /** After the first repair, the brace repair applies exactly when the candidate
      itself has more `{` than `}`, and appends exactly the missing `}`. */
  lemma BraceRepairAfterFirst(candidate: string)
    ensures var opening, closing := CountChar(candidate, '{'), CountChar(candidate, '}');
      BraceRepair(FirstRepair(candidate))
        == if opening > closing then Some(FirstRepair(candidate) + Repeat('}', opening - closing))
           else None
  {
    var s := FirstRepair(candidate);
    FirstRepairShape(candidate);
    assert CountChar(s, '{') == CountChar(candidate, '{') && CountChar(s, '}') == CountChar(candidate, '}');
  }

  // ---------------------------------------------------------------------------
  // the assistant's text in the answer

  /** A string that is not blank, as the only piece; nothing otherwise. */
  function NonBlank(v: Json): (r: seq<string>)
    ensures |r| <= 1 && forall k :: 0 <= k < |r| ==> Strip(r[k]) != ""
  {
    match v
    case JString(s) => if Strip(s) != "" then [s] else []
    case _ => []
  }

  /** The `text` field of a content part: a non-blank string, given directly or as
      the `value` of an object. */
  function TextField(v: Json): seq<string> {
    match v
    case JObject(t) => NonBlank(Get(t, "value"))
    case _ => NonBlank(v)
  }

  /** What one element of an item's `content` list contributes: a string as it is,
      or the text of an object of type `output_text` or with a `text` field. */
  function PartPieces(c: Json): seq<string> {
    match c
    case JString(s) => [s]
    case JObject(m) =>
      if Get(m, "type") == JString("output_text") then TextField(Get(m, "text"))
      else if "text" in m then TextField(m["text"])
      else []
    case _ => []
  }

  /** The pieces of a `content` list, in order. */
  function ContentPieces(cs: seq<Json>): seq<string> {
    if cs == [] then [] else ContentPieces(cs[..|cs| - 1]) + PartPieces(cs[|cs| - 1])
  }

  /** What one element of the `output` list contributes: a string as it is, or the
      pieces of an object's `content` list. */
  function ItemPieces(item: Json): seq<string> {
    match item
    case JString(s) => [s]
    case JObject(m) =>
      (match Get(m, "content") case JArray(cs) => ContentPieces(cs) case _ => [])
    case _ => []
  }

  /** The pieces of the `output` list, in order. */
  function OutputPieces(items: seq<Json>): seq<string> {
    if items == [] then [] else OutputPieces(items[..|items| - 1]) + ItemPieces(items[|items| - 1])
  }

  /** The type check on a content part changes nothing: an `output_text` part and any
      other part with a `text` field contribute the same pieces, and a part without
      one contributes none. */
  lemma PartTypeIrrelevant(m: map<string, Json>)
    ensures PartPieces(JObject(m)) == TextField(Get(m, "text"))
  {
  }

  /** The first fallback, on the `output` field: a string as it is, or the pieces of
      a list joined by newlines and stripped when there are any; otherwise `t`. */
  function FromOutput(output: Json, t: Json): Json {
    match output
    case JString(_) => output
    case JArray(items) =>
      var p := OutputPieces(items);
      if p != [] then JString(Strip(Join(p, "\n"))) else t
    case _ => t
  }

  /** `choices[0].message.content` when `choices` is a non-empty list whose first
      element is an object with a `message` object whose `content` is a string. */
  function ChoicesContent(d: map<string, Json>): Option<string> {
    match Get(d, "choices")
    case JArray(cs) =>
      if cs != [] && cs[0].JObject? && Get(cs[0].fields, "message").JObject?
         && Get(Get(cs[0].fields, "message").fields, "content").JString?
      then Some(Get(Get(cs[0].fields, "message").fields, "content").s)
      else None
    case _ => None
  }

  /** The legacy fallback: the string `choices[0].message.content`; otherwise `t`. */
  function FromChoices(d: map<string, Json>, t: Json): Json {
    match ChoicesContent(d)
    case Some(c) => JString(c)
    case None => t
  }

  /** The `output` fallback gives no text: there is no `output`, or it is an empty
      string, or a list whose pieces joined by newlines strip to nothing, or any other
      value. */
  predicate OutputGivesNothing(d: map<string, Json>) {
    "output" !in d ||
    match d["output"]
    case JString(s) => s == ""
    case JArray(items) => Strip(Join(OutputPieces(items), "\n")) == ""
    case _ => true
  }

  /** The text `enrich_company` goes on with: `output_text`, else the `output`
      fallback, else the legacy fallback, each tried only while the text so far is
      falsy. `None` when the answer is not an object or all of them are falsy, where
      the source raises `SystemExit`. */
  function ResponseText(data: Json): (r: Option<Json>)
    ensures r.Some? ==> Truthy(r.value)
  {
    match data
    case JObject(d) =>
      var t0 := Get(d, "output_text");
      var t1 := if !Truthy(t0) && "output" in d then FromOutput(d["output"], t0) else t0;
      var t2 := if !Truthy(t1) then FromChoices(d, t1) else t1;
      if Truthy(t2) then Some(t2) else None
    case _ => None
  }

  /** The order of precedence: a truthy `output_text` wins; otherwise a non-empty
      string `output`; otherwise the joined pieces of an `output` list when they are
      not blank; otherwise a non-empty `choices[0].message.content`; otherwise there
      is no text, as there is none for an answer that is not an object. */
  lemma ResponseTextPrecedence(data: Json)
    ensures !data.JObject? ==> ResponseText(data).None?
    ensures data.JObject? && Truthy(Get(data.fields, "output_text")) ==>
      ResponseText(data) == Some(Get(data.fields, "output_text"))
    ensures (data.JObject? && !Truthy(Get(data.fields, "output_text"))
             && Get(data.fields, "output").JString? && Get(data.fields, "output").s != "") ==>
      ResponseText(data) == Some(Get(data.fields, "output"))
    ensures (data.JObject? && !Truthy(Get(data.fields, "output_text"))
             && Get(data.fields, "output").JArray?
             && OutputPieces(Get(data.fields, "output").items) != []
             && Strip(Join(OutputPieces(Get(data.fields, "output").items), "\n")) != "") ==>
      ResponseText(data)
        == Some(JString(Strip(Join(OutputPieces(Get(data.fields, "output").items), "\n"))))
    ensures (data.JObject? && !Truthy(Get(data.fields, "output_text")) && OutputGivesNothing(data.fields)
             && ChoicesContent(data.fields).Some? && ChoicesContent(data.fields).value != "") ==>
      ResponseText(data) == Some(JString(ChoicesContent(data.fields).value))
    ensures (data.JObject? && !Truthy(Get(data.fields, "output_text")) && OutputGivesNothing(data.fields)
             && (ChoicesContent(data.fields).None? || ChoicesContent(data.fields).value == "")) ==>
      ResponseText(data).None?
  {
    if data.JObject? && "output" in data.fields && data.fields["output"].JArray? {
      var p := OutputPieces(data.fields["output"].items);
      if p == [] {
        assert Join(p, "\n") == "";
      }
    }
  }

  lemma ContentPiecesSnoc(cs: seq<Json>, j: nat)
    requires j < |cs|
    ensures ContentPieces(cs[..j + 1]) == ContentPieces(cs[..j]) + PartPieces(cs[j])
  {
    assert cs[..j + 1][..j] == cs[..j];
  }

  lemma OutputPiecesSnoc(items: seq<Json>, i: nat)
    requires i < |items|
    ensures OutputPieces(items[..i + 1]) == OutputPieces(items[..i]) + ItemPieces(items[i])
  {
    assert items[..i + 1][..i] == items[..i];
  }

  /** The loop over the `output` list. */
  method CollectPieces(items: seq<Json>) returns (pieces: seq<string>)
    ensures pieces == OutputPieces(items)
  {
    pieces := [];
    var i := 0;
    while i < |items|
      invariant 0 <= i <= |items|
      invariant pieces == OutputPieces(items[..i])
    {
      OutputPiecesSnoc(items, i);
      var item := items[i];
      if item.JString? {
        pieces := pieces + [item.s];
      } else if item.JObject? {
        var contentList := Get(item.fields, "content");
        if contentList.JArray? {
          var more := CollectContent(contentList.items);
          pieces := pieces + more;
        }
      }
      i := i + 1;
    }
    assert items[..i] == items;
  }

  /** The inner loop, over one item's `content` list. */
  method CollectContent(cs: seq<Json>) returns (pieces: seq<string>)
    ensures pieces == ContentPieces(cs)
  {
    pieces := [];
    var j := 0;
    while j < |cs|
      invariant 0 <= j <= |cs|
      invariant pieces == ContentPieces(cs[..j])
    {
      ContentPiecesSnoc(cs, j);
      var c := cs[j];
      if c.JString? {
        pieces := pieces + [c.s];
      } else if c.JObject? {
        if Get(c.fields, "type") == JString("output_text") {
          pieces := pieces + TextField(Get(c.fields, "text"));
        } else if "text" in c.fields {
          pieces := pieces + TextField(c.fields["text"]);
        }
      }
      j := j + 1;
    }
    assert cs[..j] == cs;
  }

  /** The extraction of the assistant's text, step by step as `enrich_company` does
      it. */
  method ExtractText(data: Json) returns (text: Option<Json>)
    ensures text == ResponseText(data)
  {
    if !data.JObject? {
      return None;
    }
    var d := data.fields;
    var t := Get(d, "output_text");
    if !Truthy(t) && "output" in d {
      var output := d["output"];
      if output.JString? {
        t := output;
      } else if output.JArray? {
        var pieces := CollectPieces(output.items);
        if pieces != [] {
          t := JString(Strip(Join(pieces, "\n")));
        }
      }
    }
    if !Truthy(t) {
      t := FromChoices(d, t);
    }
    text := if Truthy(t) then Some(t) else None;
  }

  // ---------------------------------------------------------------------------
  // schema normalisation

  /** The keys every enriched record ends up with. */
  const SchemaKeys: seq<string> := ["nom", "adresse", "ville", "province", "code_postal",
    "phone_number", "reliability_level", "company_website", "contacts", "notes"]

  /** The value `setdefault` gives a missing key: `[]` for `contacts`, else `None`. */
  function Default(k: string): Json {
    if k == "contacts" then JArray([]) else JNull
  }

  /** `m` after `setdefault` of each of `keys`, in order. */
  function Filled(m: map<string, Json>, keys: seq<string>): map<string, Json> {
    if keys == [] then m
    else
      var f := Filled(m, keys[..|keys| - 1]);
      var k := keys[|keys| - 1];
      if k in f then f else f[k := Default(k)]
  }

  /** Filling adds exactly the missing keys, with their defaults, and changes no
      value that was there. */
  lemma {:induction false} FilledShape(m: map<string, Json>, keys: seq<string>)
    ensures Filled(m, keys).Keys == m.Keys + set k | k in keys
    ensures forall k :: k in Filled(m, keys) ==>
      Filled(m, keys)[k] == if k in m then m[k] else Default(k)
  {
    if keys != [] {
      var init := keys[..|keys| - 1];
      FilledShape(m, init);
      assert keys == init + [keys[|keys| - 1]];
    }
  }

  /** The normalised record: every schema key present, and a `None` `contacts`
      replaced by `[]`. */
  function Normalised(m: map<string, Json>): map<string, Json> {
    var f := Filled(m, SchemaKeys);
    if Get(f, "contacts") == JNull then f["contacts" := JArray([])] else f
  }

  /** After normalisation every schema key is present and nothing else is added;
      values already there are kept, except a `None` `contacts` which becomes `[]`;
      a missing `contacts` becomes `[]` and any other missing key `None`. */
  lemma NormalisedShape(m: map<string, Json>)
    ensures Normalised(m).Keys == m.Keys + set k | k in SchemaKeys
    ensures forall k :: k in m && k != "contacts" ==> Normalised(m)[k] == m[k]
    ensures forall k :: k in SchemaKeys && k !in m && k != "contacts" ==> Normalised(m)[k] == JNull
    ensures Normalised(m)["contacts"]
      == if "contacts" in m && m["contacts"] != JNull then m["contacts"] else JArray([])
  {
    FilledShape(m, SchemaKeys);
    assert "contacts" in SchemaKeys;
  }

  /** The `setdefault` loop and the `contacts` check. */
  method NormaliseResult(result: map<string, Json>) returns (r: map<string, Json>)
    ensures r == Normalised(result)
  {
    r := result;
    var i := 0;
    while i < |SchemaKeys|
      invariant 0 <= i <= |SchemaKeys|
      invariant r == Filled(result, SchemaKeys[..i])
    {
      var k := SchemaKeys[i];
      assert SchemaKeys[..i + 1][..i] == SchemaKeys[..i];
      if k !in r {
        r := r[k := Default(k)];
      }
      i := i + 1;
    }
    assert SchemaKeys[..i] == SchemaKeys;
    if Get(r, "contacts") == JNull {
      r := r["contacts" := JArray([])];
    }
  }

  // ---------------------------------------------------------------------------
  // enrich_company

  /** A company as handed to `enrich_company`: its text fields by name. */
  type Company = map<string, string>

  /** `company.get(k, "")`. */
  function Field(company: Company, k: string): string {
    if k in company then company[k] else ""
  }

  /** The outcome of `enrich_company`: the normalised record; an exception that a
      caller's `except Exception` catches (`Failed`); or the `SystemExit` that ends
      the program (`Fatal`). */
  datatype Enrichment = Enriched(record: map<string, Json>) | Failed | Fatal

  /** The record made up when the answer cannot be parsed; `reason` is the text of the
      parse error. */
  function Fallback(company: Company, reason: string): map<string, Json> {
    map k | k in FallbackKeys :: FallbackValue(company, reason, k)
  }

  /** The keys of the fallback record: the schema keys and `phone_number_source`. */
  const FallbackKeys: set<string> := {"nom", "adresse", "ville", "province", "code_postal",
    "phone_number", "phone_number_source", "reliability_level", "company_website",
    "contacts", "notes"}

  /** The company's own five fields, copied into the fallback record. */
  const CompanyKeys: set<string> := {"nom", "adresse", "ville", "province", "code_postal"}

  function FallbackValue(company: Company, reason: string, k: string): Json {
    if k == "reliability_level" then JInt(0)
    else if k == "contacts" then JArray([])
    else if k == "notes" then
      JString("JSON parsing failed due to truncated response. Original error: " + reason)
    else if k in CompanyKeys then JString(Field(company, k))
    else JString("")
  }

  /** `enrich_company` after the HTTP call: `answer` is the decoded answer, `None`
      when the request or its decoding failed. A text that is not a string makes
      the regular-expression search raise, which the fallback catches like a parse
      error; a parsed value that is not an object makes the normalisation raise. */
  function EnrichCompany(company: Company, answer: Option<Json>, loads: Parser, reason: string): Enrichment {
    match answer
    case None => Fatal
    case Some(data) =>
      match ResponseText(data)
      case None => Fatal
      case Some(text) =>
        var parsed := if text.JString? then ExtractJson(text.s, loads) else None;
        var result := if parsed.Some? then parsed.value else JObject(Fallback(company, reason));
        match result
        case JObject(m) => Enriched(Normalised(m))
        case _ => Failed
  }

  /** The fallback record is already normalised. */
  lemma FallbackNormalised(company: Company, reason: string)
    ensures Normalised(Fallback(company, reason)) == Fallback(company, reason)
  {
    var f := Fallback(company, reason);
    NormalisedShape(f);
    assert forall k :: k in SchemaKeys ==> k in f;
    assert Normalised(f).Keys == f.Keys;
  }

  /** A record with every schema key and a `contacts` that is not `None`. */
  predicate HasSchema(record: map<string, Json>) {
    (forall k :: k in SchemaKeys ==> k in record)
    && "contacts" in record && record["contacts"] != JNull
  }

  /** Normalisation gives every record the schema. */
  lemma NormalisedHasSchema(m: map<string, Json>)
    ensures HasSchema(Normalised(m))
  {
    NormalisedShape(m);
    assert "contacts" in SchemaKeys;
  }

  /** `enrich_company` ends the program exactly when there is no answer or no text in
      it, and every record it returns has the schema. */
  lemma EnrichOutcomes(company: Company, answer: Option<Json>, loads: Parser, reason: string)
    ensures EnrichCompany(company, answer, loads, reason) == Fatal
      <==> answer.None? || ResponseText(answer.value).None?
    ensures EnrichCompany(company, answer, loads, reason).Enriched? ==>
      HasSchema(EnrichCompany(company, answer, loads, reason).record)
  {
    match EnrichCompany(company, answer, loads, reason)
    case Enriched(m) =>
      var text := ResponseText(answer.value).value;
      var parsed := if text.JString? then ExtractJson(text.s, loads) else None;
      var result := if parsed.Some? then parsed.value else JObject(Fallback(company, reason));
      NormalisedHasSchema(result.fields);
    case _ =>
  }

  /** Once there is a text: a parsed object is normalised; a text that cannot be
      parsed gives the fallback record, which carries the company's own fields and
      reliability 0; a parsed value that is not an object raises. */
  lemma EnrichFromText(company: Company, answer: Option<Json>, loads: Parser, reason: string, text: Json)
    requires answer.Some? && ResponseText(answer.value) == Some(text)
    ensures var parsed := if text.JString? then ExtractJson(text.s, loads) else None;
      var r := EnrichCompany(company, answer, loads, reason);
      (parsed.None? ==> r == Enriched(Fallback(company, reason)))
      && (parsed.Some? && parsed.value.JObject? ==> r == Enriched(Normalised(parsed.value.fields)))
      && (parsed.Some? && !parsed.value.JObject? ==> r == Failed)
  {
    FallbackNormalised(company, reason);
  }

  // ---------------------------------------------------------------------------
  // load_companies_from_csv

  /** One CSV row: the cells by header name; `None` where the row ran short of
      columns. */
  type Row = map<string, Option<string>>

  /** `row.get(col, "")`. */
  function Cell(row: Row, col: string): Option<string> {
    if col in row then row[col] else Some("")
  }

  /** A company of the input file, under the names `enrich_company` expects. */
  datatype CsvCompany = CsvCompany(nom: string, adresse: string, ville: string,
                                   province: string, codePostal: string, droitCirculation: string)

  /** The `droit_circulation` entry of the JSON object in the `other fields` cell,
      stripped; "" when the cell is blank, does not parse, is not an object, or the
      entry is missing or not a string. */
  function DroitCirculation(other: string, loads: Parser): (r: string)
    ensures Bare(r)
  {
    var o := Strip(other);
    if o == "" then ""
    else
      match loads(o)
      case Some(JObject(m)) =>
        if "droit_circulation" in m && m["droit_circulation"].JString?
        then StripIsBare(m["droit_circulation"].s); Strip(m["droit_circulation"].s)
        else ""
      case _ => ""
  }

  /** The company of one row: its cells stripped; `None` where a cell it reads is
      missing, since `strip` of `None` raises. */
  function RowCompany(row: Row, loads: Parser): Option<CsvCompany> {
    var name, address, city, state, postal, other :=
      Cell(row, "company"), Cell(row, "address"), Cell(row, "city"),
      Cell(row, "state"), Cell(row, "postal_code"), Cell(row, "other fields");
    if name.None? || address.None? || city.None? || state.None? || postal.None? || other.None?
    then None
    else Some(CsvCompany(Strip(name.value), Strip(address.value), Strip(city.value),
                         Strip(state.value), Strip(postal.value),
                         DroitCirculation(other.value, loads)))
  }

  /** The companies of `rows`, in order: empty rows skipped, companies without a name
      dropped; `None` once a row raises. */
  function LoadRows(rows: seq<Row>, loads: Parser): Option<seq<CsvCompany>> {
    if rows == [] then Some([])
    else
      match LoadRows(rows[..|rows| - 1], loads)
      case None => None
      case Some(cs) =>
        var row := rows[|rows| - 1];
        if row == map[] then Some(cs)
        else
          match RowCompany(row, loads)
          case None => None
          case Some(c) => Some(if c.nom != "" then cs + [c] else cs)
  }

  /** `load_companies_from_csv`: `file` is the rows read, `None` when the file cannot
      be read; any exception gives the empty list. */
  function LoadCompanies(file: Option<seq<Row>>, loads: Parser): seq<CsvCompany> {
    match file
    case None => []
    case Some(rows) => LoadRows(rows, loads).GetOr([])
  }

  /** A company read from the file has a name, and every field is stripped. */
  predicate WellRead(c: CsvCompany) {
    c.nom != "" && Bare(c.nom) && Bare(c.adresse) && Bare(c.ville) && Bare(c.province)
    && Bare(c.codePostal) && Bare(c.droitCirculation)
  }

  /** A row raises exactly when one of the six cells it reads is `None` (a short row);
      otherwise `company`, `address`, `city`, `state` and `postal_code` become `nom`,
      `adresse`, `ville`, `province` and `code_postal`, each stripped, a missing column
      read as `""`. */
  lemma RowCompanyStripped(row: Row, loads: Parser)
    ensures RowCompany(row, loads).None? <==>
      Cell(row, "company").None? || Cell(row, "address").None? || Cell(row, "city").None?
      || Cell(row, "state").None? || Cell(row, "postal_code").None? || Cell(row, "other fields").None?
    ensures RowCompany(row, loads).Some? ==>
      var c := RowCompany(row, loads).value;
      && c.nom == Strip(Cell(row, "company").value) && c.adresse == Strip(Cell(row, "address").value)
      && c.ville == Strip(Cell(row, "city").value) && c.province == Strip(Cell(row, "state").value)
      && c.codePostal == Strip(Cell(row, "postal_code").value)
      && c.droitCirculation == DroitCirculation(Cell(row, "other fields").value, loads)
      && Bare(c.nom) && Bare(c.adresse) && Bare(c.ville) && Bare(c.province) && Bare(c.codePostal)
    ensures forall col :: col !in row ==> Cell(row, col) == Some("")
  {
    if RowCompany(row, loads).Some? {
      StripIsBare(Cell(row, "company").value);
      StripIsBare(Cell(row, "address").value);
      StripIsBare(Cell(row, "city").value);
      StripIsBare(Cell(row, "state").value);
      StripIsBare(Cell(row, "postal_code").value);
    }
  }

  /** Every company loaded has a name and stripped fields. */
  lemma {:induction false} LoadRowsWellRead(rows: seq<Row>, loads: Parser)
    ensures LoadRows(rows, loads).Some? ==>
      forall k :: 0 <= k < |LoadRows(rows, loads).value| ==> WellRead(LoadRows(rows, loads).value[k])
  {
    if rows != [] {
      var init := rows[..|rows| - 1];
      LoadRowsWellRead(init, loads);
      var row := rows[|rows| - 1];
      if LoadRows(init, loads).Some? && row != map[] && RowCompany(row, loads).Some? {
        RowCompanyStripped(row, loads);
      }
    }
  }

  /** Once a row raises, no later row brings the list back: the whole load fails. */
  lemma {:induction false} LoadRowsFailureSticks(rows: seq<Row>, i: nat, loads: Parser)
    requires i <= |rows| && LoadRows(rows[..i], loads).None?
    ensures LoadRows(rows, loads).None?
    decreases |rows| - i
  {
    if i < |rows| {
      assert rows[..i + 1][..i] == rows[..i];
      LoadRowsFailureSticks(rows, i + 1, loads);
    } else {
      assert rows[..i] == rows;
    }
  }

  /** A non-empty row that runs short of a column it reads loses the whole file. */
  lemma ShortRowLosesAll(rows: seq<Row>, k: nat, loads: Parser)
    requires k < |rows| && rows[k] != map[] && RowCompany(rows[k], loads).None?
    ensures LoadCompanies(Some(rows), loads) == []
  {
    assert rows[..k + 1][..k] == rows[..k];
    assert rows[..k + 1][k] == rows[k];
    LoadRowsFailureSticks(rows, k + 1, loads);
  }

  /** When the load succeeds, every non-empty row whose company has a name is in it. */
  lemma {:induction false} LoadRowsKeeps(rows: seq<Row>, k: nat, loads: Parser)
    requires k < |rows| && rows[k] != map[] && LoadRows(rows, loads).Some?
    ensures RowCompany(rows[k], loads).Some?
    ensures RowCompany(rows[k], loads).value.nom != "" ==>
      RowCompany(rows[k], loads).value in LoadRows(rows, loads).value
  {
    var init := rows[..|rows| - 1];
    if k < |rows| - 1 {
      assert init[k] == rows[k];
      LoadRowsKeeps(init, k, loads);
    }
  }

  /** The row loop of `load_companies_from_csv`. */
  method LoadCompaniesFromCsv(file: Option<seq<Row>>, loads: Parser) returns (companies: seq<CsvCompany>)
    ensures companies == LoadCompanies(file, loads)
  {
    companies := [];
    if file.None? {
      return;
    }
    var rows := file.value;
    var i := 0;
    while i < |rows|
      invariant 0 <= i <= |rows|
      invariant LoadRows(rows[..i], loads) == Some(companies)
    {
      assert rows[..i + 1][..i] == rows[..i];
      var row := rows[i];
      if row != map[] {
        var company := RowCompany(row, loads);
        if company.None? {
          LoadRowsFailureSticks(rows, i + 1, loads);
          return [];
        }
        if company.value.nom != "" {
          companies := companies + [company.value];
        }
      }
      i := i + 1;
    }
    assert rows[..i] == rows;
  }

  // ---------------------------------------------------------------------------
  // process_csv_file

  /** `companies[:max_companies]` when `max_companies` is given and positive. */
  function Limit(cs: seq<CsvCompany>, maxCompanies: Option<int>): seq<CsvCompany> {
    if maxCompanies.Some? && 0 < maxCompanies.value < |cs| then cs[..maxCompanies.value] else cs
  }

  /** The limit keeps a prefix: the first `max_companies` companies when it is
      positive, all of them otherwise. */
  lemma LimitIsPrefix(cs: seq<CsvCompany>, maxCompanies: Option<int>)
    ensures var r := Limit(cs, maxCompanies);
      r == cs[..|r|]
      && (maxCompanies.Some? && maxCompanies.value > 0 ==>
            |r| == if maxCompanies.value < |cs| then maxCompanies.value else |cs|)
      && (maxCompanies.None? || maxCompanies.value <= 0 ==> r == cs)
  {
  }

  /** `existing.get(k, "")` as text; `None` where the value is not a string and
      `strip` raises. */
  function ExistingText(e: map<string, Json>, k: string): Option<string> {
    if k !in e then Some("")
    else match e[k] case JString(t) => Some(t) case _ => None
  }

  /** Python's `str.lower`, which maps every Unicode capital (`É` to `é` among them);
      abstract, like the parser. */
  type CaseMap = string -> string

  /** `a.strip().lower() == b.strip().lower()`. */
  predicate SameText(a: string, b: string, lower: CaseMap) {
    lower(Strip(a)) == lower(Strip(b))
  }

  /** Whether an earlier result is this company: same name, then same address, each
      compared stripped and lower-cased. `None` where the comparison raises: the
      result is not an object, or a field it reads is not a string. */
  function Matches(e: Json, c: CsvCompany, lower: CaseMap): Option<bool> {
    match e
    case JObject(m) =>
      (match ExistingText(m, "nom")
       case None => None
       case Some(n) =>
         if !SameText(n, c.nom, lower) then Some(false)
         else
           match ExistingText(m, "adresse")
           case None => None
           case Some(a) => Some(SameText(a, c.adresse, lower)))
    case _ => None
  }

  /** The scan of the results so far, stopping at the first match. */
  function AlreadyDone(results: seq<Json>, c: CsvCompany, lower: CaseMap): Option<bool> {
    if results == [] then Some(false)
    else
      match Matches(results[0], c, lower)
      case None => None
      case Some(true) => Some(true)
      case Some(false) => AlreadyDone(results[1..], c, lower)
  }

  /** Every result before position `k` is compared without raising and differs. */
  predicate ClearBefore(results: seq<Json>, c: CsvCompany, lower: CaseMap, k: nat)
    requires k <= |results|
  {
    forall m :: 0 <= m < k ==> Matches(results[m], c, lower) == Some(false)
  }

  /** The scan passes over results that differ from the company. */
  lemma {:induction false} AlreadyDoneSkips(results: seq<Json>, c: CsvCompany, lower: CaseMap, k: nat)
    requires k <= |results| && ClearBefore(results, c, lower, k)
    ensures AlreadyDone(results, c, lower) == AlreadyDone(results[k..], c, lower)
  {
    if k > 0 {
      var rest := results[1..];
      assert ClearBefore(rest, c, lower, k - 1) by {
        forall m | 0 <= m < k - 1 ensures Matches(rest[m], c, lower) == Some(false) {
          assert rest[m] == results[m + 1];
        }
      }
      AlreadyDoneSkips(rest, c, lower, k - 1);
      assert rest[k - 1..] == results[k..];
    }
  }

  /** The scan finds a company exactly when some result matches it and no earlier
      result makes the comparison raise; it finds none exactly when every result
      differs. */
  lemma AlreadyDoneMeans(results: seq<Json>, c: CsvCompany, lower: CaseMap)
    ensures AlreadyDone(results, c, lower) == Some(true) <==>
      exists k :: 0 <= k < |results| && Matches(results[k], c, lower) == Some(true)
        && ClearBefore(results, c, lower, k)
    ensures AlreadyDone(results, c, lower) == Some(false) <==> ClearBefore(results, c, lower, |results|)
  {
    // the first result that does not differ, if any
    var k := 0;
    while k < |results| && Matches(results[k], c, lower) == Some(false)
      invariant k <= |results| && ClearBefore(results, c, lower, k)
    {
      k := k + 1;
    }
    AlreadyDoneSkips(results, c, lower, k);
    if k < |results| {
      assert results[k..][0] == results[k];
      assert AlreadyDone(results, c, lower) == Matches(results[k], c, lower);
    } else {
      assert results[k..] == [];
    }
  }

  /** The inner `for` loop with `break`. */
  method ScanResults(results: seq<Json>, c: CsvCompany, lower: CaseMap) returns (found: Option<bool>)
    ensures found == AlreadyDone(results, c, lower)
  {
    var i := 0;
    while i < |results|
      invariant 0 <= i <= |results|
      invariant AlreadyDone(results, c, lower) == AlreadyDone(results[i..], c, lower)
    {
      assert results[i..][1..] == results[i + 1..];
      var m := Matches(results[i], c, lower);
      if m != Some(false) {
        return m;
      }
      i := i + 1;
    }
    return Some(false);
  }

  /** The gate: a `droit_circulation` that is blank or `oui` in any case. */
  predicate Admitted(c: CsvCompany) {
    var dc := Lower(Strip(c.droitCirculation));
    dc == "" || dc == "oui"
  }

  /** Results are written to the output file every this many processed companies. */
  const SaveEvery: nat := 5

  /** The state of the loop: the results so far, `processed_count`, and the number of
      results each write of the output file held, in order. */
  datatype Progress = Progress(results: seq<Json>, processed: nat, saves: seq<nat>)

  /** How `process_csv_file` ends: with no companies to process; after the loop and
      the final write; or stopped by an exception it does not catch. */
  datatype RunEnd = NothingToDo | Finished(progress: Progress) | Stopped(progress: Progress)

  /** One turn of the loop of `process_csv_file` on company `c`, `enrich` standing for
      `enrich_company`; `None` where the turn raises an exception the loop does not
      catch. */
  function Step(p: Progress, c: CsvCompany, enrich: CsvCompany -> Enrichment, lower: CaseMap): Option<Progress> {
    match AlreadyDone(p.results, c, lower)
    case None => None
    case Some(true) => Some(p)
    case Some(false) =>
      if !Admitted(c) then Some(p)
      else
        match enrich(c)
        case Fatal => None
        case Failed => Some(p.(saves := p.saves + [|p.results|]))
        case Enriched(record) =>
          var results := p.results + [JObject(record)];
          var n := p.processed + 1;
          Some(Progress(results, n, if n % SaveEvery == 0 then p.saves + [|results|] else p.saves))
  }

  /** The loop over the companies left, then the final write. */
  function Run(p: Progress, cs: seq<CsvCompany>, enrich: CsvCompany -> Enrichment, lower: CaseMap): (r: RunEnd)
    ensures !r.NothingToDo?
    decreases |cs|
  {
    if cs == [] then Finished(p.(saves := p.saves + [|p.results|]))
    else
      match Step(p, cs[0], enrich, lower)
      case None => Stopped(p)
      case Some(p') => Run(p', cs[1..], enrich, lower)
  }

  /** `process_csv_file`: `existing` is the list read from the output file, empty when
      there is none or it cannot be read. */
  function ProcessCsv(file: Option<seq<Row>>, loads: Parser, maxCompanies: Option<int>,
                      existing: seq<Json>, enrich: CsvCompany -> Enrichment, lower: CaseMap): RunEnd
  {
    var cs := LoadCompanies(file, loads);
    if cs == [] then NothingToDo
    else Run(Progress(existing, |existing|, []), Limit(cs, maxCompanies), enrich, lower)
  }

  /** Whether the loop appends a record for `c` when the results so far are `results`:
      `c` is not already among them, it passes the gate, and its enrichment succeeds. */
  predicate Picked(results: seq<Json>, c: CsvCompany, enrich: CsvCompany -> Enrichment, lower: CaseMap) {
    AlreadyDone(results, c, lower) == Some(false) && Admitted(c) && enrich(c).Enriched?
  }

  /** Whether the loop stops at `c`: comparing it with the results raises, or it is
      new, passes the gate and its enrichment exits. */
  predicate Halts(results: seq<Json>, c: CsvCompany, enrich: CsvCompany -> Enrichment, lower: CaseMap) {
    AlreadyDone(results, c, lower).None?
    || (AlreadyDone(results, c, lower) == Some(false) && Admitted(c) && enrich(c).Fatal?)
  }

  /** The record enrichment gives for `c` if it is marked, in a list of at most one. */
  function RecordFor(c: CsvCompany, mark: bool, enrich: CsvCompany -> Enrichment): seq<Json> {
    if mark && enrich(c).Enriched? then [JObject(enrich(c).record)] else []
  }

  /** One turn stops exactly when the company `Halts`; otherwise it appends the
      company's record exactly when it is `Picked`, counts it, keeps the earlier
      writes and writes at most once, the whole list: after a failed enrichment, or
      after an appended record that brings the count to a multiple of five. */
  lemma StepMeans(p: Progress, c: CsvCompany, enrich: CsvCompany -> Enrichment, lower: CaseMap)
    ensures Step(p, c, enrich, lower).None? <==> Halts(p.results, c, enrich, lower)
    ensures Step(p, c, enrich, lower).Some? ==>
      var q := Step(p, c, enrich, lower).value;
      q.results == p.results + RecordFor(c, Picked(p.results, c, enrich, lower), enrich)
      && q.processed == p.processed + (|q.results| - |p.results|)
      && |p.saves| <= |q.saves| <= |p.saves| + 1 && q.saves[..|p.saves|] == p.saves
      && (|q.saves| > |p.saves| ==> q.saves[|p.saves|] == |q.results|)
      && (|q.saves| > |p.saves| <==>
            (AlreadyDone(p.results, c, lower) == Some(false) && Admitted(c) && enrich(c).Failed?)
            || (Picked(p.results, c, enrich, lower) && q.processed % SaveEvery == 0))
  {
    if Step(p, c, enrich, lower).Some? {
      assert Step(p, c, enrich, lower).value.saves[..|p.saves|] == p.saves;
    }
  }

  /** The loop only appends: earlier results stay, `processed_count` stays the length
      of the list, earlier writes stay, and no write holds more than the list. A
      finished run writes the whole list last. */
  lemma {:induction false} RunGrows(p: Progress, cs: seq<CsvCompany>, enrich: CsvCompany -> Enrichment, lower: CaseMap)
    requires p.processed == |p.results|
    requires forall k :: 0 <= k < |p.saves| ==> p.saves[k] <= |p.results|
    ensures var q := Run(p, cs, enrich, lower).progress;
      |p.results| <= |q.results| && q.results[..|p.results|] == p.results
      && q.processed == |q.results|
      && |p.saves| <= |q.saves| && q.saves[..|p.saves|] == p.saves
      && (forall k :: 0 <= k < |q.saves| ==> q.saves[k] <= |q.results|)
    ensures Run(p, cs, enrich, lower).Finished? ==>
      var q := Run(p, cs, enrich, lower).progress;
      |q.saves| > 0 && q.saves[|q.saves| - 1] == |q.results|
    decreases |cs|
  {
    if cs != [] && Step(p, cs[0], enrich, lower).Some? {
      var p' := Step(p, cs[0], enrich, lower).value;
      StepGrows(p, cs[0], enrich, lower);
      RunGrows(p', cs[1..], enrich, lower);
      var q := Run(p', cs[1..], enrich, lower).progress;
      PrefixOfPrefix(p.results, p'.results, q.results);
      PrefixOfPrefix(p.saves, p'.saves, q.saves);
    }
  }

  /** One step keeps what `RunGrows` keeps. */
  lemma StepGrows(p: Progress, c: CsvCompany, enrich: CsvCompany -> Enrichment, lower: CaseMap)
    requires p.processed == |p.results|
    requires forall k :: 0 <= k < |p.saves| ==> p.saves[k] <= |p.results|
    requires Step(p, c, enrich, lower).Some?
    ensures var q := Step(p, c, enrich, lower).value;
      |p.results| <= |q.results| && q.results[..|p.results|] == p.results
      && q.processed == |q.results|
      && |p.saves| <= |q.saves| && q.saves[..|p.saves|] == p.saves
      && (forall k :: 0 <= k < |q.saves| ==> q.saves[k] <= |q.results|)
  {
    var q := Step(p, c, enrich, lower).value;
    StepMeans(p, c, enrich, lower);
    forall k | 0 <= k < |q.saves| ensures q.saves[k] <= |q.results| {
      if k < |p.saves| { assert q.saves[k] == q.saves[..|p.saves|][k]; }
    }
  }

  lemma PrefixOfPrefix<T>(a: seq<T>, b: seq<T>, c: seq<T>)
    requires |a| <= |b| <= |c| && b[..|a|] == a && c[..|b|] == b
    ensures c[..|a|] == a
  {
    assert c[..|a|] == c[..|b|][..|a|];
  }

  /** The records of the marked companies, in input order. */
  function Records(cs: seq<CsvCompany>, marks: seq<bool>, enrich: CsvCompany -> Enrichment): seq<Json>
    requires |marks| == |cs|
  {
    if cs == [] then [] else RecordFor(cs[0], marks[0], enrich) + Records(cs[1..], marks[1..], enrich)
  }

  /** `marks` says of each company in turn whether the loop appends its record, given
      the results it holds when it reaches that company. */
  predicate Marking(results: seq<Json>, cs: seq<CsvCompany>, marks: seq<bool>, enrich: CsvCompany -> Enrichment, lower: CaseMap)
    decreases |cs|
  {
    |marks| == |cs|
    && (cs != [] ==>
          (marks[0] <==> Picked(results, cs[0], enrich, lower))
          && Marking(results + RecordFor(cs[0], marks[0], enrich), cs[1..], marks[1..], enrich, lower))
  }

  /** A run from `p` over `cs` that ended in `e` went through `cs[..n]`, marked by
      `marks`: it appended the records of the marked companies and nothing else; it
      finished exactly when it went through all of `cs`; otherwise it stopped at
      `cs[n]`, which `Halts`. */
  predicate Accounts(p: Progress, cs: seq<CsvCompany>, e: RunEnd, n: nat, marks: seq<bool>,
                     enrich: CsvCompany -> Enrichment, lower: CaseMap)
  {
    n <= |cs| && Marking(p.results, cs[..n], marks, enrich, lower)
    && !e.NothingToDo? && e.progress.results == p.results + Records(cs[..n], marks, enrich)
    && (e.Finished? <==> n == |cs|)
    && (e.Stopped? ==> n < |cs| && Halts(p.results + Records(cs[..n], marks, enrich), cs[n], enrich, lower))
  }

  /** An account of the run after the first company extends to one of the whole run. */
  lemma AccountsCons(p: Progress, p': Progress, c: CsvCompany, cs: seq<CsvCompany>, e: RunEnd, n: nat,
                     marks: seq<bool>, enrich: CsvCompany -> Enrichment, lower: CaseMap)
    requires p'.results == p.results + RecordFor(c, Picked(p.results, c, enrich, lower), enrich)
    requires Accounts(p', cs, e, n, marks, enrich, lower)
    ensures Accounts(p, [c] + cs, e, n + 1, [Picked(p.results, c, enrich, lower)] + marks, enrich, lower)
  {
    var pick := Picked(p.results, c, enrich, lower);
    var pre, marks' := ([c] + cs)[..n + 1], [pick] + marks;
    assert pre == [c] + cs[..n];
    assert pre[0] == c && pre[1..] == cs[..n];
    assert marks'[0] == pick && marks'[1..] == marks;
    assert Marking(p.results, pre, marks', enrich, lower);
    var tail := Records(cs[..n], marks, enrich);
    assert Records(pre, marks', enrich) == RecordFor(c, pick, enrich) + tail;
    assert p.results + Records(pre, marks', enrich) == p'.results + tail;
    assert n < |cs| ==> ([c] + cs)[n + 1] == cs[n];
  }

  /** The account of a run, built company by company. */
  lemma {:induction false} RunAccount(p: Progress, cs: seq<CsvCompany>, enrich: CsvCompany -> Enrichment, lower: CaseMap)
    returns (n: nat, marks: seq<bool>)
    ensures Accounts(p, cs, Run(p, cs, enrich, lower), n, marks, enrich, lower)
    decreases |cs|
  {
    if cs == [] || Step(p, cs[0], enrich, lower).None? {
      if cs != [] { StepMeans(p, cs[0], enrich, lower); }
      assert cs[..0] == [];
      n, marks := 0, [];
    } else {
      var p' := Step(p, cs[0], enrich, lower).value;
      StepMeans(p, cs[0], enrich, lower);
      assert Run(p, cs, enrich, lower) == Run(p', cs[1..], enrich, lower);
      var n', marks' := RunAccount(p', cs[1..], enrich, lower);
      AccountsCons(p, p', cs[0], cs[1..], Run(p, cs, enrich, lower), n', marks', enrich, lower);
      assert [cs[0]] + cs[1..] == cs;
      n, marks := n' + 1, [Picked(p.results, cs[0], enrich, lower)] + marks';
    }
  }

  /** What the loop appends, company by company: the records of exactly the companies
      `Picked` when the loop reaches them, in input order, and nothing for a company
      already present, gated out or whose enrichment failed; the run finishes unless
      it reaches a company that `Halts`. */
  lemma RunAppendsPicked(p: Progress, cs: seq<CsvCompany>, enrich: CsvCompany -> Enrichment, lower: CaseMap)
    ensures exists n: nat, marks: seq<bool> :: Accounts(p, cs, Run(p, cs, enrich, lower), n, marks, enrich, lower)
  {
    var n, marks := RunAccount(p, cs, enrich, lower);
  }

  /** One turn of the loop: the scan of the results, the gate, and the call to
      `enrich_company` with its bookkeeping. */
  method Turn(p: Progress, c: CsvCompany, enrich: CsvCompany -> Enrichment, lower: CaseMap)
    returns (r: Option<Progress>)
    ensures r == Step(p, c, enrich, lower)
  {
    var done := ScanResults(p.results, c, lower);
    if done.None? {
      return None;
    }
    if done == Some(true) || !Admitted(c) {
      return Some(p);
    }
    var enriched := enrich(c);
    if enriched.Fatal? {
      return None;
    }
    var results, processed, saves := p.results, p.processed, p.saves;
    if enriched.Failed? {
      saves := saves + [|results|];
    } else {
      results := results + [JObject(enriched.record)];
      processed := processed + 1;
      if processed % SaveEvery == 0 {
        saves := saves + [|results|];
      }
    }
    return Some(Progress(results, processed, saves));
  }

  /** `process_csv_file`, step by step: the companies are loaded and limited, then
      each is looked up among the results, gated and enriched in turn. */
  method ProcessCsvFile(file: Option<seq<Row>>, loads: Parser, maxCompanies: Option<int>,
                        existing: seq<Json>, enrich: CsvCompany -> Enrichment, lower: CaseMap) returns (e: RunEnd)
    ensures e == ProcessCsv(file, loads, maxCompanies, existing, enrich, lower)
  {
    var companies := LoadCompaniesFromCsv(file, loads);
    if companies == [] {
      return NothingToDo;
    }
    if maxCompanies.Some? && 0 < maxCompanies.value < |companies| {
      companies := companies[..maxCompanies.value];
    }
    assert companies == Limit(LoadCompanies(file, loads), maxCompanies);
    var p := Progress(existing, |existing|, []);
    ghost var start := p;
    var i := 0;
    while i < |companies|
      invariant 0 <= i <= |companies|
      invariant Run(p, companies[i..], enrich, lower) == Run(start, companies, enrich, lower)
    {
      assert companies[i..][1..] == companies[i + 1..];
      var next := Turn(p, companies[i], enrich, lower);
      if next.None? {
        return Stopped(p);
      }
      p := next.value;
      i := i + 1;
    }
    assert companies[i..] == [];
    return Finished(p.(saves := p.saves + [|p.results|]));
  }
}
