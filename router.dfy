/** The pure parts of new_streamlit_wth_node.py: the log-file slug, the extraction of the router's
    JSON answer, the sanitisation of the router decision and the text of the per-query log. */
module Router {
  import Wrappers
  import opened Strings
  import opened Dicts

  // ---------------------------------------------------------------- short_slug

  /** c if c.isalnum() else "_", character by character. */
  function SlugChars(s: string): (r: string)
    ensures |r| == |s|
    ensures forall i :: 0 <= i < |s| ==> r[i] == if IsAlnum(s[i]) then s[i] else '_'
  {
    seq(|s|, i requires 0 <= i < |s| => if IsAlnum(s[i]) then s[i] else '_')
  }

  /** short_slug(text, max_len): the words of text joined by single spaces, cut to max_len
      characters, every other character than a letter or digit turned into '_', the
      underscores at both ends removed, and "q" when nothing is left. */
  function ShortSlug(text: string, maxLen: int): string {
    var s := StripChar(SlugChars(SlicePrefix(Join(" ", Words(text)), maxLen)), '_');
    if s != "" then s else "q"
  }

  /** The characters a slug may hold. */
  predicate IsSlugChar(c: char) {
    IsAlnum(c) || c == '_'
  }

  /** What stripping '_' keeps is a piece of what it was given. */
  lemma {:induction false} StripCharLeftSuffix(s: string, ch: char)
    ensures StripCharLeft(s, ch) == s[|s| - |StripCharLeft(s, ch)|..]
  {
    if s != [] && s[0] == ch {
      StripCharLeftSuffix(s[1..], ch);
    }
  }

  /** A slug is never empty, is no longer than max_len when max_len is positive (and is "q"
      when it is 0), holds only letters, digits and '_', and neither starts nor ends with '_'. */
  lemma ShortSlugSpec(text: string, maxLen: int)
    ensures ShortSlug(text, maxLen) != ""
    ensures maxLen >= 1 ==> |ShortSlug(text, maxLen)| <= maxLen
    ensures maxLen == 0 ==> ShortSlug(text, maxLen) == "q"
    ensures forall i :: 0 <= i < |ShortSlug(text, maxLen)| ==> IsSlugChar(ShortSlug(text, maxLen)[i])
    ensures ShortSlug(text, maxLen)[0] != '_'
    ensures ShortSlug(text, maxLen)[|ShortSlug(text, maxLen)| - 1] != '_'
  {
    var m := SlugChars(SlicePrefix(Join(" ", Words(text)), maxLen));
    StripCharSpec(m, '_');
  }

  /** s.strip(ch) is a piece of s that neither starts nor ends with ch. */
  lemma StripCharSpec(s: string, ch: char)
    ensures |StripChar(s, ch)| <= |s|
    ensures forall i :: 0 <= i < |StripChar(s, ch)| ==> exists j :: 0 <= j < |s| && StripChar(s, ch)[i] == s[j]
    ensures StripChar(s, ch) == [] || (StripChar(s, ch)[0] != ch && StripChar(s, ch)[|StripChar(s, ch)| - 1] != ch)
  {
    var left := StripCharLeft(s, ch);
    var r := StripCharRight(left, ch);
    StripCharLeftSuffix(s, ch);
    var off := |s| - |left|;
    forall i | 0 <= i < |r|
      ensures exists j :: 0 <= j < |s| && r[i] == s[j]
    {
      assert r[i] == left[i] == s[off + i];
    }
  }

  /** A slug is its own slug: feeding the result back in, with the same max_len, changes
      nothing. */
  lemma ShortSlugIdempotent(text: string, maxLen: int)
    requires maxLen >= 1
    ensures ShortSlug(ShortSlug(text, maxLen), maxLen) == ShortSlug(text, maxLen)
  {
    var r := ShortSlug(text, maxLen);
    ShortSlugSpec(text, maxLen);
    forall i | 0 <= i < |r|
      ensures !IsSpace(r[i])
    {
      SlugCharNotSpace(r[i]);
    }
    WordsOfWord(r);
    assert Join(" ", Words(r)) == r;
    SlugOfSlug(r, maxLen);
    assert StripChar(SlugChars(SlicePrefix(Join(" ", Words(r)), maxLen)), '_') == r;
  }

  lemma SlugCharNotSpace(c: char)
    requires IsSlugChar(c)
    ensures !IsSpace(c)
  {
  }

  /** A slug no longer than max_len goes through cutting, replacing and stripping as it is. */
  lemma SlugOfSlug(r: string, maxLen: int)
    requires r != [] && |r| <= maxLen && r[0] != '_' && r[|r| - 1] != '_'
    requires forall i :: 0 <= i < |r| ==> IsSlugChar(r[i])
    ensures StripChar(SlugChars(SlicePrefix(r, maxLen)), '_') == r
  {
    assert SlicePrefix(r, maxLen) == r;
    assert SlugChars(r) == r;
    assert StripCharLeft(r, '_') == r;
    assert StripCharRight(r, '_') == r;
  }

  /** A non-empty string without whitespace is one word. */
  lemma WordsOfWord(s: string)
    requires s != [] && forall i :: 0 <= i < |s| ==> !IsSpace(s[i])
    ensures Words(s) == [s]
  {
    assert StripLeft(s) == s;
    TakeWholeWord(s);
    assert s[|s|..] == [];
  }

  lemma {:induction false} TakeWholeWord(s: string)
    requires forall i :: 0 <= i < |s| ==> !IsSpace(s[i])
    ensures TakeWord(s) == s
  {
    if s != [] {
      TakeWholeWord(s[1..]);
    }
  }

  // ---------------------------------------------------------------- extract_json_from_text

  /** A JSON value, as json.loads returns it. */
  datatype Json =
    | JNull
    | JBool(b: bool)
    | JNum(text: string)
    | JStr(s: string)
    | JArray(items: seq<Json>)
    | JObject(fields: Dict<Json>)

  /** json.loads, taken as given: the value a text parses to, or None where json.loads raises. */
  type Parser = string -> Wrappers.Option<Json>

  /** txt.find(ch): the first index of ch, or -1. */
  function FindChar(s: string, ch: char): (r: int)
    ensures -1 <= r < |s|
    ensures r >= 0 ==> s[r] == ch
  {
    if s == [] then -1
    else if s[0] == ch then 0
    else var k := FindChar(s[1..], ch); if k == -1 then -1 else k + 1
  }

  /** txt.rfind(ch): the last index of ch, or -1. */
  function RFindChar(s: string, ch: char): (r: int)
    ensures -1 <= r < |s|
    ensures r >= 0 ==> s[r] == ch
  {
    if s == [] then -1
    else if s[|s| - 1] == ch then |s| - 1
    else RFindChar(s[..|s| - 1], ch)
  }

  /** find gives -1 exactly when ch does not occur, and no earlier index holds ch. */
  lemma {:induction false} FindCharSpec(s: string, ch: char)
    ensures FindChar(s, ch) == -1 <==> forall i :: 0 <= i < |s| ==> s[i] != ch
    ensures forall i :: 0 <= i < FindChar(s, ch) ==> s[i] != ch
  {
    if s != [] && s[0] != ch {
      FindCharSpec(s[1..], ch);
      assert forall i :: 1 <= i < |s| ==> s[i] == s[1..][i - 1];
    }
  }

  /** rfind gives -1 exactly when ch does not occur, and no later index holds ch. */
  lemma {:induction false} RFindCharSpec(s: string, ch: char)
    ensures RFindChar(s, ch) == -1 <==> forall i :: 0 <= i < |s| ==> s[i] != ch
    ensures forall i :: RFindChar(s, ch) < i < |s| ==> s[i] != ch
  {
    if s != [] && s[|s| - 1] != ch {
      RFindCharSpec(s[..|s| - 1], ch);
    }
  }

  /** How many characters the opening fence takes: "```json" (the letters in any case) when
      they are followed by room for the closing fence, otherwise "```". */
  function FenceOpening(txt: string): nat {
    if |txt| >= 10 && LowerAscii(txt[3..7]) == "json" then 7 else 3
  }

  /** The pattern ^```(?:json)?\s*(.*)\s*```$ searched in the stripped text, with group(1)
      stripped: it matches exactly when the text starts and ends with three backticks that do
      not overlap. The whitespace \s* takes is removed by the strip anyway. */
  function FenceInner(txt: string): Wrappers.Option<string> {
    if |txt| >= 6 && txt[..3] == "```" && txt[|txt| - 3..] == "```" then
      Wrappers.Some(Strip(txt[FenceOpening(txt)..|txt| - 3]))
    else Wrappers.None
  }

  /** txt[first:last + 1] between the first '{' and the last '}', when both exist and the
      last comes after the first. */
  function BraceBlock(txt: string): (block: Wrappers.Option<string>)
    ensures block.Some? ==> |block.value| >= 2 && block.value[0] == '{' && block.value[|block.value| - 1] == '}'
  {
    var first := FindChar(txt, '{');
    var last := RFindChar(txt, '}');
    if first != -1 && last != -1 && last > first then Wrappers.Some(txt[first..last + 1])
    else Wrappers.None
  }

  /** extract_json_from_text: the cascade exactly as the source runs it. */
  function ExtractJson(text: Json, parse: Parser): (r: Wrappers.Result<Json>)
    ensures !text.JStr? ==> r == Wrappers.Err("router response not a string")
    ensures text.JStr? && parse(Strip(text.s)).Some? ==> r == Wrappers.Ok(parse(Strip(text.s)).value)
  {
    if !text.JStr? then Wrappers.Err("router response not a string")
    else
      var txt := Strip(text.s);
      if parse(txt).Some? then Wrappers.Ok(parse(txt).value)
      else
        var fence := FenceInner(txt);
        if fence.Some? && parse(fence.value).Some? then Wrappers.Ok(parse(fence.value).value)
        else
          var block := BraceBlock(txt);
          if block.Some? && parse(block.value).Some? then Wrappers.Ok(parse(block.value).value)
          else Wrappers.Err("No valid JSON found in router response")
  }

  function OptionList(o: Wrappers.Option<string>): seq<string> {
    if o.Some? then [o.value] else []
  }

  /** The texts extract_json_from_text offers json.loads, in the order it offers them. */
  function Candidates(txt: string): (cs: seq<string>)
    ensures 1 <= |cs| <= 3 && cs[0] == txt
  {
    [txt] + OptionList(FenceInner(txt)) + OptionList(BraceBlock(txt))
  }

  /** The value of the first candidate that parses, if any. */
  function FirstParse(cs: seq<string>, parse: Parser): Wrappers.Option<Json> {
    if cs == [] then Wrappers.None
    else if parse(cs[0]).Some? then parse(cs[0])
    else FirstParse(cs[1..], parse)
  }

  /** Candidate k is the first one that parses. */
  predicate FirstParsing(cs: seq<string>, parse: Parser, k: int) {
    0 <= k < |cs| && parse(cs[k]).Some? && forall j :: 0 <= j < k ==> parse(cs[j]).None?
  }

  lemma FirstParseCons(x: string, rest: seq<string>, parse: Parser)
    ensures FirstParse([x] + rest, parse) == if parse(x).Some? then parse(x) else FirstParse(rest, parse)
  {
    assert ([x] + rest)[0] == x && ([x] + rest)[1..] == rest;
  }

  /** FirstParse gives the value of a candidate that parses, every earlier candidate
      failing, and None only when no candidate parses. */
  lemma {:induction false} FirstParseSpec(cs: seq<string>, parse: Parser)
    ensures FirstParse(cs, parse).None? <==> forall k :: 0 <= k < |cs| ==> parse(cs[k]).None?
    ensures FirstParse(cs, parse).Some? ==> exists k :: FirstParsing(cs, parse, k) && parse(cs[k]) == FirstParse(cs, parse)
  {
    if cs != [] && parse(cs[0]).None? {
      FirstParseSpec(cs[1..], parse);
      assert forall k :: 1 <= k < |cs| ==> cs[k] == cs[1..][k - 1];
      if FirstParse(cs, parse).Some? {
        var k :| FirstParsing(cs[1..], parse, k) && parse(cs[1..][k]) == FirstParse(cs, parse);
        assert FirstParsing(cs, parse, k + 1) && parse(cs[k + 1]) == FirstParse(cs, parse);
      }
    }
  }

  /** The cascade is the first successful parse of the candidates in order: a string
      succeeds exactly when one of its candidates parses, with the value of the first that
      does, and fails with "No valid JSON found" otherwise. */
  lemma ExtractJsonIsFirstParse(text: Json, parse: Parser)
    requires text.JStr?
    ensures var fp := FirstParse(Candidates(Strip(text.s)), parse);
      ExtractJson(text, parse) == if fp.Some? then Wrappers.Ok(fp.value) else Wrappers.Err("No valid JSON found in router response")
  {
    var txt := Strip(text.s);
    var f := OptionList(FenceInner(txt));
    var b := OptionList(BraceBlock(txt));
    assert Candidates(txt) == [txt] + (f + b);
    FirstParseCons(txt, f + b, parse);
    if f != [] {
      assert f + b == [f[0]] + b;
      FirstParseCons(f[0], b, parse);
    } else {
      assert f + b == b;
    }
    if b != [] {
      assert b == [b[0]] + [];
      FirstParseCons(b[0], [], parse);
    }
  }

  /** The fence candidate exists exactly when the stripped text opens and closes with
      three backticks, and it is itself stripped. */
  lemma FenceInnerSpec(txt: string)
    ensures FenceInner(txt).Some? <==> |txt| >= 6 && txt[..3] == "```" && txt[|txt| - 3..] == "```"
    ensures FenceInner(txt).Some? ==> IsStripped(FenceInner(txt).value)
  {
    if FenceInner(txt).Some? {
      StripSpec(txt[FenceOpening(txt)..|txt| - 3]);
    }
  }

  /** The brace candidate exists exactly when the text has a '{' followed at some point by
      a '}'. */
  lemma BraceBlockExists(txt: string)
    ensures BraceBlock(txt).Some? <==> exists i, j :: 0 <= i < j < |txt| && txt[i] == '{' && txt[j] == '}'
  {
    var first := FindChar(txt, '{');
    var last := RFindChar(txt, '}');
    if exists i, j :: 0 <= i < j < |txt| && txt[i] == '{' && txt[j] == '}' {
      var i, j :| 0 <= i < j < |txt| && txt[i] == '{' && txt[j] == '}';
      FindCharSpec(txt, '{');
      RFindCharSpec(txt, '}');
      assert first != -1 && first <= i;
      assert last != -1 && j <= last;
    }
  }

  // ---------------------------------------------------------------- router sanitisation

  /** The router outcome: the decision and the subqueries. */
  datatype Route = Route(decision: string, subqueries: seq<string>)

  const MaxSubqueries: nat := 4

  /** The fail-safe outcome. */
  const Simple := Route("simple", [])

  /** [s.strip() for s in raw_subs if isinstance(s, str) and s.strip()] */
  function CleanSubqueries(items: seq<Json>): (subs: seq<string>)
    ensures |subs| <= |items|
  {
    if items == [] then []
    else
      var prev := CleanSubqueries(items[..|items| - 1]);
      var it := items[|items| - 1];
      if it.JStr? && Strip(it.s) != "" then prev + [Strip(it.s)] else prev
  }

  /** The comprehension keeps order: the subqueries of a concatenation are those of its
      parts, one after the other. */
  lemma {:induction false} CleanSubqueriesAppend(a: seq<Json>, b: seq<Json>)
    ensures CleanSubqueries(a + b) == CleanSubqueries(a) + CleanSubqueries(b)
  {
    if b == [] {
      assert a + b == a;
    } else {
      var init := b[..|b| - 1];
      CleanSubqueriesAppend(a, init);
      assert (a + b)[..|a + b| - 1] == a + init;
      assert (a + b)[|a + b| - 1] == b[|b| - 1];
    }
  }

  /** One item contributes its stripped text when it is a string that is not blank, and
      nothing otherwise. */
  lemma CleanSubqueriesSingle(it: Json)
    ensures CleanSubqueries([it]) == if it.JStr? && Strip(it.s) != "" then [Strip(it.s)] else []
  {
    assert [it][..0] == [];
  }

  /** Every kept subquery is stripped and not empty. */
  lemma {:induction false} CleanSubqueriesStripped(items: seq<Json>)
    ensures forall k :: 0 <= k < |CleanSubqueries(items)| ==>
      CleanSubqueries(items)[k] != "" && IsStripped(CleanSubqueries(items)[k])
  {
    if items != [] {
      CleanSubqueriesStripped(items[..|items| - 1]);
      var it := items[|items| - 1];
      if it.JStr? {
        StripSpec(it.s);
      }
    }
  }

  /** subqueries[:4] */
  function Capped(subs: seq<string>): (r: seq<string>)
    ensures |r| == if |subs| <= MaxSubqueries then |subs| else MaxSubqueries
    ensures r == subs[..|r|]
  {
    if |subs| <= MaxSubqueries then subs else subs[..MaxSubqueries]
  }

  /** parsed.get(key, default), for a parsed value known to be a dict. */
  function GetOr(fields: Dict<Json>, key: string, default: Json): Json {
    if HasKey(fields, key) then Get(fields, key) else default
  }

  /** Lines 216-244 as written: any raised error (no JSON, a parsed value without .get, a
      decision that is not a string) ends in ("simple", []); a decision is stripped and
      lower-cased; a "complex" one needs a non-empty list of subqueries, keeps the stripped
      non-blank strings among them, at most four, and falls back to "simple" when none is
      left; any other decision is kept, with no subqueries. */
  function Sanitize(parsed: Wrappers.Result<Json>): (route: Route)
    ensures parsed.Err? ==> route == Simple
    ensures parsed.Ok? && !parsed.value.JObject? ==> route == Simple
    ensures parsed.Ok? && parsed.value.JObject? && !GetOr(parsed.value.fields, "decision", JStr("simple")).JStr? ==>
      route == Simple
    ensures parsed.Ok? && parsed.value.JObject? && GetOr(parsed.value.fields, "decision", JStr("simple")).JStr? ==>
      var decision := LowerAscii(Strip(GetOr(parsed.value.fields, "decision", JStr("simple")).s));
      var rawSubs := GetOr(parsed.value.fields, "subqueries", JArray([]));
      && (decision != "complex" ==> route == Route(decision, []))
      && (decision == "complex" && (!rawSubs.JArray? || CleanSubqueries(rawSubs.items) == []) ==> route == Simple)
      && (decision == "complex" && rawSubs.JArray? && CleanSubqueries(rawSubs.items) != [] ==>
            route == Route("complex", Capped(CleanSubqueries(rawSubs.items))))
    ensures |route.subqueries| <= MaxSubqueries
  {
    if parsed.Err? || !parsed.value.JObject? then Simple
    else
      var fields := parsed.value.fields;
      var raw := GetOr(fields, "decision", JStr("simple"));
      if !raw.JStr? then Simple
      else
        var decision := LowerAscii(Strip(raw.s));
        if decision != "complex" then Route(decision, [])
        else
          var rawSubs := GetOr(fields, "subqueries", JArray([]));
          if !rawSubs.JArray? || rawSubs.items == [] then Simple
          else
            var subs := Capped(CleanSubqueries(rawSubs.items));
            if subs == [] then Route("simple", subs) else Route(decision, subs)
  }

  /** The route of a router response, under the corrected rule of SanitizeIntended. */
  function RouteOf(response: Json, parse: Parser): Route {
    SanitizeIntended(ExtractJson(response, parse))
  }

  /** The path the source takes afterwards: the simple path exactly when the decision is
      "simple", and the subquery path for any other decision. */
  predicate TakesSimplePath(route: Route) {
    route.decision == "simple"
  }

  /** The complex outcome: when the decision is "complex", there are one to four
      subqueries, each stripped and not blank, and they are the first of the cleaned list
      in their original order. */
  lemma SanitizeComplex(parsed: Wrappers.Result<Json>)
    requires Sanitize(parsed).decision == "complex"
    ensures parsed.Ok? && parsed.value.JObject?
    ensures var rawSubs := GetOr(parsed.value.fields, "subqueries", JArray([]));
      && rawSubs.JArray?
      && Sanitize(parsed).subqueries == Capped(CleanSubqueries(rawSubs.items))
    ensures 1 <= |Sanitize(parsed).subqueries| <= MaxSubqueries
    ensures forall k :: 0 <= k < |Sanitize(parsed).subqueries| ==>
      Sanitize(parsed).subqueries[k] != "" && IsStripped(Sanitize(parsed).subqueries[k])
  {
    var rawSubs := GetOr(parsed.value.fields, "subqueries", JArray([]));
    CleanSubqueriesStripped(rawSubs.items);
  }

  /** The router answer breaks the contract of lines 216-244: no JSON object, a decision
      that is not a string, or a "complex" decision without a usable list of subqueries. */
  predicate BreaksContract(parsed: Wrappers.Result<Json>) {
    || parsed.Err?
    || !parsed.value.JObject?
    || !GetOr(parsed.value.fields, "decision", JStr("simple")).JStr?
    || (var rawSubs := GetOr(parsed.value.fields, "subqueries", JArray([]));
        && LowerAscii(Strip(GetOr(parsed.value.fields, "decision", JStr("simple")).s)) == "complex"
        && (!rawSubs.JArray? || CleanSubqueries(rawSubs.items) == []))
  }

  /** A response that breaks the contract is routed as simple, with no subqueries. */
  lemma RouteFailSafe(response: Json, parse: Parser)
    requires BreaksContract(ExtractJson(response, parse))
    ensures RouteOf(response, parse) == Simple
  {
  }

  /** As written, a decision other than "simple" and "complex" keeps its text and no
      subqueries, so the subquery path runs with none, although the code at line 267
      counts on at least one: {"decision": "maybe"} is such a response. */
  lemma SanitizeOtherDecision()
    ensures var route := Sanitize(Wrappers.Ok(JObject([("decision", JStr("maybe"))])));
      !TakesSimplePath(route) && route.subqueries == [] && route.decision == "maybe"
  {
    var fields := [("decision", JStr("maybe"))];
    assert fields[0].0 == "decision";
    FindSpec(fields, "decision");
    assert Get(fields, "decision") == JStr("maybe");
    assert Strip("maybe") == "maybe" by {
      StripStripped("maybe");
    }
    assert LowerAscii("maybe") == "maybe";
  }

  /** The evidently intended rule: a decision that is not "complex" becomes "simple". */
  function SanitizeIntended(parsed: Wrappers.Result<Json>): (route: Route)
    ensures route.decision == "simple" || route.decision == "complex"
    ensures route.decision == "simple" ==> route.subqueries == []
  {
    var r := Sanitize(parsed);
    if r.decision == "complex" then r else Simple
  }

  /** With the intended rule, the subquery path always has one to four stripped, non-blank
      subqueries, and every outcome the source gets right is kept. */
  lemma SanitizeIntendedSpec(parsed: Wrappers.Result<Json>)
    ensures !TakesSimplePath(SanitizeIntended(parsed)) ==>
      1 <= |SanitizeIntended(parsed).subqueries| <= MaxSubqueries &&
      forall k :: 0 <= k < |SanitizeIntended(parsed).subqueries| ==>
        SanitizeIntended(parsed).subqueries[k] != "" && IsStripped(SanitizeIntended(parsed).subqueries[k])
    ensures Sanitize(parsed).decision == "simple" || Sanitize(parsed).decision == "complex" ==>
      SanitizeIntended(parsed) == Sanitize(parsed)
  {
    if Sanitize(parsed).decision == "complex" {
      SanitizeComplex(parsed);
    }
  }

  // ---------------------------------------------------------------- build_full_text_log

  /** One entry of llm_calls; a key it lacks is None. */
  datatype LlmCall = LlmCall(kind: Wrappers.Option<string>, prompt: Wrappers.Option<string>, response: Wrappers.Option<string>)

  function OrDefault(o: Wrappers.Option<string>, default: string): string {
    if o.Some? then o.value else default
  }

  /** "=" * 100 */
  const Rule: string := Repeat('=', 100)

  /** "-" * 80 */
  const Dashes: string := Repeat('-', 80)

  /** The lines before the first call. */
  function HeaderLines(qid: string, query: string, decision: string, time: string): (lines: seq<string>)
    ensures |lines| == 11
  {
    [Rule, "QUERY", Rule, query, "", "Time (UTC): " + time, "QID: " + qid,
     "Decision (router): " + decision, Rule, "LLM CALLS (in order)", Rule]
  }

  /** The block of the call numbered idx. */
  function CallLines(idx: nat, call: LlmCall): (lines: seq<string>)
    ensures |lines| == 9
  {
    ["LLM CALL " + NatToString(idx) + ": " + OrDefault(call.kind, "unknown"), Dashes, "PROMPT:",
     OrDefault(call.prompt, ""), "", "RESPONSE:", OrDefault(call.response, ""), "", Rule]
  }

  /** The lines head followed by the blocks of the calls, numbered from 1. */
  function CallsLogged(head: seq<string>, calls: seq<LlmCall>): (lines: seq<string>)
    ensures |lines| == |head| + 9 * |calls|
  {
    if calls == [] then head else CallsLogged(head, calls[..|calls| - 1]) + CallLines(|calls|, calls[|calls| - 1])
  }

  function FooterLines(): seq<string> { ["END OF LOG", Rule] }

  /** The lines build_full_text_log joins, the time being the one it reads from the clock. */
  function LogLines(qid: string, query: string, decision: string, calls: seq<LlmCall>, time: string): seq<string> {
    CallsLogged(HeaderLines(qid, query, decision, time), calls) + FooterLines()
  }

  /** The eleven lines build_full_text_log appends before the first call. */
  method HeaderBlock(qid: string, query: string, decision: string, time: string) returns (lines: seq<string>)
    ensures lines == HeaderLines(qid, query, decision, time)
  {
    lines := [];
    lines := lines + [Rule];
    lines := lines + ["QUERY"];
    lines := lines + [Rule];
    lines := lines + [query];
    lines := lines + [""];
    lines := lines + ["Time (UTC): " + time];
    lines := lines + ["QID: " + qid];
    lines := lines + ["Decision (router): " + decision];
    lines := lines + [Rule];
    lines := lines + ["LLM CALLS (in order)"];
    lines := lines + [Rule];
    assert lines == HeaderLines(qid, query, decision, time);
  }

  /** The nine lines the loop of build_full_text_log appends for call number idx. */
  method CallBlock(idx: nat, call: LlmCall) returns (block: seq<string>)
    ensures block == CallLines(idx, call)
  {
    block := [];
    block := block + ["LLM CALL " + NatToString(idx) + ": " + OrDefault(call.kind, "unknown")];
    block := block + [Dashes];
    block := block + ["PROMPT:"];
    block := block + [OrDefault(call.prompt, "")];
    block := block + [""];
    block := block + ["RESPONSE:"];
    block := block + [OrDefault(call.response, "")];
    block := block + [""];
    block := block + [Rule];
    assert block == CallLines(idx, call);
  }

  /** build_full_text_log */
  method BuildFullTextLog(qid: string, query: string, decision: string, calls: seq<LlmCall>, time: string)
    returns (text: string)
    ensures text == Join("\n", LogLines(qid, query, decision, calls, time))
  {
    var lines := HeaderBlock(qid, query, decision, time);
    ghost var head := lines;
    var idx := 0;
    while idx < |calls|
      invariant 0 <= idx <= |calls|
      invariant lines == CallsLogged(head, calls[..idx])
    {
      var call := calls[idx];
      var block := CallBlock(idx + 1, call);
      assert calls[..idx + 1][..idx] == calls[..idx];
      lines := lines + block;
      idx := idx + 1;
    }
    assert calls[..|calls|] == calls;
    ghost var body := lines;
    lines := lines + ["END OF LOG"];
    lines := lines + [Rule];
    assert lines == body + FooterLines();
    text := Join("\n", lines);
  }

  /** The blocks come after head, which they leave as it is. */
  lemma {:induction false} CallsLoggedHead(head: seq<string>, calls: seq<LlmCall>)
    ensures CallsLogged(head, calls)[..|head|] == head
  {
    if calls != [] {
      CallsLoggedHead(head, calls[..|calls| - 1]);
    }
  }

  /** Line j of the block of call k (from 0), numbered k + 1, is line |head| + 9k + j. */
  lemma {:induction false} CallsLoggedAt(head: seq<string>, calls: seq<LlmCall>, k: nat, j: nat)
    requires k < |calls| && j < 9
    ensures CallsLogged(head, calls)[|head| + 9 * k + j] == CallLines(k + 1, calls[k])[j]
  {
    var init := calls[..|calls| - 1];
    var prev := CallsLogged(head, init);
    assert CallsLogged(head, calls) == prev + CallLines(|calls|, calls[|calls| - 1]);
    if k < |init| {
      CallsLoggedAt(head, init, k, j);
      assert init[k] == calls[k];
      assert |head| + 9 * k + j < |prev|;
    } else {
      assert |head| + 9 * k + j == |prev| + j;
    }
  }

  /** The log has 13 + 9n lines: it opens with a rule of 100 '=', "QUERY" and a rule, then
      the query, and closes with "END OF LOG" and a rule of 100 '='. */
  lemma LogLinesFrame(qid: string, query: string, decision: string, calls: seq<LlmCall>, time: string)
    ensures var lines := LogLines(qid, query, decision, calls, time);
      && |lines| == 13 + 9 * |calls|
      && lines[0] == Rule && lines[1] == "QUERY" && lines[2] == Rule && lines[3] == query
      && lines[|lines| - 2] == "END OF LOG" && lines[|lines| - 1] == Rule
  {
    var head := HeaderLines(qid, query, decision, time);
    var logged := CallsLogged(head, calls);
    CallsLoggedHead(head, calls);
    assert logged[0] == head[0] && logged[1] == head[1] && logged[2] == head[2] && logged[3] == head[3];
  }

  /** Call k (from 0) gets its header line at 11 + 9k, its prompt three lines below and
      its response six lines below. */
  lemma LogLinesCall(qid: string, query: string, decision: string, calls: seq<LlmCall>, time: string, k: nat)
    requires k < |calls|
    ensures var lines := LogLines(qid, query, decision, calls, time);
      && lines[11 + 9 * k] == "LLM CALL " + NatToString(k + 1) + ": " + OrDefault(calls[k].kind, "unknown")
      && lines[11 + 9 * k + 3] == OrDefault(calls[k].prompt, "")
      && lines[11 + 9 * k + 6] == OrDefault(calls[k].response, "")
  {
    var head := HeaderLines(qid, query, decision, time);
    var logged := CallsLogged(head, calls);
    CallsLoggedAt(head, calls, k, 0);
    CallsLoggedAt(head, calls, k, 3);
    CallsLoggedAt(head, calls, k, 6);
    assert logged[11 + 9 * k] == logged[11 + 9 * k + 0];
  }

  /** Call i (from 1) gets the line "LLM CALL i: type" at 11 + 9(i-1), its prompt three lines
      below and its response six lines below. */
  lemma LogLinesCalls(qid: string, query: string, decision: string, calls: seq<LlmCall>, time: string)
    ensures var lines := LogLines(qid, query, decision, calls, time);
      forall k :: 0 <= k < |calls| ==>
        && lines[11 + 9 * k] == "LLM CALL " + NatToString(k + 1) + ": " + OrDefault(calls[k].kind, "unknown")
        && lines[11 + 9 * k + 3] == OrDefault(calls[k].prompt, "")
        && lines[11 + 9 * k + 6] == OrDefault(calls[k].response, "")
  {
    forall k | 0 <= k < |calls| {
      LogLinesCall(qid, query, decision, calls, time, k);
    }
  }

  /** Joining keeps the last two parts at the back. */
  lemma {:induction false} JoinSuffix(sep: string, parts: seq<string>)
    requires |parts| >= 2
    ensures var n := |parts[|parts| - 2]| + |sep| + |parts[|parts| - 1]|;
      |Join(sep, parts)| >= n &&
      Join(sep, parts)[|Join(sep, parts)| - n..] == parts[|parts| - 2] + sep + parts[|parts| - 1]
  {
    if |parts| > 2 {
      JoinSuffix(sep, parts[1..]);
    }
  }

  /** The text of the log starts with a rule of 100 '=' and "QUERY" on the next line, and
      ends with "END OF LOG" and a rule of 100 '=' on the last line. */
  lemma FullTextLogFrame(qid: string, query: string, decision: string, calls: seq<LlmCall>, time: string)
    ensures var text := Join("\n", LogLines(qid, query, decision, calls, time));
      && |text| >= 106 + 111
      && text[..106] == Rule + "\nQUERY"
      && text[|text| - 111..] == "END OF LOG\n" + Rule
  {
    var lines := LogLines(qid, query, decision, calls, time);
    LogLinesFrame(qid, query, decision, calls, time);
    var rest := lines[2..];
    assert lines[1..][1..] == rest;
    assert Join("\n", lines) == lines[0] + "\n" + (lines[1] + "\n" + Join("\n", rest));
    JoinSuffix("\n", rest);
    assert rest[|rest| - 2] == "END OF LOG" && rest[|rest| - 1] == Rule;
  }
}
