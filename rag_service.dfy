/** The retrieval-augmented rewrite of a recommendation (rag/rag_service.py): the
    search query built from problem words and the user's age, the research context
    built from search hits, and the result of `enhance`. The vector search, the
    language model and the text formatting of scores are parameters. */
module RagService {
  import opened Wrappers
  import Text

  const ProblemIndicators: seq<string> :=
    ["бессонница", "апноэ", "храп", "пробуждения", "засыпание", "сонливость", "фрагментация", "латентность"]
  const TeenKeyword: string := "подростковый сон"
  const ElderKeyword: string := "пожилой сон"
  const DefaultQuery: string := "качество сна улучшение исследование"
  const NoResearchFound: string := "Научные исследования не найдены."
  const ExcerptLength := 500
  const PreviewLength := 1500

  // ---------------------------------------------------------------------------
  // Search query

  /** A value of the user-data dictionary; `VNone` is a missing key or None. */
  datatype Value = VNone | VInt(i: int) | VText(s: string)

  predicate Truthy(v: Value) {
    match v
    case VNone => false
    case VInt(i) => i != 0
    case VText(s) => s != ""
  }

  predicate AllDigits(s: string) {
    forall i :: 0 <= i < |s| ==> Text.IsDigit(s[i])
  }

  function DigitsValue(s: string): (n: nat)
    requires AllDigits(s)
  {
    if s == [] then 0 else DigitsValue(s[..|s| - 1]) * 10 + (s[|s| - 1] as int - '0' as int)
  }

  /** `int(v)`: an int is itself, a text converts when it is a non-empty run of
      ASCII digits with an optional sign; anything else fails. */
  function IntOf(v: Value): (r: Option<int>)
    ensures v.VInt? ==> r == Some(v.i)
    ensures v.VNone? ==> r.None?
    ensures v.VText? && v.s != [] && AllDigits(v.s) ==> r == Some(DigitsValue(v.s))
  {
    match v
    case VNone => None
    case VInt(i) => Some(i)
    case VText(s) =>
      if s != [] && AllDigits(s) then Some(DigitsValue(s))
      else if |s| > 1 && (s[0] == '-' || s[0] == '+') && AllDigits(s[1..]) then
        var n: int := DigitsValue(s[1..]);
        Some(if s[0] == '-' then -n else n)
      else None
  }

  /** Lines 29-36: the age in years, if the dictionary gives one as an int or a
      truthy `age_months` converts; `//` by 12 is a floor division, which Dafny's
      `/` agrees with for a positive divisor. */
  function AgeOf(age: Value, ageMonths: Value): Option<int> {
    if age.VNone? && Truthy(ageMonths) then
      match IntOf(ageMonths)
      case Some(m) => Some(m / 12)
      case None => None
    else if age.VInt? then Some(age.i)
    else None
  }

  /** A given age wins over the months; months give whole years, rounded down. */
  lemma AgeOfExamples()
    ensures AgeOf(VInt(20), VInt(999)) == Some(20)
    ensures AgeOf(VNone, VInt(360)) == Some(30)
    ensures AgeOf(VNone, VInt(-1)) == Some(-1)
    ensures AgeOf(VNone, VText("371")) == Some(30)
    ensures AgeOf(VNone, VText("abc")) == None && AgeOf(VNone, VInt(0)) == None
    ensures AgeOf(VText("30"), VInt(360)) == None
  {
    assert DigitsValue("3") == 3;
    assert "37"[..1] == "3" && DigitsValue("37") == 37;
    assert "371"[..2] == "37";
  }

  /** Line 27: the problem indicators occurring in the text, in indicator order. */
  function KeywordsIn(text: string, indicators: seq<string>): (r: seq<string>)
    ensures |r| <= |indicators|
    ensures forall k :: k in r <==> k in indicators && Text.Contains(text, k)
    ensures Text.Distinct(indicators) ==> Text.Distinct(r)
    ensures (forall k :: k in indicators ==> !Text.Contains(text, k)) ==> r == []
  {
    if indicators == [] then []
    else
      var init := indicators[..|indicators| - 1];
      var k := indicators[|indicators| - 1];
      var r0 := KeywordsIn(text, init);
      assert Text.Distinct(indicators) ==> k !in init;
      if Text.Contains(text, k) then r0 + [k] else r0
  }

  /** Lines 36-40: the age phrases for a young or an old user. */
  function AgeKeywords(age: Option<int>): (r: seq<string>)
    ensures |r| <= 1
    ensures r == [TeenKeyword] <==> age.Some? && age.value < 25
    ensures r == [ElderKeyword] <==> age.Some? && age.value > 60
  {
    if age.Some? && age.value < 25 then [TeenKeyword]
    else if age.Some? && age.value > 60 then [ElderKeyword]
    else []
  }

  /** The keyword list before de-duplication. */
  function QueryKeywords(response: string, age: Value, ageMonths: Value): seq<string> {
    KeywordsIn(Text.Lower(response), ProblemIndicators) + AgeKeywords(AgeOf(age, ageMonths))
  }

  /** `_create_search_query` as a function: the de-duplicated keywords joined by
      single spaces, or the default query when there are none. */
  function SearchQuery(response: string, age: Value, ageMonths: Value): string {
    var keywords := QueryKeywords(response, age, ageMonths);
    if keywords == [] then DefaultQuery else Text.Join(" ", Text.Dedup(keywords))
  }

  /** Lines 42-49: the de-duplication loop with its `seen` set. */
  method DedupKeywords(keywords: seq<string>) returns (uniq: seq<string>)
    ensures uniq == Text.Dedup(keywords)
  {
    var seen: set<string> := {};
    uniq := [];
    for i := 0 to |keywords|
      invariant uniq == Text.Dedup(keywords[..i])
      invariant forall x :: x in seen <==> x in uniq
    {
      var k := keywords[i];
      assert keywords[..i + 1][..i] == keywords[..i];
      if k !in seen {
        uniq := uniq + [k];
        seen := seen + {k};
      }
    }
    assert keywords[..|keywords|] == keywords;
  }

  /** Lines 22-50. */
  method CreateSearchQuery(response: string, age: Value, ageMonths: Value) returns (query: string)
    ensures query == SearchQuery(response, age, ageMonths)
  {
    var keywords := QueryKeywords(response, age, ageMonths);
    if keywords != [] {
      var uniq := DedupKeywords(keywords);
      query := Text.Join(" ", uniq);
    } else {
      query := DefaultQuery;
    }
  }

  lemma ProblemIndicatorsAreDistinct()
    ensures Text.Distinct(ProblemIndicators)
  {
  }

  /** The keywords never repeat (the indicators are distinct and the age phrase
      is none of them), so the de-duplication loop never drops anything: the
      query is the keywords in their order, or the default query. */
  lemma SearchQueryKeepsEveryKeyword(response: string, age: Value, ageMonths: Value)
    ensures var keywords := QueryKeywords(response, age, ageMonths);
      Text.Distinct(keywords) &&
      SearchQuery(response, age, ageMonths) == (if keywords == [] then DefaultQuery else Text.Join(" ", keywords))
  {
    ProblemIndicatorsAreDistinct();
    var found := KeywordsIn(Text.Lower(response), ProblemIndicators);
    var ages := AgeKeywords(AgeOf(age, ageMonths));
    var keywords := found + ages;
    assert TeenKeyword !in ProblemIndicators && ElderKeyword !in ProblemIndicators;
    assert forall x :: x in ages ==> x !in found;
    assert Text.Distinct(keywords) by {
      forall i, j | 0 <= i < j < |keywords| ensures keywords[i] != keywords[j] {
        if j >= |found| && i < |found| {
          assert keywords[j] in ages && keywords[i] in found;
        }
      }
    }
    Text.DedupOfDistinct(keywords);
  }

  /** An indicator occurs in the keywords iff it occurs in the lowercased text;
      with none found and no age phrase the query is the default one. */
  lemma SearchQueryKeywords(response: string, age: Value, ageMonths: Value)
    ensures forall k :: k in ProblemIndicators ==>
      (k in QueryKeywords(response, age, ageMonths) <==> Text.Contains(Text.Lower(response), k))
    ensures (forall k :: k in ProblemIndicators ==> !Text.Contains(Text.Lower(response), k)) && AgeKeywords(AgeOf(age, ageMonths)) == [] ==>
      SearchQuery(response, age, ageMonths) == DefaultQuery
  {
    var found := KeywordsIn(Text.Lower(response), ProblemIndicators);
    assert TeenKeyword !in ProblemIndicators && ElderKeyword !in ProblemIndicators;
  }

  // ---------------------------------------------------------------------------
  // Research context

  /** A search hit; a `None` field is a missing key. */
  datatype Hit = Hit(source: Option<string>, score: Option<real>, chunkId: Option<string>, text: Option<string>)

  /** Line 58: a text over 500 characters is cut to 500 and marked with "...". */
  function Excerpt(t: string): string {
    if |t| > ExcerptLength then t[..ExcerptLength] + "..." else t
  }

  /** The excerpt starts like the text, is at most 503 characters long, and is
      the text itself when that is short enough. */
  lemma ExcerptIsBoundedPrefix(t: string)
    ensures |Excerpt(t)| <= ExcerptLength + 3
    ensures Text.IsPrefix(if |t| > ExcerptLength then t[..ExcerptLength] else t, Excerpt(t))
    ensures |t| <= ExcerptLength ==> Excerpt(t) == t
    ensures |t| > ExcerptLength ==> |Excerpt(t)| == ExcerptLength + 3
  {
  }

  /** Lines 59-64: the numbered block of one hit; `fmt` renders a score with three decimals. */
  function Block(number: nat, h: Hit, fmt: real -> string): string {
    "--- ИССЛЕДОВАНИЕ " + Text.NatToString(number) + " ---\n" +
    "Источник: " + h.source.GetOr("unknown") + "\n" +
    "Релевантность: " + fmt(h.score.GetOr(0.0)) + "\n" +
    Excerpt(h.text.GetOr("")) + "\n"
  }

  /** One block per hit, numbered from 1 in hit order. */
  function Blocks(results: seq<Hit>, fmt: real -> string): (r: seq<string>)
    ensures |r| == |results|
    ensures forall i :: 0 <= i < |results| ==> r[i] == Block(i + 1, results[i], fmt)
  {
    seq(|results|, i requires 0 <= i < |results| => Block(i + 1, results[i], fmt))
  }

  function ResearchContext(results: seq<Hit>, fmt: real -> string): string {
    if results == [] then NoResearchFound else Text.Join("\n", Blocks(results, fmt))
  }

  /** Lines 52-65. */
  method BuildResearchContext(results: seq<Hit>, fmt: real -> string) returns (context: string)
    ensures context == ResearchContext(results, fmt)
  {
    if results == [] {
      return NoResearchFound;
    }
    var parts: seq<string> := [];
    var i := 0;
    while i < |results|
      invariant 0 <= i <= |results|
      invariant |parts| == i
      invariant forall j :: 0 <= j < i ==> parts[j] == Block(j + 1, results[j], fmt)
    {
      parts := parts + [Block(i + 1, results[i], fmt)];
      i := i + 1;
    }
    assert parts == Blocks(results, fmt);
    context := Text.Join("\n", parts);
  }

  lemma {:induction false} JoinStartsWithFirst(sep: string, parts: seq<string>)
    requires parts != []
    ensures Text.IsPrefix(parts[0], Text.Join(sep, parts))
  {
  }

  /** A non-empty hit list gives a context that opens with the first hit's
      block, numbered 1; an empty one gives the fixed "not found" text. */
  lemma ResearchContextOpensWithFirstBlock(results: seq<Hit>, fmt: real -> string)
    ensures results == [] ==> ResearchContext(results, fmt) == NoResearchFound
    ensures results != [] ==> Text.IsPrefix(Block(1, results[0], fmt), ResearchContext(results, fmt))
  {
    if results != [] {
      JoinStartsWithFirst("\n", Blocks(results, fmt));
    }
  }

  // ---------------------------------------------------------------------------
  // Result assembly

  /** What the language model returns: a dictionary with optional `response`,
      `response_preview` and `error`, or any other value, shown with `str`. */
  datatype LlmResult = LlmDict(response: Option<string>, preview: Option<string>, error: Option<string>) | LlmOther(shown: string)

  datatype Source = Source(source: Option<string>, score: Option<real>, chunkId: Option<string>)

  /** The dictionary `enhance` returns; every key is always present. */
  datatype EnhanceResult = EnhanceResult(
    original: string, searchQuery: string, sources: seq<Source>,
    promptPreview: string, enhanced: string, error: Option<string>)

  function SourceOf(h: Hit): Source {
    Source(h.source, h.score, h.chunkId)
  }

  function SourcesOf(hits: seq<Hit>): (r: seq<Source>)
    ensures |r| == |hits|
    ensures forall i :: 0 <= i < |hits| ==> r[i] == SourceOf(hits[i])
  {
    seq(|hits|, i requires 0 <= i < |hits| => SourceOf(hits[i]))
  }

  /** Lines 87-94. */
  function FullPrompt(system: string, context: string, response: string, userJson: string): string {
    system + "\n\n" +
    "НАУЧНЫЕ ИССЛЕДОВАНИЯ:\n" + context + "\n\n" +
    "ИСХОДНЫЕ РЕКОМЕНДАЦИИ (Gemini):\n" + response + "\n\n" +
    "ДАННЫЕ ПОЛЬЗОВАТЕЛЯ:\n" + userJson + "\n\n" +
    "Улучшить рекомендации, опираясь на исследования."
  }

  function Take(s: string, n: nat): string {
    if |s| <= n then s else s[..n]
  }

  /** Line 104: `response or response_preview or ""`, empty strings being falsy. */
  function EnhancedText(result: LlmResult): string {
    match result
    case LlmDict(response, preview, _) =>
      if response.Some? && response.value != "" then response.value
      else if preview.Some? && preview.value != "" then preview.value
      else ""
    case LlmOther(shown) => shown
  }

  /** Lines 73-76: a failing search counts as no hits. */
  function HitsOf(search: Outcome<seq<Hit>>): seq<Hit> {
    match search
    case Ok(hits) => hits
    case Raises => []
  }

  /** `enhance` as a function of its collaborators' answers: `search` maps a
      query to the hits (or an exception), `generate` maps the prompt and the
      system prompt to the model's answer. */
  function EnhanceSpec(response: string, age: Value, ageMonths: Value, userJson: string, system: string,
                       search: string -> Outcome<seq<Hit>>, generate: (string, string) -> LlmResult,
                       fmt: real -> string): EnhanceResult
  {
    var query := SearchQuery(response, age, ageMonths);
    var hits := HitsOf(search(query));
    var prompt := FullPrompt(system, ResearchContext(hits, fmt), response, userJson);
    var answer := generate(prompt, system);
    EnhanceResult(response, query, SourcesOf(hits), Take(prompt, PreviewLength), EnhancedText(answer),
      if answer.LlmDict? then answer.error else None)
  }

  /** Lines 67-116. */
  method Enhance(response: string, age: Value, ageMonths: Value, userJson: string, system: string,
                 search: string -> Outcome<seq<Hit>>, generate: (string, string) -> LlmResult,
                 fmt: real -> string) returns (r: EnhanceResult)
    ensures r == EnhanceSpec(response, age, ageMonths, userJson, system, search, generate, fmt)
  {
    var query := CreateSearchQuery(response, age, ageMonths);
    var hits := HitsOf(search(query));
    var sources := SourcesOf(hits);
    var context := BuildResearchContext(hits, fmt);
    var prompt := FullPrompt(system, context, response, userJson);
    var answer := generate(prompt, system);
    var enhanced := EnhancedText(answer);
    var error := if answer.LlmDict? then answer.error else None;
    r := EnhanceResult(response, query, sources, Take(prompt, PreviewLength), enhanced, error);
  }

  /** A failed search gives no sources and a prompt built on the "not found" context. */
  lemma FailedSearchGivesNoSources(response: string, age: Value, ageMonths: Value, userJson: string, system: string,
                                   search: string -> Outcome<seq<Hit>>, generate: (string, string) -> LlmResult,
                                   fmt: real -> string)
    requires search(SearchQuery(response, age, ageMonths)).Raises?
    ensures var r := EnhanceSpec(response, age, ageMonths, userJson, system, search, generate, fmt);
      r.sources == [] &&
      r.promptPreview == Take(FullPrompt(system, NoResearchFound, response, userJson), PreviewLength)
  {
  }

  /** The sources list the hits one for one, in order, and the result echoes the
      original response and the query it searched with. */
  lemma EnhanceReportsItsInputs(response: string, age: Value, ageMonths: Value, userJson: string, system: string,
                                search: string -> Outcome<seq<Hit>>, generate: (string, string) -> LlmResult,
                                fmt: real -> string)
    ensures var r := EnhanceSpec(response, age, ageMonths, userJson, system, search, generate, fmt);
      var hits := HitsOf(search(SearchQuery(response, age, ageMonths)));
      r.original == response && r.searchQuery == SearchQuery(response, age, ageMonths) &&
      |r.sources| == |hits| &&
      (forall i :: 0 <= i < |hits| ==> r.sources[i].source == hits[i].source && r.sources[i].chunkId == hits[i].chunkId) &&
      |r.promptPreview| <= PreviewLength
  {
  }

  /** The enhanced text is the model's `response` when non-empty, else its
      `response_preview` when non-empty, else "" for a dictionary answer. */
  lemma EnhancedTextFallsBack(result: LlmResult)
    ensures result.LlmDict? && result.response.Some? && result.response.value != "" ==> EnhancedText(result) == result.response.value
    ensures result.LlmDict? && EnhancedText(result) == "" ==>
      (result.response.None? || result.response.value == "") && (result.preview.None? || result.preview.value == "")
    ensures result.LlmOther? ==> EnhancedText(result) == result.shown
  {
  }
}
