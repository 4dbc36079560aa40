/** The offline A/B scorer of the recommendation prompts
    (ab_testing/ab_tester.py): the automatic text metrics, the weighted overall
    score and the per-variant summary with its winner. Scores are exact reals;
    the source's rounding to 2 or 3 places is not modelled. */
module AbTester {
  import opened Wrappers
  import Text
  import Numeric

  // ---------------------------------------------------------------------------
  // Automatic metrics

  predicate IsSentenceEnd(c: char) {
    c == '.' || c == '!' || c == '?'
  }

  /** `not s.strip()`. */
  predicate IsBlank(s: string) {
    forall i :: 0 <= i < |s| ==> Text.IsSpace(s[i])
  }

  /** Line 41: the non-blank pieces of a split on runs of `.`, `!` and `?`. */
  function Sentences(text: string): seq<string> {
    Text.Filter(Text.SplitRuns(text, IsSentenceEnd), (s: string) => !IsBlank(s))
  }

  const RecommendationStems: seq<string> := ["рекоменд", "совет", "стоит", "попробуй", "избегайте"]

  predicate IsRecommendationWord(w: string) {
    exists k :: k in RecommendationStems && Text.Contains(Text.Lower(w), k)
  }

  predicate HasDigit(w: string) {
    exists i :: 0 <= i < |w| && Text.IsDigit(w[i])
  }

  function Min(a: real, b: real): real {
    if a <= b then a else b
  }

  datatype Quality = Quality(
    wordCount: nat, sentenceCount: nat, readabilityScore: real,
    recommendationDensity: real, structureScore: real, specificityScore: real)

  /** `c / w * k if w else 0.0`: the share of `c` out of `w` items, scaled to [0, k]. */
  function Share(c: nat, w: nat, k: real): (r: real)
    requires c <= w && k >= 0.0
    ensures 0.0 <= r <= k
    ensures w == 0 || c == 0 ==> r == 0.0
    ensures c == w && w > 0 ==> r == k
  {
    if w > 0 then
      assert c as real / w as real <= 1.0;
      (c as real / w as real) * k
    else 0.0
  }

  /** `min(100.0, (w / s) * 5.0)`: five points per word per sentence, capped at 100. */
  function Readability(w: nat, s: nat): (r: real)
    requires s >= 1
    ensures 0.0 <= r <= 100.0
    ensures w == 0 ==> r == 0.0
    ensures w >= 20 * s ==> r == 100.0
  {
    var v := (w as real / s as real) * 5.0;
    assert v >= 0.0;
    assert w >= 20 * s ==> v >= 100.0 by {
      if w >= 20 * s {
        assert w as real >= 20.0 * s as real;
      }
    }
    Min(100.0, v)
  }

  /** `simple_quality_metrics` (lines 38-60). */
  function SimpleQualityMetrics(text: string): (r: Quality)
    ensures r.wordCount == |Text.Words(text)|
    ensures r.sentenceCount == (if |Sentences(text)| >= 1 then |Sentences(text)| else 1)
    ensures 0.0 <= r.readabilityScore <= 100.0
    ensures r.structureScore == 1.0 <==> |Sentences(text)| >= 3
    ensures r.structureScore == 0.5 <==> |Sentences(text)| < 3
    ensures 0.0 <= r.recommendationDensity <= 1000.0
    ensures 0.0 <= r.specificityScore <= 100.0
    ensures r.wordCount == 0 ==> r.readabilityScore == 0.0 && r.recommendationDensity == 0.0 && r.specificityScore == 0.0
  {
    var words := Text.Words(text);
    var w := |words|;
    var s := if |Sentences(text)| >= 1 then |Sentences(text)| else 1;
    Quality(w, s, Readability(w, s),
      Share(Text.CountWhere(words, IsRecommendationWord), w, 1000.0),
      if s >= 3 then 1.0 else 0.5,
      Min(100.0, Share(Text.CountWhere(words, HasDigit), w, 500.0)))
  }

  /** An empty answer has no words, counts as one sentence and is scored as unstructured. */
  lemma EmptyTextMetrics()
    ensures SimpleQualityMetrics("") == Quality(0, 1, 0.0, 0.0, 0.5, 0.0)
  {
    assert Text.SplitRuns("", IsSentenceEnd) == [""];
    assert Text.Filter([""], (s: string) => !IsBlank(s)) == [];
    assert Text.SplitRuns("", Text.IsSpace) == [""];
    assert Text.NonEmpty([""]) == [];
  }

  // ---------------------------------------------------------------------------
  // Overall score

  /** The weights of lines 69-78, in their order. */
  const Weights: seq<(string, real)> := [
    ("readability_score", 0.15), ("recommendation_density", 0.2), ("structure_score", 0.1),
    ("specificity_score", 0.15), ("data_coverage", 0.1), ("problem_accuracy", 0.1),
    ("actionability", 0.1), ("safety", 0.1)]

  /** Lines 84-89: the automatic value when there is one, else ten times the
      judge's score when the judge gave a non-empty score map holding the key;
      `None` skips the key. */
  function ValueFor(key: string, auto: map<string, real>, judge: Option<map<string, int>>): (r: Option<real>)
    ensures key in auto ==> r == Some(auto[key])
    ensures r.None? <==> key !in auto && (judge.None? || key !in judge.value)
  {
    if key in auto then Some(auto[key])
    else if judge.Some? && judge.value != map[] && key in judge.value then Some((judge.value[key] * 10) as real)
    else None
  }

  /** The term one weighted key contributes: none when it has no value. */
  function TermFor(kw: (string, real), auto: map<string, real>, judge: Option<map<string, int>>): (r: seq<Numeric.Term>)
    ensures |r| <= 1
  {
    match ValueFor(kw.0, auto, judge)
    case Some(v) => [Numeric.Term(kw.1, v)]
    case None => []
  }

  /** The weighted terms of the keys that have a value, in weight order. */
  function UsedTerms(weights: seq<(string, real)>, auto: map<string, real>, judge: Option<map<string, int>>): (r: seq<Numeric.Term>)
    ensures |r| <= |weights|
  {
    if weights == [] then []
    else UsedTerms(weights[..|weights| - 1], auto, judge) + TermFor(weights[|weights| - 1], auto, judge)
  }

  lemma UsedTermsStep(weights: seq<(string, real)>, i: nat, auto: map<string, real>, judge: Option<map<string, int>>)
    requires i < |weights|
    ensures UsedTerms(weights[..i + 1], auto, judge) == UsedTerms(weights[..i], auto, judge) + TermFor(weights[i], auto, judge)
  {
    assert weights[..i + 1][..i] == weights[..i];
  }

  lemma TotalsStep(ts: seq<Numeric.Term>, t: Numeric.Term)
    ensures Numeric.WeightedTotal(ts + [t]) == Numeric.WeightedTotal(ts) + t.value * t.weight
    ensures Numeric.WeightTotal(ts + [t]) == Numeric.WeightTotal(ts) + t.weight
  {
    assert (ts + [t])[..|ts|] == ts;
  }

  /** `compose_overall_score` before rounding. */
  function OverallScore(auto: map<string, real>, judge: Option<map<string, int>>): real {
    Numeric.WeightedMean(UsedTerms(Weights, auto, judge))
  }

  /** Lines 80-94: the weighted sum over the used keys of a weight table,
      divided by their weights; 0 when no key is used. */
  method WeightedScore(ws: seq<(string, real)>, auto: map<string, real>, judge: Option<map<string, int>>) returns (score: real)
    ensures score == Numeric.WeightedMean(UsedTerms(ws, auto, judge))
  {
    var total := 0.0;
    var wsum := 0.0;
    for i := 0 to |ws|
      invariant total == Numeric.WeightedTotal(UsedTerms(ws[..i], auto, judge))
      invariant wsum == Numeric.WeightTotal(UsedTerms(ws[..i], auto, judge))
    {
      var k := ws[i].0;
      var w := ws[i].1;
      UsedTermsStep(ws, i, auto, judge);
      var val := ValueFor(k, auto, judge);
      if val.Some? {
        var term := Numeric.Term(w, val.value);
        assert TermFor(ws[i], auto, judge) == [term];
        TotalsStep(UsedTerms(ws[..i], auto, judge), term);
        total := total + term.value * term.weight;
        wsum := wsum + term.weight;
      } else {
        assert UsedTerms(ws[..i], auto, judge) + TermFor(ws[i], auto, judge) == UsedTerms(ws[..i], auto, judge);
      }
    }
    assert ws[..|ws|] == ws;
    score := if wsum > 0.0 then total / wsum else 0.0;
  }

  /** `compose_overall_score` with the weights of lines 69-78. */
  method ComposeOverallScore(auto: map<string, real>, judge: Option<map<string, int>>) returns (score: real)
    ensures score == OverallScore(auto, judge)
  {
    score := WeightedScore(Weights, auto, judge);
  }

  /** Every used term is a positive weight of the list with the value `ValueFor` picks. */
  lemma {:induction false} UsedTermsAreWeightedValues(weights: seq<(string, real)>, auto: map<string, real>, judge: Option<map<string, int>>)
    ensures forall t :: t in UsedTerms(weights, auto, judge) ==>
      exists i :: 0 <= i < |weights| && t.weight == weights[i].1 && ValueFor(weights[i].0, auto, judge) == Some(t.value)
    ensures |UsedTerms(weights, auto, judge)| == 0 <==> forall i :: 0 <= i < |weights| ==> ValueFor(weights[i].0, auto, judge).None?
  {
    if weights != [] {
      var init := weights[..|weights| - 1];
      UsedTermsAreWeightedValues(init, auto, judge);
      assert forall i :: 0 <= i < |init| ==> init[i] == weights[i];
    }
  }

  /** With every automatic value in [0, 100] and every judge score in [1, 10],
      the overall score lies in [0, 100], and it is 0 when none of the weighted
      keys has a value. The hypothesis does not hold of every real input: the
      recommendation density is a share times 1000, so it exceeds 100 once more
      than a tenth of the words carry a keyword, and the overall score can then
      exceed 100 as well. */
  lemma OverallScoreBounds(auto: map<string, real>, judge: Option<map<string, int>>)
    requires forall k :: k in auto ==> 0.0 <= auto[k] <= 100.0
    requires judge.Some? ==> forall k :: k in judge.value ==> 1 <= judge.value[k] <= 10
    ensures 0.0 <= OverallScore(auto, judge) <= 100.0
    ensures (forall i :: 0 <= i < |Weights| ==> ValueFor(Weights[i].0, auto, judge).None?) ==> OverallScore(auto, judge) == 0.0
  {
    var ts := UsedTerms(Weights, auto, judge);
    UsedTermsAreWeightedValues(Weights, auto, judge);
    forall i | 0 <= i < |ts| ensures ts[i].weight >= 0.0 && 0.0 <= ts[i].value <= 100.0 {
      assert ts[i] in ts;
      var j :| 0 <= j < |Weights| && ts[i].weight == Weights[j].1 && ValueFor(Weights[j].0, auto, judge) == Some(ts[i].value);
    }
    Numeric.WeightedMeanBounds(ts, 0.0, 100.0);
    if forall i :: 0 <= i < |Weights| ==> ValueFor(Weights[i].0, auto, judge).None? {
      assert ts == [];
    }
  }

  /** An automatic value wins over the judge's score of the same key. */
  lemma AutoTakesPrecedence(auto: map<string, real>, judge: Option<map<string, int>>, other: Option<map<string, int>>)
    requires forall i :: 0 <= i < |Weights| ==> Weights[i].0 in auto
    ensures OverallScore(auto, judge) == OverallScore(auto, other)
  {
    UsedTermsIgnoreJudge(Weights, auto, judge, other);
  }

  lemma {:induction false} UsedTermsIgnoreJudge(weights: seq<(string, real)>, auto: map<string, real>, judge: Option<map<string, int>>, other: Option<map<string, int>>)
    requires forall i :: 0 <= i < |weights| ==> weights[i].0 in auto
    ensures UsedTerms(weights, auto, judge) == UsedTerms(weights, auto, other)
  {
    if weights != [] {
      var init := weights[..|weights| - 1];
      assert forall i :: 0 <= i < |init| ==> init[i] == weights[i];
      UsedTermsIgnoreJudge(init, auto, judge, other);
    }
  }

  // ---------------------------------------------------------------------------
  // Summary

  /** What `summarize` reads of one result; judge scores are `None` when the judge gave none. */
  datatype AbResult = AbResult(variant: string, overallScore: real, geminiLatency: real, ragLatency: real,
                               judgeScores: Option<map<string, real>>)

  datatype VariantSummary = VariantSummary(count: nat, avgOverallScore: real, avgGeminiLatency: real,
                                           avgRagLatency: real, avgJudgeSafety: Option<real>)

  datatype Summary = Summary(variants: seq<(string, VariantSummary)>, winner: (Option<string>, real))

  function ResultsOf(results: seq<AbResult>, v: string): (r: seq<AbResult>)
    ensures forall x :: x in r <==> x in results && x.variant == v
  {
    Text.Filter(results, (x: AbResult) => x.variant == v)
  }

  function Overalls(rs: seq<AbResult>): seq<real> {
    seq(|rs|, i requires 0 <= i < |rs| => rs[i].overallScore)
  }

  function GeminiLatencies(rs: seq<AbResult>): seq<real> {
    seq(|rs|, i requires 0 <= i < |rs| => rs[i].geminiLatency)
  }

  function RagLatencies(rs: seq<AbResult>): seq<real> {
    seq(|rs|, i requires 0 <= i < |rs| => rs[i].ragLatency)
  }

  predicate HasSafety(x: AbResult) {
    x.judgeScores.Some? && "safety" in x.judgeScores.value
  }

  /** Lines 225-229: the safety scores of the results that have one. */
  function SafetyScores(rs: seq<AbResult>): (r: seq<real>)
    ensures r == [] <==> forall x :: x in rs ==> !HasSafety(x)
  {
    var with := Text.Filter(rs, HasSafety);
    assert forall i :: 0 <= i < |with| ==> HasSafety(with[i]) by {
      forall i | 0 <= i < |with| ensures HasSafety(with[i]) {
        assert with[i] in with;
      }
    }
    assert with == [] <==> forall x :: x in rs ==> !HasSafety(x) by {
      if with != [] {
        assert with[0] in with;
      }
    }
    seq(|with|, i requires 0 <= i < |with| => with[i].judgeScores.value["safety"])
  }

  /** Lines 230-238 for a variant with results. */
  function VariantSummaryOf(rs: seq<AbResult>): VariantSummary
    requires rs != []
  {
    var safety := SafetyScores(rs);
    VariantSummary(|rs|, Numeric.Mean(Overalls(rs)), Numeric.Mean(GeminiLatencies(rs)), Numeric.Mean(RagLatencies(rs)),
      if safety == [] then None else Some(Numeric.Mean(safety)))
  }

  function Names(entries: seq<(string, VariantSummary)>): (r: seq<string>)
    ensures |r| == |entries| && forall i :: 0 <= i < |entries| ==> r[i] == entries[i].0
  {
    seq(|entries|, i requires 0 <= i < |entries| => entries[i].0)
  }

  /** Lines 220-238: the summary dictionary's entries in insertion order; a
      variant without results is skipped, and a variant listed twice keeps its
      first place (the second assignment stores the same value). */
  function Entries(variants: seq<string>, results: seq<AbResult>): (r: seq<(string, VariantSummary)>)
  {
    if variants == [] then []
    else
      var e := Entries(variants[..|variants| - 1], results);
      var v := variants[|variants| - 1];
      if v in Names(e) || ResultsOf(results, v) == [] then e
      else e + [(v, VariantSummaryOf(ResultsOf(results, v)))]
  }

  /** Exactly the listed variants with results appear, each once, with the count
      and averages of its own results. */
  lemma EntriesAreTheVariantsWithResults(variants: seq<string>, results: seq<AbResult>)
    ensures Text.Distinct(Names(Entries(variants, results)))
    ensures forall v :: v in Names(Entries(variants, results)) <==> v in variants && ResultsOf(results, v) != []
    ensures forall i :: 0 <= i < |Entries(variants, results)| ==>
      var (v, s) := Entries(variants, results)[i];
      ResultsOf(results, v) != [] && s == VariantSummaryOf(ResultsOf(results, v))
  {
    EntryNames(variants, results);
    EntrySummaries(variants, results);
  }

  lemma {:induction false} EntryNames(variants: seq<string>, results: seq<AbResult>)
    ensures Text.Distinct(Names(Entries(variants, results)))
    ensures forall v :: v in Names(Entries(variants, results)) <==> v in variants && ResultsOf(results, v) != []
  {
    if variants != [] {
      var init := variants[..|variants| - 1];
      EntryNames(init, results);
      var e := Entries(init, results);
      var v := variants[|variants| - 1];
      assert forall x :: x in variants <==> x in init || x == v;
      if v in Names(e) || ResultsOf(results, v) == [] {
        assert Entries(variants, results) == e;
      } else {
        var e2 := e + [(v, VariantSummaryOf(ResultsOf(results, v)))];
        assert Entries(variants, results) == e2;
        assert Names(e2) == Names(e) + [v];
        Text.DistinctAppend(Names(e), v);
      }
    }
  }

  lemma {:induction false} EntrySummaries(variants: seq<string>, results: seq<AbResult>)
    ensures forall i :: 0 <= i < |Entries(variants, results)| ==>
      var (v, s) := Entries(variants, results)[i];
      ResultsOf(results, v) != [] && s == VariantSummaryOf(ResultsOf(results, v))
  {
    if variants != [] {
      EntrySummaries(variants[..|variants| - 1], results);
    }
  }

  /** A variant's average safety is missing exactly when none of its results has a safety score. */
  lemma SafetyAverageMissingWithoutScores(rs: seq<AbResult>)
    requires rs != []
    ensures VariantSummaryOf(rs).avgJudgeSafety.None? <==> forall x :: x in rs ==> !HasSafety(x)
    ensures VariantSummaryOf(rs).count == |rs|
  {
  }

  /** Lines 241-247: the first entry with a strictly greater average wins;
      the search starts from no variant and a score of -1. */
  function Best(entries: seq<(string, VariantSummary)>): (r: (Option<string>, real))
  {
    if entries == [] then (None, -1.0)
    else
      var b := Best(entries[..|entries| - 1]);
      var (v, s) := entries[|entries| - 1];
      if s.avgOverallScore > b.1 then (Some(v), s.avgOverallScore) else b
  }

  /** Some entry `k` is the winner: its name and average, with every earlier average strictly smaller. */
  predicate WinsAt(entries: seq<(string, VariantSummary)>, best: (Option<string>, real))
    requires best.0.Some?
  {
    exists k :: 0 <= k < |entries| && entries[k].0 == best.0.value && entries[k].1.avgOverallScore == best.1 &&
      (forall j :: 0 <= j < k ==> entries[j].1.avgOverallScore < best.1)
  }

  /** The winner has the greatest average of all entries, strictly greater than
      every earlier entry's; there is no winner only when no average exceeds -1. */
  lemma {:induction false} BestIsFirstMaximum(entries: seq<(string, VariantSummary)>)
    ensures Best(entries).0.None? <==> Best(entries).1 == -1.0 && forall i :: 0 <= i < |entries| ==> entries[i].1.avgOverallScore <= -1.0
    ensures Best(entries).1 >= -1.0
    ensures forall i :: 0 <= i < |entries| ==> entries[i].1.avgOverallScore <= Best(entries).1
    ensures Best(entries).0.Some? ==> WinsAt(entries, Best(entries))
  {
    if entries != [] {
      var init := entries[..|entries| - 1];
      BestIsFirstMaximum(init);
      assert forall i :: 0 <= i < |init| ==> init[i] == entries[i];
      var b := Best(init);
      var last := entries[|entries| - 1];
      if last.1.avgOverallScore > b.1 {
        assert entries[|entries| - 1].0 == Best(entries).0.value;
      } else if b.0.Some? {
        var k :| 0 <= k < |init| && init[k].0 == b.0.value && init[k].1.avgOverallScore == b.1 &&
          forall j :: 0 <= j < k ==> init[j].1.avgOverallScore < b.1;
        assert entries[k] == init[k];
      }
    }
  }

  /** `SleepABOfflineTester.summarize` over the tester's variants and collected results. */
  method Summarize(variants: seq<string>, results: seq<AbResult>) returns (r: Option<Summary>)
    ensures r.None? <==> results == []
    ensures r.Some? ==> r.value.variants == Entries(variants, results) && r.value.winner == Best(Entries(variants, results))
  {
    if results == [] {
      return None;
    }
    var entries: seq<(string, VariantSummary)> := [];
    for i := 0 to |variants|
      invariant entries == Entries(variants[..i], results)
    {
      var v := variants[i];
      ghost var before := entries;
      var vRes := ResultsOf(results, v);
      if vRes != [] && v !in Names(entries) {
        entries := entries + [(v, VariantSummaryOf(vRes))];
      }
      EntriesStep(variants, i, results, before, entries);
    }
    assert variants[..|variants|] == variants;
    var bestVariant: Option<string> := None;
    var bestScore := -1.0;
    for j := 0 to |entries|
      invariant (bestVariant, bestScore) == Best(entries[..j])
    {
      ghost var before := (bestVariant, bestScore);
      var (v, data) := entries[j];
      if data.avgOverallScore > bestScore {
        bestScore := data.avgOverallScore;
        bestVariant := Some(v);
      }
      BestStep(entries, j, before, (bestVariant, bestScore));
    }
    assert entries[..|entries|] == entries;
    r := Some(Summary(entries, (bestVariant, bestScore)));
  }

  lemma EntriesStep(variants: seq<string>, i: nat, results: seq<AbResult>, entries: seq<(string, VariantSummary)>,
                    entries': seq<(string, VariantSummary)>)
    requires i < |variants| && entries == Entries(variants[..i], results)
    requires var v := variants[i];
      entries' == if ResultsOf(results, v) != [] && v !in Names(entries) then entries + [(v, VariantSummaryOf(ResultsOf(results, v)))] else entries
    ensures entries' == Entries(variants[..i + 1], results)
  {
    assert variants[..i + 1][..i] == variants[..i];
  }

  lemma BestStep(entries: seq<(string, VariantSummary)>, j: nat, best: (Option<string>, real), best': (Option<string>, real))
    requires j < |entries| && best == Best(entries[..j])
    requires best' == if entries[j].1.avgOverallScore > best.1 then (Some(entries[j].0), entries[j].1.avgOverallScore) else best
    ensures best' == Best(entries[..j + 1])
  {
    assert entries[..j + 1][..j] == entries[..j];
  }
}
