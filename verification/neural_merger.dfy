/**
 * The AI pipeline's `NeuralMerger`, which folds the page maps returned by several processors
 * into one, keeping for every page the longest text (the earliest on a tie), and the
 * placeholder `QualityScorer`, whose score depends only on the number of words.
 */
module NeuralMerger {
  import opened Strings

  /** What `asyncio.gather(..., return_exceptions=True)` yields for one task. */
  datatype Outcome<+T> = Success(value: T) | Failure(message: string)

  /** A processor's answer: page number to page text. */
  type PageMap = map<int, string>

  // ---------------------------------------------------------------------------------------
  // QualityScorer
  // ---------------------------------------------------------------------------------------

  /** The names in `QualityScorer.metrics`, which are also the keys of the metric map. */
  const MetricNames: seq<string> := ["completeness", "coherence", "readability"]

  /** The placeholder `QualityScorer`: it only names its metrics. */
  class Scorer {
    var metrics: seq<string>

    constructor ()
      ensures metrics == MetricNames
    {
      metrics := MetricNames;
    }
  }

  /** `_calculate_coherence`: a placeholder constant. */
  const Coherence: real := 0.8

  /** `_calculate_readability`: a placeholder constant. */
  const Readability: real := 0.7

  datatype TextScore = TextScore(totalScore: real, metrics: map<string, real>)

  /** `min(len(words) / 100, 1.0)`: true division, and `min` keeps its first argument unless
      the second is smaller. */
  function Completeness(wordCount: nat): (c: real)
    ensures 0.0 <= c <= 1.0
    ensures wordCount <= 100 ==> c * 100.0 == wordCount as real
    ensures wordCount >= 100 ==> c == 1.0
  {
    var ratio := wordCount as real / 100.0;
    if 1.0 < ratio then 1.0 else ratio
  }

  /** `score_text`: the three metrics and their mean. */
  function ScoreText(text: string): (r: TextScore)
    ensures r.metrics.Keys == {"completeness", "coherence", "readability"}
    ensures r.metrics["completeness"] == Completeness(|Words(text)|)
    ensures r.metrics["coherence"] == 0.8 && r.metrics["readability"] == 0.7
    ensures r.totalScore * 3.0 == Completeness(|Words(text)|) + 1.5
    ensures 0.5 <= r.totalScore <= 5.0 / 6.0
  {
    var scores := map["completeness" := Completeness(|Words(text)|),
                      "coherence" := Coherence,
                      "readability" := Readability];
    TextScore(Mean3(scores["completeness"], scores["coherence"], scores["readability"]), scores)
  }

  /** `np.mean` of three values. */
  function Mean3(a: real, b: real, c: real): (m: real)
    ensures m * 3.0 == a + b + c
  {
    (a + b + c) / 3.0
  }

  /** More words never lower the score, and from 100 words on it no longer grows. */
  lemma ScoreMonotone(s: string, t: string)
    requires |Words(s)| <= |Words(t)|
    ensures ScoreText(s).totalScore <= ScoreText(t).totalScore
    ensures |Words(s)| >= 100 ==> ScoreText(s).totalScore == ScoreText(t).totalScore
  {
    var a, b := Completeness(|Words(s)|), Completeness(|Words(t)|);
    assert a <= b by {
      if |Words(t)| < 100 {
        assert a * 100.0 <= b * 100.0;
      }
    }
  }

  /** Blank text has no words, so it scores the constants' share alone: one half. */
  lemma BlankTextScore(text: string)
    requires IsBlank(text)
    ensures ScoreText(text).totalScore == 0.5
  {
    WordsBlank(text);
  }

  // ---------------------------------------------------------------------------------------
  // NeuralMerger
  // ---------------------------------------------------------------------------------------

  /** `_combine_content`: `max([existing, new], key=len)`, which returns the first of two
      strings of equal length. */
  function CombineContent(existing: string, incoming: string): (r: string)
    ensures r == existing || r == incoming
    ensures |r| >= |existing| && |r| >= |incoming|
    ensures |incoming| <= |existing| ==> r == existing
  {
    if |incoming| > |existing| then incoming else existing
  }

  /** One result folded into the merged map: a new page is taken as it is, a known one is
      combined with what is there. */
  function MergeInto(merged: PageMap, result: PageMap): (r: PageMap)
    ensures r.Keys == merged.Keys + result.Keys
  {
    map k | k in merged.Keys + result.Keys :: MergedPage(merged, result, k)
  }

  /** Page `k` after folding `result` into `merged`. */
  function MergedPage(merged: PageMap, result: PageMap, k: int): string
    requires k in merged || k in result
  {
    if k !in result then merged[k]
    else if k !in merged then result[k]
    else CombineContent(merged[k], result[k])
  }

  /** What `merge_results` returns for `results`, folded from the front. */
  function MergeAll(results: seq<Outcome<PageMap>>): PageMap
    decreases |results|
  {
    if results == [] then map[]
    else
      var prev := MergeAll(results[..|results| - 1]);
      match results[|results| - 1]
      case Failure(_) => prev
      case Success(m) => MergeInto(prev, m)
  }

  /** Entry `j` is a successful result that has page `k`. */
  ghost predicate Contributes(results: seq<Outcome<PageMap>>, j: int, k: int) {
    0 <= j < |results| && results[j].Success? && k in results[j].value
  }

  /** `v` is the text of page `k` in entry `i`, no contributing text is longer, and every
      contributing entry before `i` is strictly shorter. */
  ghost predicate EarliestLongest(results: seq<Outcome<PageMap>>, k: int, i: int, v: string) {
    && Contributes(results, i, k) && results[i].value[k] == v
    && (forall j :: Contributes(results, j, k) ==> |results[j].value[k]| <= |v|)
    && (forall j :: 0 <= j < i && Contributes(results, j, k) ==> |results[j].value[k]| < |v|)
  }

  /** The merged pages are exactly the pages of the successful results: failures are skipped. */
  lemma {:induction false} MergeAllKeys(results: seq<Outcome<PageMap>>, k: int)
    ensures k in MergeAll(results) <==> exists j :: Contributes(results, j, k)
    decreases |results|
  {
    if results != [] {
      var n := |results| - 1;
      var front := results[..n];
      MergeAllKeys(front, k);
      if exists j :: Contributes(front, j, k) {
        var j :| Contributes(front, j, k);
        assert Contributes(results, j, k);
      }
      if exists j :: Contributes(results, j, k) {
        var j :| Contributes(results, j, k);
        if j < n {
          assert Contributes(front, j, k);
        }
      }
      if k in MergeAll(results) && k !in MergeAll(front) {
        assert Contributes(results, n, k);
      }
    }
  }

  /** Every merged page holds the longest text any successful result gave for it, the earliest
      one among equally long texts. */
  lemma {:induction false} MergeAllLongest(results: seq<Outcome<PageMap>>, k: int)
    requires k in MergeAll(results)
    ensures exists i :: EarliestLongest(results, k, i, MergeAll(results)[k])
    decreases |results|
  {
    var n := |results| - 1;
    var front := results[..n];
    var prev := MergeAll(front);
    var v := MergeAll(results)[k];
    forall j | 0 <= j < n ensures results[j] == front[j] { }
    if k in prev {
      MergeAllLongest(front, k);
      var i :| EarliestLongest(front, k, i, prev[k]);
      if results[n].Success? && k in results[n].value && |results[n].value[k]| > |prev[k]| {
        assert v == results[n].value[k];
        forall j | Contributes(results, j, k) ensures |results[j].value[k]| <= |v| {
          if j < n { assert Contributes(front, j, k); }
        }
        forall j | 0 <= j < n && Contributes(results, j, k) ensures |results[j].value[k]| < |v| {
          assert Contributes(front, j, k);
        }
        assert EarliestLongest(results, k, n, v);
      } else {
        assert v == prev[k];
        forall j | Contributes(results, j, k) ensures |results[j].value[k]| <= |v| {
          if j < n { assert Contributes(front, j, k); }
        }
        forall j | 0 <= j < i && Contributes(results, j, k) ensures |results[j].value[k]| < |v| {
          assert Contributes(front, j, k);
        }
        assert EarliestLongest(results, k, i, v);
      }
    } else {
      MergeAllKeys(front, k);
      assert results[n].Success? && k in results[n].value && v == results[n].value[k];
      forall j | Contributes(results, j, k) ensures j == n {
        if j < n { assert Contributes(front, j, k); }
      }
      assert EarliestLongest(results, k, n, v);
    }
  }

  /** No results give an empty map, and a single map comes back unchanged. */
  lemma MergeAllSingle(m: PageMap)
    ensures MergeAll([]) == map[]
    ensures MergeAll([Success(m)]) == m
  {
    var rs: seq<Outcome<PageMap>> := [Success(m)];
    var r := MergeAll(rs);
    assert rs[..|rs| - 1] == [] && rs[|rs| - 1] == Success(m);
    assert r == MergeInto(MergeAll([]), m);
    forall k | k in m ensures r[k] == m[k] { }
  }

  /** `NeuralMerger`: its threshold is set and never read. */
  class Merger {
    var confidenceThreshold: real

    constructor ()
      ensures confidenceThreshold == 0.7
    {
      confidenceThreshold := 0.7;
    }

    /** `merge_results`: walk the results in order, skip failures, and fold every page of a
        successful result into `merged`. */
    method MergeResults(results: seq<Outcome<PageMap>>) returns (merged: PageMap)
      ensures merged == MergeAll(results)
    {
      merged := map[];
      for i := 0 to |results|
        invariant merged == MergeAll(results[..i])
      {
        assert results[..i + 1][..i] == results[..i];
        var result := results[i];
        if result.Failure? {
          continue;
        }
        merged := MergePage(merged, result.value);
      }
      assert results[..|results|] == results;
    }
  }

  /** `merged` is `base` with the pages `done` of `result` folded in. */
  ghost predicate FoldedIn(merged: PageMap, base: PageMap, result: PageMap, done: set<int>)
    requires done <= result.Keys
  {
    && merged.Keys == base.Keys + done
    && forall k :: k in merged ==>
         merged[k] == if k in done then MergedPage(base, result, k) else base[k]
  }

  /** The inner loop of `merge_results`: the pages of one result, in some order. */
  method MergePage(base: PageMap, result: PageMap) returns (merged: PageMap)
    ensures merged == MergeInto(base, result)
  {
    merged := base;
    var todo := result.Keys;
    ghost var done: set<int> := {};
    while todo != {}
      invariant todo + done == result.Keys && todo * done == {}
      invariant FoldedIn(merged, base, result, done)
      decreases todo
    {
      if forall z :: z !in todo { assert false; }
      var pageNum :| pageNum in todo;
      var content := result[pageNum];
      ghost var before := merged;
      if pageNum !in merged {
        merged := merged[pageNum := content];
      } else {
        merged := merged[pageNum := CombineContent(merged[pageNum], content)];
      }
      assert merged == before[pageNum := MergedPage(base, result, pageNum)];
      FoldOnePage(before, base, result, done, pageNum);
      todo := todo - {pageNum};
      done := done + {pageNum};
    }
    MergeIntoPointwise(base, result, merged, done);
  }

  lemma FoldOnePage(merged: PageMap, base: PageMap, result: PageMap, done: set<int>, k: int)
    requires done <= result.Keys && k in result && k !in done
    requires FoldedIn(merged, base, result, done)
    ensures FoldedIn(merged[k := MergedPage(base, result, k)], base, result, done + {k})
  {
  }

  /** Once every page is folded in, the map is the merged map. */
  lemma MergeIntoPointwise(base: PageMap, result: PageMap, merged: PageMap, done: set<int>)
    requires done == result.Keys
    requires FoldedIn(merged, base, result, done)
    ensures merged == MergeInto(base, result)
  {
  }
}
