/**
 * The OCR service's `OCRWorker`: its confidence formula and the conversion of the OCR
 * service's answers into processor results. The HTTP requests are left out; the decoded JSON
 * answer is the input.
 */
module OcrWorker {
  import opened Wrappers
  import opened Strings
  import opened Scores

  const ProcessorName: string := "ocr_worker"

  /** The weights of `_calculate_confidence`. */
  const OcrWeight: real := 0.6
  const TextWeight: real := 0.2
  const AlphaWeight: real := 0.2

  /** The confidence a response without one is given. */
  const DefaultConfidence: real := 0.5

  /** `min(1.0, len(words) / 100)`. */
  function TextScore(wordCount: nat): (s: real)
    ensures 0.0 <= s <= 1.0
    ensures wordCount < 100 ==> s * 100.0 == wordCount as real
    ensures wordCount >= 100 ==> s == 1.0
  {
    var ratio := wordCount as real / 100.0;
    if ratio < 1.0 then ratio else 1.0
  }

  /** The weighted sum before clamping. */
  function RawScore(text: string, ocrConfidence: real): (s: real)
    ensures 0.0 <= ocrConfidence <= 1.0 ==> 0.0 <= s <= 1.0
  {
    ocrConfidence * OcrWeight + TextScore(|Words(text)|) * TextWeight + AlphaRatio(text) * AlphaWeight
  }

  /** `_calculate_confidence`: blank text scores 0; otherwise the weighted sum of the OCR
      confidence, the word-count factor and the share of letters, clamped into `[0.1, 1.0]`. */
  function Confidence(text: string, ocrConfidence: real): (c: real)
    ensures IsBlank(text) ==> c == 0.0
    ensures !IsBlank(text) ==> 0.1 <= c <= 1.0
  {
    if IsBlank(text) then 0.0 else Clamp(RawScore(text, ocrConfidence))
  }

  /** A higher OCR confidence never gives a lower score. */
  lemma ConfidenceMonotone(text: string, c1: real, c2: real)
    requires c1 <= c2
    ensures Confidence(text, c1) <= Confidence(text, c2)
  {
    if !IsBlank(text) {
      ClampMonotone(RawScore(text, c1), RawScore(text, c2));
    }
  }

  /** For an OCR confidence in `[0, 1]` the weighted sum never exceeds 1, so only the lower end
      of the clamp can act, and a sum of at least 0.1 is returned as it is. */
  lemma UpperClampIdle(text: string, ocrConfidence: real)
    requires !IsBlank(text) && 0.0 <= ocrConfidence <= 1.0
    ensures RawScore(text, ocrConfidence) <= 1.0
    ensures Confidence(text, ocrConfidence)
         == if RawScore(text, ocrConfidence) < 0.1 then 0.1 else RawScore(text, ocrConfidence)
  {
  }

  /** The decoded JSON answer for one page: `text` may be missing, and so may the optional
      fields. */
  datatype Response = Response(text: Option<string>, confidence: Option<real>,
                               languages: Option<seq<string>>, processingTime: Option<real>)

  datatype OcrMetadata = OcrMetadata(ocrEngine: string, language: string, dpi: int,
                                     enhancementApplied: bool, detectedLanguages: seq<string>,
                                     processingTime: real)

  datatype PageResult = PageResult(processorName: string, pageNumber: int, content: string,
                                   confidence: real, metadata: OcrMetadata)

  /** The worker's settings. */
  datatype Worker = Worker(serviceUrl: string, language: string, dpi: int)

  /** `OCRWorker()`: the default settings. */
  function NewWorker(): (w: Worker)
    ensures w.serviceUrl == "http://ocr-tesseract:8004" && w.language == "eng" && w.dpi == 300
  {
    Worker("http://ocr-tesseract:8004", "eng", 300)
  }

  /** `d.get(key, default)`. */
  function GetOr<T>(o: Option<T>, default: T): (r: T)
    ensures o.Some? ==> r == o.value
    ensures o.None? ==> r == default
  {
    if o.Some? then o.value else default
  }

  /** The `ProcessorResult` built from one answer; a missing `text` is the `KeyError` that
      `result['text']` raises. */
  function ToResult(w: Worker, pageNumber: int, r: Response): (res: Result<PageResult, string>)
    ensures res.Ok? <==> r.text.Some?
    ensures res.Ok? ==> res.value.pageNumber == pageNumber && res.value.content == r.text.value
    ensures res.Ok? ==> res.value.confidence == if r.confidence.Some? then r.confidence.value else 0.5
    ensures res.Ok? ==> res.value.metadata.language == w.language && res.value.metadata.dpi == w.dpi
    ensures res.Ok? ==> res.value.metadata.detectedLanguages
                        == if r.languages.Some? then r.languages.value else []
  {
    if r.text.None? then Err("KeyError: 'text'")
    else
      Ok(PageResult(ProcessorName, pageNumber, r.text.value, GetOr(r.confidence, DefaultConfidence),
                    OcrMetadata("tesseract", w.language, w.dpi, true, GetOr(r.languages, []),
                                GetOr(r.processingTime, 0.0))))
  }

  /** `process_page` once the service has answered. */
  function ProcessPage(w: Worker, pageNumber: int, r: Response): (res: Result<PageResult, string>)
    ensures res == ToResult(w, pageNumber, r)
    ensures res.Ok? ==> res.value.processorName == "ocr_worker"
  {
    ToResult(w, pageNumber, r)
  }

  /** The results of a batch answer, given as its `(key, answer)` items in order, where
      `parseInt` is `int()` on a key: every item is stored under its parsed key, a later item
      replacing an earlier one with the same key. */
  function ConvertBatch(w: Worker, items: seq<(string, Response)>, parseInt: string -> Option<int>)
    : Result<map<int, PageResult>, string>
    decreases |items|
  {
    if items == [] then Ok(map[])
    else
      var n := |items| - 1;
      var prev := ConvertBatch(w, items[..n], parseInt);
      if prev.Err? then prev
      else
        var (key, answer) := items[n];
        var page := parseInt(key);
        if page.None? then Err("ValueError: invalid literal for int()")
        else
          var res := ToResult(w, page.value, answer);
          if res.Err? then Err(res.error) else Ok(prev.value[page.value := res.value])
  }

  /** Some item's key parses to `k`. */
  ghost predicate HasKey(items: seq<(string, Response)>, parseInt: string -> Option<int>, k: int) {
    exists i :: 0 <= i < |items| && parseInt(items[i].0) == Some(k)
  }

  /** Item `i` is the last one whose key parses to `k`. */
  ghost predicate LastWith(items: seq<(string, Response)>, parseInt: string -> Option<int>,
                           k: int, i: int) {
    && 0 <= i < |items| && parseInt(items[i].0) == Some(k)
    && forall j :: i < j < |items| ==> parseInt(items[j].0) != Some(k)
  }

  /** What the converted map `m` holds at `k`: an entry exactly when some key parses to `k`, and
      then the result of the last such item, whose page number is `k`. */
  ghost predicate EntryAt(w: Worker, items: seq<(string, Response)>, parseInt: string -> Option<int>,
                          m: map<int, PageResult>, k: int) {
    && (k in m <==> HasKey(items, parseInt, k))
    && (k in m ==> m[k].pageNumber == k
                   && exists i :: LastWith(items, parseInt, k, i) && Ok(m[k]) == ToResult(w, k, items[i].1))
  }

  /** A converted batch holds one result per parsed key; each result's page number is its key
      and it comes from the last item with that key. */
  lemma {:induction false} ConvertBatchKeys(w: Worker, items: seq<(string, Response)>,
                                            parseInt: string -> Option<int>, k: int)
    requires ConvertBatch(w, items, parseInt).Ok?
    ensures EntryAt(w, items, parseInt, ConvertBatch(w, items, parseInt).value, k)
    decreases |items|
  {
    if items != [] {
      var n := |items| - 1;
      var page, r := ConvertBatchLast(w, items, parseInt);
      ConvertBatchKeys(w, items[..n], parseInt, k);
      EntryAtSnoc(w, items[..n], items[n], parseInt, ConvertBatch(w, items[..n], parseInt).value,
                  page, r, k);
    }
  }

  /** The last item of a batch that converts, stored over the conversion of the others. */
  lemma ConvertBatchLast(w: Worker, items: seq<(string, Response)>, parseInt: string -> Option<int>)
    returns (page: int, r: PageResult)
    requires items != [] && ConvertBatch(w, items, parseInt).Ok?
    ensures items == items[..|items| - 1] + [items[|items| - 1]]
    ensures ConvertBatch(w, items[..|items| - 1], parseInt).Ok?
    ensures parseInt(items[|items| - 1].0) == Some(page)
    ensures ToResult(w, page, items[|items| - 1].1) == Ok(r)
    ensures ConvertBatch(w, items, parseInt).value
         == ConvertBatch(w, items[..|items| - 1], parseInt).value[page := r]
  {
    var n := |items| - 1;
    page := parseInt(items[n].0).value;
    r := ToResult(w, page, items[n].1).value;
    assert items == items[..n] + [items[n]];
  }

  /** Storing one more item's result under its parsed key. */
  lemma EntryAtSnoc(w: Worker, front: seq<(string, Response)>, last: (string, Response),
                    parseInt: string -> Option<int>, prev: map<int, PageResult>, page: int,
                    r: PageResult, k: int)
    requires parseInt(last.0) == Some(page) && ToResult(w, page, last.1) == Ok(r)
    requires EntryAt(w, front, parseInt, prev, k)
    ensures EntryAt(w, front + [last], parseInt, prev[page := r], k)
  {
    var items := front + [last];
    var n := |front|;
    var m := prev[page := r];
    if page == k {
      assert LastWith(items, parseInt, k, n);
    } else {
      if HasKey(items, parseInt, k) {
        var i :| 0 <= i < |items| && parseInt(items[i].0) == Some(k);
        assert i < n && front[i] == items[i];
      }
      if HasKey(front, parseInt, k) {
        var i :| 0 <= i < n && parseInt(front[i].0) == Some(k);
        assert front[i] == items[i];
      }
      if k in prev {
        var i :| LastWith(front, parseInt, k, i) && Ok(prev[k]) == ToResult(w, k, front[i].1);
        assert front[i] == items[i];
        assert LastWith(items, parseInt, k, i);
      }
    }
  }

  /** A batch fails exactly when some key does not parse or some answer has no `text`. */
  lemma {:induction false} ConvertBatchErr(w: Worker, items: seq<(string, Response)>,
                                           parseInt: string -> Option<int>)
    ensures ConvertBatch(w, items, parseInt).Err? <==>
      exists i :: 0 <= i < |items| && (parseInt(items[i].0).None? || items[i].1.text.None?)
    decreases |items|
  {
    if items != [] {
      var n := |items| - 1;
      ConvertBatchErr(w, items[..n], parseInt);
      if exists i :: 0 <= i < n && (parseInt(items[..n][i].0).None? || items[..n][i].1.text.None?) {
        var i :| 0 <= i < n && (parseInt(items[..n][i].0).None? || items[..n][i].1.text.None?);
        assert items[..n][i] == items[i];
      }
      if exists i :: 0 <= i < |items| && (parseInt(items[i].0).None? || items[i].1.text.None?) {
        var i :| 0 <= i < |items| && (parseInt(items[i].0).None? || items[i].1.text.None?);
        if i < n {
          assert items[..n][i] == items[i];
        }
      }
    }
  }

  /** The conversion loop of `process_document`. */
  method ProcessDocument(w: Worker, items: seq<(string, Response)>, parseInt: string -> Option<int>)
    returns (r: Result<map<int, PageResult>, string>)
    ensures r == ConvertBatch(w, items, parseInt)
  {
    var results: map<int, PageResult> := map[];
    for t := 0 to |items|
      invariant ConvertBatch(w, items[..t], parseInt) == Ok(results)
    {
      assert items[..t + 1][..t] == items[..t];
      var (pageNum, answer) := items[t];
      var page := parseInt(pageNum);
      if page.None? {
        r := Err("ValueError: invalid literal for int()");
        ConvertBatchErrSticky(w, items, parseInt, t + 1);
        return;
      }
      var res := ToResult(w, page.value, answer);
      if res.Err? {
        r := Err(res.error);
        ConvertBatchErrSticky(w, items, parseInt, t + 1);
        return;
      }
      results := results[page.value := res.value];
    }
    assert items[..|items|] == items;
    r := Ok(results);
  }

  /** Once a prefix of the batch fails, the whole batch fails with the same error. */
  lemma {:induction false} ConvertBatchErrSticky(w: Worker, items: seq<(string, Response)>,
                                                 parseInt: string -> Option<int>, t: nat)
    requires t <= |items| && ConvertBatch(w, items[..t], parseInt).Err?
    ensures ConvertBatch(w, items, parseInt) == ConvertBatch(w, items[..t], parseInt)
    decreases |items| - t
  {
    if t < |items| {
      assert items[..t + 1][..t] == items[..t];
      ConvertBatchErrSticky(w, items, parseInt, t + 1);
    } else {
      assert items[..t] == items;
    }
  }
}
