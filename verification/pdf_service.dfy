/**
 * The PDF processor service: the `processing_tasks` table and its status machine, the checks on
 * an upload, the processing pipeline (extraction, OCR merge-back for the pages that need it,
 * chunking, the result summary) and the guards of the status and result lookups. HTTP, file
 * storage, the background scheduler, the clock and the random task id are not modelled: the
 * uploaded file's name and size, the new task id, the OCR service's answer and the outcome of
 * saving are given to the operations.
 */
module PdfService {
  import opened Wrappers
  import opened Strings
  import opened SortedKeys
  import PdfTextExtractor
  import TextChunker

  type PageContent = PdfTextExtractor.PageContent

  datatype Status = Queued | Processing | Completed | Failed

  /** The status as the service reports it. */
  function StatusName(s: Status): string {
    match s
    case Queued => "QUEUED"
    case Processing => "PROCESSING"
    case Completed => "COMPLETED"
    case Failed => "FAILED"
  }

  /** `ProcessingResult`, without its timestamp. */
  datatype ProcessingResult = ProcessingResult(
    taskId: string, pageCount: nat, chunkCount: nat, ocrUsed: bool,
    content: map<int, PageContent>)

  /** Why processing a task failed; the service stores the exception's text. */
  datatype Failure =
    | ExtractionFailed(extraction: PdfTextExtractor.PdfExtractionError)
    | OcrFailed(message: string)
    | UnknownOcrPage(page: int)
    | ChunkingFailed(chunking: TextChunker.ChunkingError)
    | SaveFailed(message: string)

  /** `ProcessingStatus`, without its timestamp. */
  datatype TaskStatus = TaskStatus(
    taskId: string, filename: string, status: Status, progress: real,
    error: Option<Failure>, result: Option<ProcessingResult>)

  /** The `HTTPException`s of the endpoints. */
  datatype HttpError =
    | NotPdf                          // 400 "Only PDF files are supported"
    | TooLarge(maxMegabytes: int)     // 400 "File size exceeds maximum allowed size of ..MB"
    | UploadFailed(message: string)   // 500 with the exception's text
    | TaskNotFound                    // 404 "Task not found"
    | NotCompleted(status: string)    // 400 "Task is not completed. Current status: .."

  function StatusCode(e: HttpError): int {
    match e
    case NotPdf => 400
    case TooLarge(_) => 400
    case UploadFailed(_) => 500
    case TaskNotFound => 404
    case NotCompleted(_) => 400
  }

  datatype UploadResponse = UploadResponse(taskId: string, status: string, message: string)

  // ---------------------------------------------------------------------------------------
  // Upload checks
  // ---------------------------------------------------------------------------------------

  /** `filename.lower().endswith('.pdf')`. */
  predicate IsPdfName(filename: string) {
    EndsWith(LowerStr(filename), ".pdf")
  }

  /** The extension check ignores case. */
  lemma PdfNameIgnoresCase(stem: string)
    ensures IsPdfName(stem + ".pdf") && IsPdfName(stem + ".PDF") && IsPdfName(stem + ".Pdf")
  {
    LowerStrAppend(stem, ".pdf");
    LowerStrAppend(stem, ".PDF");
    LowerStrAppend(stem, ".Pdf");
    assert LowerStr(".PDF") == ".pdf";
    assert LowerStr(".Pdf") == ".pdf";
  }

  lemma LowerStrAppend(a: string, b: string)
    ensures LowerStr(a + b) == LowerStr(a) + LowerStr(b)
  {
    assert |LowerStr(a + b)| == |LowerStr(a) + LowerStr(b)|;
  }

  /** The size check lets a file of exactly the maximum size through. */
  predicate SizeAllowed(size: nat, maxFileSize: int) {
    !(size > maxFileSize)
  }

  // ---------------------------------------------------------------------------------------
  // OCR merge-back
  // ---------------------------------------------------------------------------------------

  /** The pages among `keys` whose content needs OCR, in the order of `keys`. */
  function NeedingOcr(content: map<int, PageContent>, keys: seq<int>): (r: seq<int>)
    requires forall i :: 0 <= i < |keys| ==> keys[i] in content
    ensures forall p :: p in r <==> p in keys && content[p].needsOcr
    ensures |r| <= |keys|
    decreases |keys|
  {
    if keys == [] then []
    else
      var rest := NeedingOcr(content, keys[1..]);
      assert forall p :: p in keys <==> p == keys[0] || p in keys[1..];
      if content[keys[0]].needsOcr then [keys[0]] + rest else rest
  }

  /** The pages needing OCR in the order `extract_text` inserted them: ascending. */
  function OcrPages(content: map<int, PageContent>): (r: seq<int>)
    ensures forall p :: p in r <==> p in content && content[p].needsOcr
  {
    NeedingOcr(content, Sorted(content.Keys))
  }

  /** The merge-back loop over the OCR results, item by item: each one replaces the text of its
      page; a page the extraction does not have is the `KeyError` that fails the processing task. */
  function MergeOcr(content: map<int, PageContent>, items: seq<(int, string)>)
    : Result<map<int, PageContent>, int>
    decreases |items|
  {
    if items == [] then Ok(content)
    else
      var (page, text) := items[|items| - 1];
      match MergeOcr(content, items[..|items| - 1])
      case Err(p) => Err(p)
      case Ok(m) => if page in m then Ok(m[page := m[page].(text := text)]) else Err(page)
  }

  /** The text the last OCR item for `page` carries, if any. */
  function LastOcrText(items: seq<(int, string)>, page: int): Option<string>
    decreases |items|
  {
    if items == [] then None
    else if items[|items| - 1].0 == page then Some(items[|items| - 1].1)
    else LastOcrText(items[..|items| - 1], page)
  }

  /** Every OCR item names a page of the extraction. */
  predicate AllKnown(content: map<int, PageContent>, items: seq<(int, string)>) {
    forall j :: 0 <= j < |items| ==> items[j].0 in content
  }

  /** The page `page` after the merge-back: its text is the last OCR text for it, if any, and
      nothing else of it changes. */
  ghost predicate MergedAt(content: map<int, PageContent>, items: seq<(int, string)>,
                           m: map<int, PageContent>, page: int)
    requires page in content && page in m
  {
    match LastOcrText(items, page)
    case None => m[page] == content[page]
    case Some(t) => m[page] == content[page].(text := t)
  }

  /** The merge-back succeeds exactly when every OCR page is a page of the extraction; then it
      keeps the page set, gives each OCR page the text of its last OCR item and leaves every
      other page as it was. A failure names an OCR page the extraction does not have. */
  lemma {:induction false} MergeOcrShape(content: map<int, PageContent>, items: seq<(int, string)>)
    ensures MergeOcr(content, items).Ok? <==> AllKnown(content, items)
    ensures MergeOcr(content, items).Ok? ==> MergeOcr(content, items).value.Keys == content.Keys
    ensures MergeOcr(content, items).Ok? ==> forall page :: page in content ==>
      MergedAt(content, items, MergeOcr(content, items).value, page)
    ensures MergeOcr(content, items).Err? ==>
      MergeOcr(content, items).error !in content &&
      exists j :: 0 <= j < |items| && items[j].0 == MergeOcr(content, items).error
    decreases |items|
  {
    if items != [] {
      var n := |items| - 1;
      var front := items[..n];
      MergeOcrShape(content, front);
      MergeOcrStep(content, items);
    }
  }

  /** One more OCR item on top of the merge-back of the ones before it. */
  lemma MergeOcrStep(content: map<int, PageContent>, items: seq<(int, string)>)
    requires items != []
    requires var front := items[..|items| - 1];
      && (MergeOcr(content, front).Ok? <==> AllKnown(content, front))
      && (MergeOcr(content, front).Ok? ==> MergeOcr(content, front).value.Keys == content.Keys)
      && (MergeOcr(content, front).Ok? ==> forall page :: page in content ==>
            MergedAt(content, front, MergeOcr(content, front).value, page))
      && (MergeOcr(content, front).Err? ==>
            MergeOcr(content, front).error !in content &&
            exists j :: 0 <= j < |front| && front[j].0 == MergeOcr(content, front).error)
    ensures MergeOcr(content, items).Ok? <==> AllKnown(content, items)
    ensures MergeOcr(content, items).Ok? ==> MergeOcr(content, items).value.Keys == content.Keys
    ensures MergeOcr(content, items).Ok? ==> forall page :: page in content ==>
      MergedAt(content, items, MergeOcr(content, items).value, page)
    ensures MergeOcr(content, items).Err? ==>
      MergeOcr(content, items).error !in content &&
      exists j :: 0 <= j < |items| && items[j].0 == MergeOcr(content, items).error
  {
    var n := |items| - 1;
    var front := items[..n];
    var (page, text) := items[n];
    assert forall j :: 0 <= j < n ==> front[j] == items[j];
    var prev := MergeOcr(content, front);
    if prev.Err? {
      var j :| 0 <= j < |front| && front[j].0 == prev.error;
      assert items[j].0 == prev.error;
      assert !AllKnown(content, items) by { assert items[j].0 !in content; }
    } else if page !in prev.value {
      assert !AllKnown(content, items) by { assert items[n].0 !in content; }
    } else {
      var m := prev.value[page := prev.value[page].(text := text)];
      assert MergeOcr(content, items) == Ok(m);
      forall q | q in content ensures MergedAt(content, items, m, q) {
        assert MergedAt(content, front, prev.value, q);
      }
    }
  }

  /** The merge-back loop of `process_pdf`. */
  method MergeOcrResults(content: map<int, PageContent>, items: seq<(int, string)>)
    returns (r: Result<map<int, PageContent>, int>)
    ensures r == MergeOcr(content, items)
  {
    var merged := content;
    for i := 0 to |items|
      invariant MergeOcr(content, items[..i]) == Ok(merged)
    {
      var (page, text) := items[i];
      assert items[..i + 1][..i] == items[..i];
      if page !in merged {
        MergeOcrErrSticky(content, items, i + 1);
        return Err(page);
      }
      merged := merged[page := merged[page].(text := text)];
    }
    assert items[..|items|] == items;
    return Ok(merged);
  }

  /** Once the merge-back of a prefix fails, so does the whole, with the same page. */
  lemma {:induction false} MergeOcrErrSticky(content: map<int, PageContent>,
                                             items: seq<(int, string)>, n: nat)
    requires n <= |items| && MergeOcr(content, items[..n]).Err?
    ensures MergeOcr(content, items) == MergeOcr(content, items[..n])
    decreases |items| - n
  {
    if n < |items| {
      assert items[..n + 1][..n] == items[..n];
      MergeOcrErrSticky(content, items, n + 1);
    } else {
      assert items[..n] == items;
    }
  }

  // ---------------------------------------------------------------------------------------
  // The pipeline
  // ---------------------------------------------------------------------------------------

  /** What the chunker reads of each page: its text. */
  function PagesOf(content: map<int, PageContent>): (pages: TextChunker.Pages)
    ensures pages.Keys == content.Keys
    ensures forall k :: k in pages ==> pages[k] == Some(content[k].text)
  {
    map k | k in content :: Some(content[k].text)
  }

  /** The OCR service's answer for a list of pages: `(page, text)` items in its own order, or
      the error it raised. */
  type OcrService = seq<int> -> Result<seq<(int, string)>, string>

  /** The content after the OCR step: untouched when no page needs OCR. */
  function AfterOcr(content: map<int, PageContent>, ocr: OcrService): Result<map<int, PageContent>, Failure> {
    var ocrPages := OcrPages(content);
    if ocrPages == [] then Ok(content)
    else
      match ocr(ocrPages)
      case Err(m) => Err(OcrFailed(m))
      case Ok(items) =>
        match MergeOcr(content, items)
        case Err(p) => Err(UnknownOcrPage(p))
        case Ok(merged) => Ok(merged)
  }

  /** What processing a task ends with: the stored result, or the failure it is marked with. */
  function Outcome(x: PdfTextExtractor.Extractor, chunker: TextChunker.Config, taskId: string,
                   doc: Result<seq<PdfTextExtractor.PageSource>, string>, ocr: OcrService,
                   saveError: Option<string>): Result<ProcessingResult, Failure>
  {
    match PdfTextExtractor.Extraction(x, doc)
    case Err(e) => Err(ExtractionFailed(e))
    case Ok(content) =>
      match AfterOcr(content, ocr)
      case Err(f) => Err(f)
      case Ok(merged) =>
        match TextChunker.DocumentChunks(chunker, PagesOf(merged))
        case Err(e) => Err(ChunkingFailed(e))
        case Ok(chunks) =>
          if saveError.Some? then Err(SaveFailed(saveError.value))
          else Ok(ProcessingResult(taskId, |merged|, |chunks|, OcrPages(content) != [], merged))
  }

  /** A stored result names its task, counts every page of the document and every chunk of
      the merged text, and keeps exactly the document's pages. */
  lemma OutcomeCounts(x: PdfTextExtractor.Extractor, chunker: TextChunker.Config, taskId: string,
                      doc: Result<seq<PdfTextExtractor.PageSource>, string>, ocr: OcrService,
                      saveError: Option<string>)
    requires Outcome(x, chunker, taskId, doc, ocr, saveError).Ok?
    ensures doc.Ok? && saveError.None?
    ensures var r := Outcome(x, chunker, taskId, doc, ocr, saveError).value;
      && r.taskId == taskId
      && r.pageCount == |doc.value|
      && (forall k :: k in r.content <==> 0 <= k < |doc.value|)
      && r.chunkCount == |TextChunker.DocumentChunks(chunker, PagesOf(r.content)).value|
  {
    var content, merged := OutcomeUnfold(x, chunker, taskId, doc, ocr, saveError);
    PdfTextExtractor.ExtractionShape(x, doc);
    PdfTextExtractor.ExtractionCount(x, doc);
    AfterOcrFrame(content, ocr);
    assert |merged| == |merged.Keys| == |content.Keys| == |content|;
  }

  /** A stored result records OCR as used exactly when some page of the document needed it. */
  lemma OutcomeOcrUsed(x: PdfTextExtractor.Extractor, chunker: TextChunker.Config, taskId: string,
                       doc: Result<seq<PdfTextExtractor.PageSource>, string>, ocr: OcrService,
                       saveError: Option<string>)
    requires Outcome(x, chunker, taskId, doc, ocr, saveError).Ok?
    ensures doc.Ok?
    ensures Outcome(x, chunker, taskId, doc, ocr, saveError).value.ocrUsed <==>
      exists k :: 0 <= k < |doc.value| && PdfTextExtractor.PageContentOf(x, doc.value[k]).needsOcr
  {
    var content, merged := OutcomeUnfold(x, chunker, taskId, doc, ocr, saveError);
    PdfTextExtractor.ExtractionShape(x, doc);
    if OcrPages(content) != [] {
      var p := OcrPages(content)[0];
      assert p in content && content[p].needsOcr;
      assert 0 <= p < |doc.value| && PdfTextExtractor.PageContentOf(x, doc.value[p]).needsOcr;
    }
  }

  /** Page `k` of a stored result: without OCR it is the page as extracted; with OCR the OCR
      answer was received and the page carries the last text it gave for the page, and is
      otherwise as extracted. */
  ghost predicate StoredPage(extracted: map<int, PageContent>, ocr: OcrService, ocrUsed: bool,
                             stored: map<int, PageContent>, k: int)
  {
    && k in extracted && k in stored
    && if ocrUsed then
         ocr(OcrPages(extracted)).Ok? && MergedAt(extracted, ocr(OcrPages(extracted)).value, stored, k)
       else stored[k] == extracted[k]
  }

  /** Every page of a stored result is the extracted page, merged with the OCR answer when OCR
      was used. */
  lemma OutcomePages(x: PdfTextExtractor.Extractor, chunker: TextChunker.Config, taskId: string,
                     doc: Result<seq<PdfTextExtractor.PageSource>, string>, ocr: OcrService,
                     saveError: Option<string>)
    requires Outcome(x, chunker, taskId, doc, ocr, saveError).Ok?
    ensures doc.Ok? && PdfTextExtractor.Extraction(x, doc).Ok?
    ensures var r := Outcome(x, chunker, taskId, doc, ocr, saveError).value;
      forall k :: 0 <= k < |doc.value| ==>
        StoredPage(PdfTextExtractor.Extraction(x, doc).value, ocr, r.ocrUsed, r.content, k)
  {
    var content, merged := OutcomeUnfold(x, chunker, taskId, doc, ocr, saveError);
    PdfTextExtractor.ExtractionShape(x, doc);
    AfterOcrFrame(content, ocr);
    var used := OcrPages(content) != [];
    forall k | 0 <= k < |doc.value| ensures StoredPage(content, ocr, used, merged, k) {
      assert k in content;
    }
  }

  /** The content and merged pages behind a stored result. */
  lemma OutcomeUnfold(x: PdfTextExtractor.Extractor, chunker: TextChunker.Config, taskId: string,
                      doc: Result<seq<PdfTextExtractor.PageSource>, string>, ocr: OcrService,
                      saveError: Option<string>)
    returns (content: map<int, PageContent>, merged: map<int, PageContent>)
    requires Outcome(x, chunker, taskId, doc, ocr, saveError).Ok?
    ensures PdfTextExtractor.Extraction(x, doc) == Ok(content)
    ensures AfterOcr(content, ocr) == Ok(merged)
    ensures TextChunker.DocumentChunks(chunker, PagesOf(merged)).Ok?
    ensures Outcome(x, chunker, taskId, doc, ocr, saveError).value
         == ProcessingResult(taskId, |merged|, |TextChunker.DocumentChunks(chunker, PagesOf(merged)).value|,
                             OcrPages(content) != [], merged)
  {
    content := PdfTextExtractor.Extraction(x, doc).value;
    merged := AfterOcr(content, ocr).value;
  }

  /** The OCR step keeps the page set; it changes nothing when no page needs OCR, and
      otherwise merges the OCR answer page by page. */
  lemma AfterOcrFrame(content: map<int, PageContent>, ocr: OcrService)
    requires AfterOcr(content, ocr).Ok?
    ensures AfterOcr(content, ocr).value.Keys == content.Keys
    ensures OcrPages(content) == [] ==> AfterOcr(content, ocr).value == content
    ensures OcrPages(content) != [] ==> ocr(OcrPages(content)).Ok?
    ensures OcrPages(content) != [] ==> forall k :: k in content ==>
      MergedAt(content, ocr(OcrPages(content)).value, AfterOcr(content, ocr).value, k)
  {
    var ocrPages := OcrPages(content);
    if ocrPages != [] {
      MergeOcrShape(content, ocr(ocrPages).value);
    }
  }

  /** A page has a last OCR text only if some OCR item names it, which the OCR step only
      requests for pages that need OCR. */
  lemma {:induction false} LastOcrTextFrom(items: seq<(int, string)>, page: int)
    requires LastOcrText(items, page).Some?
    ensures exists j :: 0 <= j < |items| && items[j] == (page, LastOcrText(items, page).value)
    decreases |items|
  {
    var n := |items| - 1;
    if items[n].0 != page {
      LastOcrTextFrom(items[..n], page);
      var j :| 0 <= j < n && items[..n][j] == (page, LastOcrText(items, page).value);
      assert items[j] == items[..n][j];
    }
  }

  // ---------------------------------------------------------------------------------------
  // The processing task table
  // ---------------------------------------------------------------------------------------

  /** A finished task: completed with its result, or failed with its error. */
  function Finish(t: TaskStatus, outcome: Result<ProcessingResult, Failure>): (u: TaskStatus)
    ensures u.taskId == t.taskId && u.filename == t.filename && u.progress == t.progress
    ensures outcome.Ok? ==> u.status == Completed && u.result == Some(outcome.value) && u.error == t.error
    ensures outcome.Err? ==> u.status == Failed && u.error == Some(outcome.error) && u.result == t.result
  {
    match outcome
    case Ok(r) => t.(status := Completed, result := Some(r))
    case Err(f) => t.(status := Failed, error := Some(f))
  }

  /** Every task is filed under its own id, a completed task has a result and a failed one
      an error. */
  ghost predicate TableValid(tasks: map<string, TaskStatus>) {
    forall id :: id in tasks ==>
      && tasks[id].taskId == id
      && (tasks[id].status == Completed ==> tasks[id].result.Some?)
      && (tasks[id].status == Failed ==> tasks[id].error.Some?)
  }

  /** Finishing a task overrides whatever status it had. */
  lemma FinishAfterProcessing(t: TaskStatus, outcome: Result<ProcessingResult, Failure>)
    ensures Finish(t.(status := Processing), outcome) == Finish(t, outcome)
  {
  }

  /** Filing a finished task under its own id keeps the table valid. */
  lemma FinishKeepsValid(tasks: map<string, TaskStatus>, id: string, t: TaskStatus,
                         outcome: Result<ProcessingResult, Failure>)
    requires TableValid(tasks) && t.taskId == id
    ensures TableValid(tasks[id := Finish(t, outcome)])
  {
  }

  /** The service with its components' settings and the `processing_tasks` table. */
  class PdfService {
    const extractor: PdfTextExtractor.Extractor
    const chunker: TextChunker.Config
    const maxFileSize: int
    var tasks: map<string, TaskStatus>

    /** Every task is stored under its own id; a completed task has its result and a failed
        one its error. */
    ghost predicate Valid()
      reads this
    {
      TableValid(tasks)
    }

    /** The service starts with no task. */
    constructor (extractor: PdfTextExtractor.Extractor, chunker: TextChunker.Config, maxFileSize: int)
      ensures this.extractor == extractor && this.chunker == chunker
      ensures this.maxFileSize == maxFileSize
      ensures tasks == map[] && Valid()
    {
      this.extractor := extractor;
      this.chunker := chunker;
      this.maxFileSize := maxFileSize;
      tasks := map[];
    }

    /** `POST /process`: a file whose name does not end in `.pdf` (in any case) or that is
        larger than the maximum is refused; otherwise the file is saved and a task is queued
        under the new id. A failure to save leaves the table as it was. */
    method Upload(filename: string, size: nat, taskId: string, saveError: Option<string>)
      returns (r: Result<UploadResponse, HttpError>)
      requires Valid()
      modifies this
      ensures Valid()
      ensures !IsPdfName(filename) ==> r == Err(NotPdf) && tasks == old(tasks)
      ensures IsPdfName(filename) && !SizeAllowed(size, maxFileSize) ==>
        r == Err(TooLarge(maxFileSize / (1024 * 1024))) && tasks == old(tasks)
      ensures IsPdfName(filename) && SizeAllowed(size, maxFileSize) && saveError.Some? ==>
        r == Err(UploadFailed(saveError.value)) && tasks == old(tasks)
      ensures IsPdfName(filename) && SizeAllowed(size, maxFileSize) && saveError.None? ==>
        && r == Ok(UploadResponse(taskId, "QUEUED", "PDF processing started"))
        && tasks == old(tasks)[taskId := TaskStatus(taskId, filename, Queued, 0.0, None, None)]
    {
      if !IsPdfName(filename) {
        return Err(NotPdf);
      }
      if size > maxFileSize {
        return Err(TooLarge(maxFileSize / (1024 * 1024)));
      }
      if saveError.Some? {
        return Err(UploadFailed(saveError.value));
      }
      tasks := tasks[taskId := TaskStatus(taskId, filename, Queued, 0.0, None, None)];
      return Ok(UploadResponse(taskId, "QUEUED", "PDF processing started"));
    }

    /** `ProcessingOrchestrator.process_pdf`: the processing task is marked as processing, then completed
        with its result or failed with the error that stopped the pipeline; no other task
        changes. */
    method ProcessPdf(taskId: string, doc: Result<seq<PdfTextExtractor.PageSource>, string>,
                      ocr: OcrService, saveError: Option<string>)
      requires Valid() && taskId in tasks
      modifies this
      ensures Valid()
      ensures tasks == old(tasks)[taskId := Finish(old(tasks[taskId]),
                                                   Outcome(extractor, chunker, taskId, doc, ocr, saveError))]
    {
      var task := tasks[taskId];
      tasks := tasks[taskId := task.(status := Processing)];
      var outcome := RunPipeline(taskId, doc, ocr, saveError);
      var finished := Finish(task.(status := Processing), outcome);
      FinishAfterProcessing(task, outcome);
      FinishKeepsValid(old(tasks), taskId, task, outcome);
      assert old(tasks)[taskId := task.(status := Processing)][taskId := finished]
          == old(tasks)[taskId := finished];
      tasks := tasks[taskId := finished];
    }

    /** The steps of `process_pdf` between marking the processing task and recording how it ended. */
    method RunPipeline(taskId: string, doc: Result<seq<PdfTextExtractor.PageSource>, string>,
                       ocr: OcrService, saveError: Option<string>)
      returns (outcome: Result<ProcessingResult, Failure>)
      ensures outcome == Outcome(extractor, chunker, taskId, doc, ocr, saveError)
    {
      var extraction := PdfTextExtractor.ExtractText(extractor, doc);
      if extraction.Err? {
        return Err(ExtractionFailed(extraction.error));
      }
      var content := extraction.value;
      var ocrPages := OcrPages(content);
      if ocrPages != [] {
        var answer := ocr(ocrPages);
        if answer.Err? {
          return Err(OcrFailed(answer.error));
        }
        var merged := MergeOcrResults(content, answer.value);
        if merged.Err? {
          return Err(UnknownOcrPage(merged.error));
        }
        content := merged.value;
      }
      var chunks := TextChunker.ChunkDocument(chunker, PagesOf(content));
      if chunks.Err? {
        return Err(ChunkingFailed(chunks.error));
      }
      if saveError.Some? {
        return Err(SaveFailed(saveError.value));
      }
      return Ok(ProcessingResult(taskId, |content|, |chunks.value|, ocrPages != [], content));
    }

    /** `GET /status/{task_id}`: 404 for an unknown task, otherwise its status record. */
    function GetStatus(taskId: string): (r: Result<TaskStatus, HttpError>)
      reads this
      ensures r.Err? <==> taskId !in tasks
      ensures r.Err? ==> r.error == TaskNotFound && StatusCode(r.error) == 404
      ensures r.Ok? ==> r.value == tasks[taskId]
    {
      if taskId !in tasks then Err(TaskNotFound) else Ok(tasks[taskId])
    }

    /** `GET /result/{task_id}`: 404 for an unknown task, 400 with the current status unless it
        is completed, otherwise its result, which a completed task always has. */
    function GetResult(taskId: string): (r: Result<Option<ProcessingResult>, HttpError>)
      reads this
      ensures taskId !in tasks ==> r == Err(TaskNotFound)
      ensures taskId in tasks && tasks[taskId].status != Completed ==>
        r == Err(NotCompleted(StatusName(tasks[taskId].status))) && StatusCode(r.error) == 400
      ensures r.Ok? <==> taskId in tasks && tasks[taskId].status == Completed
      ensures r.Ok? ==> r.value == tasks[taskId].result
      ensures Valid() && r.Ok? ==> r.value.Some?
    {
      if taskId !in tasks then Err(TaskNotFound)
      else if tasks[taskId].status != Completed then Err(NotCompleted(StatusName(tasks[taskId].status)))
      else Ok(tasks[taskId].result)
    }
  }

  /** An upload followed by its processing: the processing task exists, has left the queue, and its result
      can be fetched exactly when the pipeline succeeded. */
  method UploadThenProcess(svc: PdfService, filename: string, size: nat, taskId: string,
                           doc: Result<seq<PdfTextExtractor.PageSource>, string>, ocr: OcrService,
                           saveError: Option<string>)
    returns (fetched: Result<Option<ProcessingResult>, HttpError>)
    requires svc.Valid()
    requires IsPdfName(filename) && SizeAllowed(size, svc.maxFileSize)
    modifies svc
    ensures svc.Valid() && taskId in svc.tasks
    ensures svc.tasks[taskId].status == Completed || svc.tasks[taskId].status == Failed
    ensures fetched.Ok? <==> Outcome(svc.extractor, svc.chunker, taskId, doc, ocr, saveError).Ok?
    ensures fetched.Ok? ==>
      fetched.value == Some(Outcome(svc.extractor, svc.chunker, taskId, doc, ocr, saveError).value)
  {
    var up := svc.Upload(filename, size, taskId, None);
    svc.ProcessPdf(taskId, doc, ocr, saveError);
    fetched := svc.GetResult(taskId);
  }
}
