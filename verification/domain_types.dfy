/**
 * The backend's domain types: the string enumerations, and the `ProcessingOptions` and
 * `ProcessingResult` records with their declared defaults and constraints. An enumeration
 * member is read from its string value, as pydantic does.
 */
module DomainTypes {
  import opened Wrappers
  import opened Fields

  // ---------------------------------------------------------------------------------------
  // Enumerations
  // ---------------------------------------------------------------------------------------

  datatype ProcessingStatus = Pending | Processing | Completed | Failed | Cancelled

  const StatusValues: seq<string> := ["pending", "processing", "completed", "failed", "cancelled"]

  function StatusValue(s: ProcessingStatus): string {
    match s
    case Pending => "pending"
    case Processing => "processing"
    case Completed => "completed"
    case Failed => "failed"
    case Cancelled => "cancelled"
  }

  /** The member whose value is `v`: exactly the five values name one. */
  function ParseStatus(v: string): (r: Option<ProcessingStatus>)
    ensures r.Some? <==> v in StatusValues
    ensures r.Some? ==> StatusValue(r.value) == v
  {
    if v == "pending" then Some(Pending)
    else if v == "processing" then Some(Processing)
    else if v == "completed" then Some(Completed)
    else if v == "failed" then Some(Failed)
    else if v == "cancelled" then Some(Cancelled)
    else None
  }

  /** Every status is read back from its value, and the five values are distinct. */
  lemma StatusRoundTrip(s: ProcessingStatus)
    ensures ParseStatus(StatusValue(s)) == Some(s)
    ensures |StatusValues| == 5
    ensures forall i, j :: 0 <= i < j < |StatusValues| ==> StatusValues[i] != StatusValues[j]
  {
  }

  datatype ProcessorType = TextExtraction | Ocr | LayoutAnalysis | TableDetection | Summarization

  const ProcessorValues: seq<string> :=
    ["text_extraction", "ocr", "layout_analysis", "table_detection", "summarization"]

  function ProcessorValue(p: ProcessorType): string {
    match p
    case TextExtraction => "text_extraction"
    case Ocr => "ocr"
    case LayoutAnalysis => "layout_analysis"
    case TableDetection => "table_detection"
    case Summarization => "summarization"
  }

  function ParseProcessor(v: string): (r: Option<ProcessorType>)
    ensures r.Some? <==> v in ProcessorValues
    ensures r.Some? ==> ProcessorValue(r.value) == v
  {
    if v == "text_extraction" then Some(TextExtraction)
    else if v == "ocr" then Some(Ocr)
    else if v == "layout_analysis" then Some(LayoutAnalysis)
    else if v == "table_detection" then Some(TableDetection)
    else if v == "summarization" then Some(Summarization)
    else None
  }

  /** Every processor type is read back from its value, and the five values are distinct. */
  lemma ProcessorRoundTrip(p: ProcessorType)
    ensures ParseProcessor(ProcessorValue(p)) == Some(p)
    ensures |ProcessorValues| == 5
    ensures forall i, j :: 0 <= i < j < |ProcessorValues| ==> ProcessorValues[i] != ProcessorValues[j]
  {
  }

  datatype DocumentType = Pdf | Image | ScannedPdf | DigitalPdf

  function DocumentTypeValue(d: DocumentType): string {
    match d
    case Pdf => "pdf"
    case Image => "image"
    case ScannedPdf => "scanned_pdf"
    case DigitalPdf => "digital_pdf"
  }

  datatype ExportFormat = PdfExport | Text | Json | Html | Markdown | Csv

  const ExportValues: seq<string> := ["pdf", "text", "json", "html", "markdown", "csv"]

  function ExportValue(f: ExportFormat): string {
    match f
    case PdfExport => "pdf"
    case Text => "text"
    case Json => "json"
    case Html => "html"
    case Markdown => "markdown"
    case Csv => "csv"
  }

  function ParseExport(v: string): (r: Option<ExportFormat>)
    ensures r.Some? <==> v in ExportValues
    ensures r.Some? ==> ExportValue(r.value) == v
  {
    if v == "pdf" then Some(PdfExport)
    else if v == "text" then Some(Text)
    else if v == "json" then Some(Json)
    else if v == "html" then Some(Html)
    else if v == "markdown" then Some(Markdown)
    else if v == "csv" then Some(Csv)
    else None
  }

  lemma ExportRoundTrip(f: ExportFormat)
    ensures ParseExport(ExportValue(f)) == Some(f)
  {
  }

  // ---------------------------------------------------------------------------------------
  // ProcessingOptions
  // ---------------------------------------------------------------------------------------

  /** Every string of the list read by `parse`, or nothing if one of them is not read. */
  function ParseEach<T>(parse: string -> Option<T>, vs: seq<string>): Option<seq<T>>
    decreases |vs|
  {
    if vs == [] then Some([])
    else
      var n := |vs| - 1;
      match ParseEach(parse, vs[..n])
      case None => None
      case Some(front) =>
        match parse(vs[n])
        case None => None
        case Some(p) => Some(front + [p])
  }

  /** A list is read exactly when each of its strings is, and then position by position. */
  lemma {:induction false} ParseEachShape<T>(parse: string -> Option<T>, vs: seq<string>)
    ensures ParseEach(parse, vs).Some? <==> forall i :: 0 <= i < |vs| ==> parse(vs[i]).Some?
    ensures ParseEach(parse, vs).Some? ==>
      |ParseEach(parse, vs).value| == |vs| &&
      forall i :: 0 <= i < |vs| ==> parse(vs[i]) == Some(ParseEach(parse, vs).value[i])
    decreases |vs|
  {
    if vs != [] {
      var n := |vs| - 1;
      var front := vs[..n];
      ParseEachShape(parse, front);
      assert forall i :: 0 <= i < n ==> front[i] == vs[i];
      if ParseEach(parse, front).Some? && parse(vs[n]).Some? {
        var ps := ParseEach(parse, front).value;
        var r := ps + [parse(vs[n]).value];
        assert ParseEach(parse, vs) == Some(r);
        forall i | 0 <= i < |vs| ensures parse(vs[i]) == Some(r[i]) {
          if i < n { assert r[i] == ps[i]; }
        }
      } else if ParseEach(parse, front).None? {
        var i :| 0 <= i < |front| && parse(front[i]).None?;
        assert parse(vs[i]).None?;
      }
    }
  }

  /** Every value of the list read as a processor type, or nothing if one is not a value. */
  function ParseProcessors(vs: seq<string>): Option<seq<ProcessorType>> {
    ParseEach(ParseProcessor, vs)
  }

  /** A list is read exactly when each of its strings is a processor value, and then each
      member read has the string it was read from as its value. */
  lemma ParseProcessorsShape(vs: seq<string>)
    ensures ParseProcessors(vs).Some? <==> forall i :: 0 <= i < |vs| ==> vs[i] in ProcessorValues
    ensures ParseProcessors(vs).Some? ==>
      |ParseProcessors(vs).value| == |vs| &&
      forall i :: 0 <= i < |vs| ==> ProcessorValue(ParseProcessors(vs).value[i]) == vs[i]
  {
    ParseEachShape(ParseProcessor, vs);
  }

  datatype OptionsInput = OptionsInput(
    processors: Supplied<seq<string>>,
    parallelProcessing: Supplied<bool>,
    qualityThreshold: Supplied<real>,
    exportFormat: Supplied<string>,
    preserveLayout: Supplied<bool>)

  datatype ProcessingOptions = ProcessingOptions(
    processors: seq<ProcessorType>,
    parallelProcessing: bool,
    qualityThreshold: real,
    exportFormat: ExportFormat,
    preserveLayout: bool)

  /** The processors as given, or the default list with text extraction only. */
  function OptionsProcessors(f: Supplied<seq<string>>): Option<seq<ProcessorType>> {
    if f.Omitted? then Some([TextExtraction])
    else if f.value.None? then None
    else ParseProcessors(f.value.value)
  }

  /** A given processor list is read entry by entry. */
  lemma OptionsProcessorsGiven(f: Supplied<seq<string>>)
    ensures f.Given? && OptionsProcessors(f).Some? ==>
      && |OptionsProcessors(f).value| == |f.value.value|
      && forall i :: 0 <= i < |f.value.value| ==>
           ProcessorValue(OptionsProcessors(f).value[i]) == f.value.value[i]
  {
    if f.Given? && f.value.Some? {
      ParseProcessorsShape(f.value.value);
    }
  }

  function OptionsExport(f: Supplied<string>): Option<ExportFormat> {
    if f.Omitted? then Some(PdfExport)
    else if f.value.None? then None
    else ParseExport(f.value.value)
  }

  /** The names of the fields that fail, in declaration order; none of the fields accepts a
      null. */
  function OptionsErrors(input: OptionsInput): seq<string> {
    (if OptionsProcessors(input.processors).None? then ["processors"] else [])
    + (if Resolve(input.parallelProcessing, true).None? then ["parallel_processing"] else [])
    + (if Resolve(input.qualityThreshold, 0.7).None? ||
          !RealWithin(Resolve(input.qualityThreshold, 0.7), 0.0, 1.0) then ["quality_threshold"] else [])
    + (if OptionsExport(input.exportFormat).None? then ["export_format"] else [])
    + (if Resolve(input.preserveLayout, true).None? then ["preserve_layout"] else [])
  }

  /** Building `ProcessingOptions`: the defaults are text extraction only, parallel, a quality
      threshold of 0.7, PDF export and layout preserved; a given threshold must lie in
      `[0, 1]`. */
  function ValidateOptions(input: OptionsInput): (r: Result<ProcessingOptions, seq<string>>)
    ensures r.Ok? <==> OptionsErrors(input) == []
    ensures r.Ok? ==> 0.0 <= r.value.qualityThreshold <= 1.0
    ensures r.Ok? && input.qualityThreshold.Omitted? ==> r.value.qualityThreshold == 0.7
    ensures r.Ok? && input.processors.Omitted? ==> r.value.processors == [TextExtraction]
    ensures r.Ok? && input.parallelProcessing.Omitted? ==> r.value.parallelProcessing
    ensures r.Ok? && input.exportFormat.Omitted? ==> r.value.exportFormat == PdfExport
    ensures r.Ok? && input.preserveLayout.Omitted? ==> r.value.preserveLayout
    ensures r.Ok? && input.processors.Given? ==>
      && |r.value.processors| == |input.processors.value.value|
      && forall i :: 0 <= i < |r.value.processors| ==>
           ProcessorValue(r.value.processors[i]) == input.processors.value.value[i]
    ensures r.Ok? && input.parallelProcessing.Given? ==>
      r.value.parallelProcessing == input.parallelProcessing.value.value
    ensures r.Ok? && input.qualityThreshold.Given? ==>
      r.value.qualityThreshold == input.qualityThreshold.value.value
    ensures r.Ok? && input.exportFormat.Given? ==>
      ExportValue(r.value.exportFormat) == input.exportFormat.value.value
    ensures r.Ok? && input.preserveLayout.Given? ==>
      r.value.preserveLayout == input.preserveLayout.value.value
    ensures r.Err? ==> r.error != []
  {
    var errors := OptionsErrors(input);
    OptionsProcessorsGiven(input.processors);
    if errors != [] then Err(errors)
    else
      Ok(ProcessingOptions(
        OptionsProcessors(input.processors).value,
        Resolve(input.parallelProcessing, true).value,
        Resolve(input.qualityThreshold, 0.7).value,
        OptionsExport(input.exportFormat).value,
        Resolve(input.preserveLayout, true).value))
  }

  /** With nothing given, every default applies and is accepted. */
  lemma OptionsDefaults()
    ensures ValidateOptions(OptionsInput(Omitted, Omitted, Omitted, Omitted, Omitted))
         == Ok(ProcessingOptions([TextExtraction], true, 0.7, PdfExport, true))
  {
  }

  // ---------------------------------------------------------------------------------------
  // ProcessingResult
  // ---------------------------------------------------------------------------------------

  datatype ResultInput = ResultInput(
    processorType: Supplied<string>,
    confidenceScore: Supplied<real>,
    textContent: Supplied<string>,
    metadata: Supplied<map<string, string>>,
    pageNumber: Supplied<int>,
    boundingBoxes: Supplied<seq<map<string, real>>>)

  datatype ProcessingResult = ProcessingResult(
    processorType: ProcessorType,
    confidenceScore: real,
    textContent: string,
    metadata: map<string, string>,
    pageNumber: int,
    boundingBoxes: Option<seq<map<string, real>>>)

  function ResultProcessor(f: Supplied<string>): Option<ProcessorType> {
    if GivenValue(f).None? then None else ParseProcessor(GivenValue(f).value)
  }

  /** The names of the fields that fail, in declaration order: the processor type, the
      confidence, the text and the page number are required, the confidence lies in
      `[0, 1]`, and only the bounding boxes may be null. */
  function ResultErrors(input: ResultInput): seq<string> {
    (if ResultProcessor(input.processorType).None? then ["processor_type"] else [])
    + (if GivenValue(input.confidenceScore).None? ||
          !RealWithin(GivenValue(input.confidenceScore), 0.0, 1.0) then ["confidence_score"] else [])
    + (if GivenValue(input.textContent).None? then ["text_content"] else [])
    + (if Resolve(input.metadata, map[]).None? then ["metadata"] else [])
    + (if GivenValue(input.pageNumber).None? then ["page_number"] else [])
  }

  /** Building a `ProcessingResult`: a confidence outside `[0, 1]` is refused, the metadata
      defaults to an empty map and the bounding boxes to null. */
  function ValidateResult(input: ResultInput): (r: Result<ProcessingResult, seq<string>>)
    ensures r.Ok? <==> ResultErrors(input) == []
    ensures r.Ok? ==> 0.0 <= r.value.confidenceScore <= 1.0
    ensures r.Ok? ==> ProcessorValue(r.value.processorType) == input.processorType.value.value
    ensures r.Ok? ==> r.value.confidenceScore == input.confidenceScore.value.value
    ensures r.Ok? ==> r.value.textContent == input.textContent.value.value
    ensures r.Ok? ==> r.value.pageNumber == input.pageNumber.value.value
    ensures r.Ok? && input.metadata.Omitted? ==> r.value.metadata == map[]
    ensures r.Ok? && input.metadata.Given? ==> r.value.metadata == input.metadata.value.value
    ensures r.Ok? && input.boundingBoxes.Omitted? ==> r.value.boundingBoxes.None?
    ensures r.Ok? && input.boundingBoxes.Given? ==> r.value.boundingBoxes == input.boundingBoxes.value
    ensures r.Err? ==> r.error != []
  {
    var errors := ResultErrors(input);
    if errors != [] then Err(errors)
    else
      Ok(ProcessingResult(
        ResultProcessor(input.processorType).value,
        GivenValue(input.confidenceScore).value,
        GivenValue(input.textContent).value,
        Resolve(input.metadata, map[]).value,
        GivenValue(input.pageNumber).value,
        GivenValue(input.boundingBoxes)))
  }

  /** A confidence above one, or below zero, is refused whatever the other fields are. */
  lemma ConfidenceOutOfRange(input: ResultInput)
    requires input.confidenceScore.Given? && input.confidenceScore.value.Some?
    requires input.confidenceScore.value.value > 1.0 || input.confidenceScore.value.value < 0.0
    ensures ValidateResult(input).Err? && "confidence_score" in ValidateResult(input).error
  {
  }
}
