/**
 * The PDF processor's `ParallelTextExtractor`: the result it builds for one page and the
 * confidence it gives the page's native text. Opening the document and reading the page's
 * text are left to the caller, which passes the text in.
 */
module ParallelTextExtractor {
  import opened Strings
  import opened Scores

  /** The default of `min_text_length`. */
  const DefaultMinTextLength: int := 50

  /** The name the extractor registers under. */
  const ProcessorName: string := "text_extractor"

  datatype PageMetadata = PageMetadata(textLength: nat, wordCount: nat, extractionMethod: string)

  datatype PageResult = PageResult(processorName: string, pageNumber: int, content: string,
                                   confidence: real, metadata: PageMetadata)

  /** The extractor with its one setting. */
  datatype Extractor = Extractor(minTextLength: int)

  /** `ParallelTextExtractor()`: the default setting. */
  function NewExtractor(): (e: Extractor)
    ensures e.minTextLength == 50
  {
    Extractor(DefaultMinTextLength)
  }

  /** A penalty that applies or not. */
  function Factor(applies: bool, penalty: real): real {
    if applies then penalty else 1.0
  }

  /** The three penalties of `_calculate_confidence`, multiplied: short text, few words, few
      letters. */
  function PenaltyProduct(text: string, minTextLength: int): real {
    Factor(|text| < minTextLength, 0.5) * Factor(|Words(text)| < 10, 0.7)
      * Factor(AlphaRatio(text) < 0.5, 0.8)
  }

  /** `_calculate_confidence`: blank text scores 0; otherwise the score starts at 1 and is halved
      for short text, cut by 30% for fewer than ten words and by 20% when fewer than half the
      characters are letters, then clamped into `[0.1, 1.0]`. */
  function Confidence(text: string, minTextLength: int): (c: real)
    ensures IsBlank(text) ==> c == 0.0
    ensures !IsBlank(text) ==> 0.1 <= c <= 1.0
  {
    if IsBlank(text) then 0.0
    else
      var score := 1.0;
      var score := if |text| < minTextLength then score * 0.5 else score;
      var score := if |Words(text)| < 10 then score * 0.7 else score;
      var score := if AlphaRatio(text) < 0.5 then score * 0.8 else score;
      Clamp(score)
  }

  /** The score of non-blank text is the product of its penalties, which lies in `[0.28, 1]`, so
      the clamp never changes it and the lower bound 0.1 is never reached. */
  lemma ConfidenceIsProduct(text: string, minTextLength: int)
    requires !IsBlank(text)
    ensures 0.28 <= PenaltyProduct(text, minTextLength) <= 1.0
    ensures Confidence(text, minTextLength) == PenaltyProduct(text, minTextLength)
    ensures Confidence(text, minTextLength) >= 0.28
  {
    var a := Factor(|text| < minTextLength, 0.5);
    var b := Factor(|Words(text)| < 10, 0.7);
    var c := Factor(AlphaRatio(text) < 0.5, 0.8);
    assert 0.5 <= a <= 1.0 && 0.7 <= b <= 1.0 && 0.8 <= c <= 1.0;
    assert 0.35 <= a * b <= 1.0 by { MulBetween(a, b, 0.5, 0.7); }
    MulBetween(a * b, c, 0.35, 0.8);
  }

  lemma MulBetween(x: real, y: real, lx: real, ly: real)
    requires 0.0 <= lx <= x <= 1.0 && 0.0 <= ly <= y <= 1.0
    ensures lx * ly <= x * y <= 1.0
  {
    assert lx * ly <= x * ly <= x * y;
    assert x * y <= 1.0 * y <= 1.0;
  }

  /** Text that is long enough, has at least ten words and at least half letters scores 1. */
  lemma GoodTextScoresOne(text: string, minTextLength: int)
    requires !IsBlank(text)
    requires |text| >= minTextLength && |Words(text)| >= 10 && AlphaRatio(text) >= 0.5
    ensures Confidence(text, minTextLength) == 1.0
  {
  }

  /** `process_page` once the page's text is read: the text, its confidence, and the length,
      word count and method recorded beside it. */
  function ProcessPage(e: Extractor, text: string, pageNumber: int): (r: PageResult)
    ensures r.processorName == "text_extractor" && r.pageNumber == pageNumber
    ensures r.content == text && r.confidence == Confidence(text, e.minTextLength)
    ensures r.metadata.textLength == |text| && r.metadata.wordCount == |Words(text)|
    ensures r.metadata.extractionMethod == "native_pdf"
    ensures r.confidence == 0.0 <==> r.metadata.wordCount == 0
  {
    WordsBlank(text);
    PageResult(ProcessorName, pageNumber, text, Confidence(text, e.minTextLength),
               PageMetadata(|text|, |Words(text)|, "native_pdf"))
  }
}
