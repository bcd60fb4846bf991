/**
 * The PDF processor's `PDFTextExtractor`: the loop of `extract_text` over the pages of an opened
 * document, the `needs_ocr` rule, and the image loop of `_extract_page_images`. PyMuPDF is not
 * modelled: the opened document is given as the sequence of what each page yields (its text,
 * its geometry and its embedded images), or as the error opening it raised.
 */
module PdfTextExtractor {
  import opened Wrappers
  import opened Strings

  /** The service settings the extractor reads. */
  datatype Settings = Settings(minTextLength: int, extractImages: bool, imageQuality: int)

  /** `PDFTextExtractor(min_text_length)`: a missing or zero length falls back to the settings'
      value, as Python's `or` does. */
  datatype Extractor = Extractor(minTextLength: int, extractImages: bool, imageQuality: int)

  function NewExtractor(minTextLength: Option<int>, settings: Settings): (x: Extractor)
    ensures minTextLength.Some? && minTextLength.value != 0 ==> x.minTextLength == minTextLength.value
    ensures (minTextLength.None? || minTextLength.value == 0) ==> x.minTextLength == settings.minTextLength
    ensures x.extractImages == settings.extractImages && x.imageQuality == settings.imageQuality
  {
    var given := if minTextLength.Some? then minTextLength.value else 0;
    Extractor(if given != 0 then given else settings.minTextLength,
              settings.extractImages, settings.imageQuality)
  }

  /** `_extract_page_metadata`: read from the page as it is. */
  datatype Geometry = Geometry(rotation: int, width: real, height: real,
                               mediaBox: seq<real>, cropBox: seq<real>)

  /** What reading one embedded image yields: the document has no image under its reference,
      or an image with its extension, its byte count and the dimensions PIL reads from it (an
      error when PIL cannot open it), or reading it raised. */
  datatype ImageSource =
    | NoImage
    | Embedded(ext: string, size: nat, dimensions: Result<(int, int), string>)
    | Unreadable(error: string)

  /** A page: its text, its geometry and its embedded images; or the error reading it raised. */
  datatype PageSource =
    | Readable(text: string, geometry: Geometry, images: seq<ImageSource>)
    | Broken(error: string)

  datatype ImageMeta = ImageMeta(index: nat, extension: string, size: nat, dimensions: (int, int))

  /** The dictionary built for one page; `images` is `None` when the key is absent. */
  datatype PageContent = PageContent(text: string, hasImages: bool, metadata: Geometry,
                                     needsOcr: bool, images: Option<seq<ImageMeta>>)

  datatype PdfExtractionError = PdfExtractionError(message: string)

  /** An image whose reading raises, directly or while PIL reads its dimensions. */
  predicate Raises(img: ImageSource) {
    img.Unreadable? || (img.Embedded? && img.dimensions.Err?)
  }

  /** An embedded image whose dimensions could be read. */
  predicate Recorded(img: ImageSource) {
    img.Embedded? && img.dimensions.Ok?
  }

  /** The metadata of the embedded images from position `from` on, indexed by their position
      in the page's image list. */
  function ImageMetas(images: seq<ImageSource>, from: nat): seq<ImageMeta>
    requires from <= |images|
    decreases |images| - from
  {
    if from == |images| then []
    else
      var img := images[from];
      var rest := ImageMetas(images, from + 1);
      if Recorded(img) then [ImageMeta(from, img.ext, img.size, img.dimensions.value)] + rest
      else rest
  }

  /** `_extract_page_images`: the metadata of every embedded image, or no image at all when
      reading any of them raised. */
  function PageImages(images: seq<ImageSource>): seq<ImageMeta> {
    if exists k :: 0 <= k < |images| && Raises(images[k]) then []
    else ImageMetas(images, 0)
  }

  /** `m` records the embedded image at its own position (at `from` or later), with that
      image's extension, size and dimensions. */
  ghost predicate Describes(images: seq<ImageSource>, from: nat, m: ImageMeta) {
    && from <= m.index < |images| && Recorded(images[m.index])
    && m.extension == images[m.index].ext && m.size == images[m.index].size
    && m.dimensions == images[m.index].dimensions.value
  }

  /** Each recorded image is an embedded image of the list, recorded with its own position,
      extension, size and dimensions, and the indices strictly increase. */
  lemma {:induction false} ImageMetasFields(images: seq<ImageSource>, from: nat)
    requires from <= |images|
    ensures forall j :: 0 <= j < |ImageMetas(images, from)| ==>
      Describes(images, from, ImageMetas(images, from)[j])
    ensures forall j, j' :: 0 <= j < j' < |ImageMetas(images, from)| ==>
      ImageMetas(images, from)[j].index < ImageMetas(images, from)[j'].index
    decreases |images| - from
  {
    if from < |images| {
      ImageMetasFields(images, from + 1);
      var rest := ImageMetas(images, from + 1);
      var r := ImageMetas(images, from);
      if Recorded(images[from]) {
        assert r == [ImageMeta(from, images[from].ext, images[from].size,
                               images[from].dimensions.value)] + rest;
        forall j | 0 < j < |r| ensures Describes(images, from, r[j]) && from < r[j].index {
          assert r[j] == rest[j - 1];
          assert Describes(images, from + 1, rest[j - 1]);
        }
        forall j, j' | 0 < j < j' < |r| ensures r[j].index < r[j'].index {
          assert r[j] == rest[j - 1] && r[j'] == rest[j' - 1];
        }
      } else {
        assert r == rest;
      }
    }
  }

  /** Some entry of `metas` records the image at position `k`. */
  ghost predicate Lists(metas: seq<ImageMeta>, k: int) {
    exists j :: 0 <= j < |metas| && metas[j].index == k
  }

  /** Every embedded image from position `from` on is recorded. */
  lemma {:induction false} ImageMetasComplete(images: seq<ImageSource>, from: nat)
    requires from <= |images|
    ensures forall k :: from <= k < |images| && Recorded(images[k]) ==> Lists(ImageMetas(images, from), k)
    decreases |images| - from
  {
    if from < |images| {
      ImageMetasComplete(images, from + 1);
      var rest := ImageMetas(images, from + 1);
      var r := ImageMetas(images, from);
      if Recorded(images[from]) {
        assert r == [ImageMeta(from, images[from].ext, images[from].size,
                               images[from].dimensions.value)] + rest;
        assert r[0].index == from;
        forall k | from < k < |images| && Recorded(images[k]) ensures Lists(r, k) {
          var j :| 0 <= j < |rest| && rest[j].index == k;
          assert r[j + 1].index == k;
        }
      } else {
        assert r == rest;
      }
    }
  }

  /** `_extract_page_images` as the loop it is: every embedded image is recorded in order, an
      empty reference is passed over, and any exception discards the list gathered so far. */
  method ExtractPageImages(images: seq<ImageSource>) returns (metas: seq<ImageMeta>)
    ensures metas == PageImages(images)
  {
    metas := [];
    var i := 0;
    while i < |images|
      invariant 0 <= i <= |images|
      invariant forall k :: 0 <= k < i ==> !Raises(images[k])
      invariant metas + ImageMetas(images, i) == ImageMetas(images, 0)
    {
      var img := images[i];
      if Raises(img) {
        assert exists k :: 0 <= k < |images| && Raises(images[k]) by { assert Raises(images[i]); }
        return [];
      }
      if Recorded(img) {
        metas := metas + [ImageMeta(i, img.ext, img.size, img.dimensions.value)];
      }
      i := i + 1;
    }
    assert metas + [] == metas;
  }

  /** The page needs OCR when its stripped text is shorter than the minimum and it has
      images. */
  predicate NeedsOcr(x: Extractor, text: string, hasImages: bool) {
    |Strip(text)| < x.minTextLength && hasImages
  }

  /** The dictionary `extract_text` stores for a readable page. */
  function PageContentOf(x: Extractor, page: PageSource): (c: PageContent)
    requires page.Readable?
    ensures c.text == page.text && c.metadata == page.geometry
    ensures c.hasImages <==> |page.images| > 0
    ensures c.needsOcr <==> |Strip(page.text)| < x.minTextLength && |page.images| > 0
    ensures c.images.Some? <==> x.extractImages && |page.images| > 0
    ensures c.images.Some? ==> c.images.value == PageImages(page.images)
  {
    var hasImages := |page.images| > 0;
    PageContent(page.text, hasImages, page.geometry, NeedsOcr(x, page.text, hasImages),
                if x.extractImages && hasImages then Some(PageImages(page.images)) else None)
  }

  const FailurePrefix: string := "Failed to process PDF: "

  /** Every page before `n` can be read. */
  predicate ReadableUpTo(pages: seq<PageSource>, n: int) {
    forall k :: 0 <= k < n && k < |pages| ==> pages[k].Readable?
  }

  /** The first page from `from` on whose reading raises. */
  function FirstBroken(pages: seq<PageSource>, from: nat): (r: Option<nat>)
    requires from <= |pages|
    ensures r.Some? ==> from <= r.value < |pages| && pages[r.value].Broken?
    ensures r.Some? ==> forall k :: from <= k < r.value ==> pages[k].Readable?
    ensures r.None? <==> forall k :: from <= k < |pages| ==> pages[k].Readable?
    decreases |pages| - from
  {
    if from == |pages| then None
    else if pages[from].Broken? then Some(from)
    else FirstBroken(pages, from + 1)
  }

  /** What `extract_text` returns for a document: the error opening it, the error reading its
      first broken page, or the dictionary of every page keyed by its position. */
  function Extraction(x: Extractor, doc: Result<seq<PageSource>, string>)
    : Result<map<int, PageContent>, PdfExtractionError>
  {
    if doc.Err? then Err(PdfExtractionError(FailurePrefix + doc.error))
    else
      var pages := doc.value;
      match FirstBroken(pages, 0)
      case Some(k) => Err(PdfExtractionError(FailurePrefix + pages[k].error))
      case None => Ok(map k | 0 <= k < |pages| :: PageContentOf(x, pages[k]))
  }

  /** The keys of an extraction are exactly `0 .. n - 1`, each page's entry is built from that
      page, and it fails exactly when opening the document or reading some page raises, with
      that error's message behind the fixed prefix. */
  lemma ExtractionShape(x: Extractor, doc: Result<seq<PageSource>, string>)
    ensures doc.Err? ==> Extraction(x, doc) == Err(PdfExtractionError(FailurePrefix + doc.error))
    ensures Extraction(x, doc).Ok? <==> doc.Ok? && ReadableUpTo(doc.value, |doc.value|)
    ensures Extraction(x, doc).Ok? ==>
      forall k :: k in Extraction(x, doc).value <==> 0 <= k < |doc.value|
    ensures Extraction(x, doc).Ok? ==> forall k :: 0 <= k < |doc.value| ==>
      Extraction(x, doc).value[k] == PageContentOf(x, doc.value[k])
    ensures Extraction(x, doc).Err? && doc.Ok? ==>
      (exists k :: 0 <= k < |doc.value| && ReadableUpTo(doc.value, k) && doc.value[k].Broken?
                   && Extraction(x, doc).error.message == FailurePrefix + doc.value[k].error)
  {
    if doc.Ok? {
      var b := FirstBroken(doc.value, 0);
      if b.Some? {
        assert ReadableUpTo(doc.value, b.value);
      } else {
        assert ReadableUpTo(doc.value, |doc.value|);
      }
    }
  }

  /** A document of `n` readable pages gives a dictionary of `n` entries. */
  lemma ExtractionCount(x: Extractor, doc: Result<seq<PageSource>, string>)
    requires Extraction(x, doc).Ok?
    ensures |Extraction(x, doc).value| == |doc.value|
  {
    ExtractionShape(x, doc);
    RangeCount(Extraction(x, doc).value.Keys, |doc.value|);
  }

  /** A set of exactly the integers `0 .. n - 1` has `n` elements. */
  lemma {:induction false} RangeCount(s: set<int>, n: nat)
    requires forall k :: k in s <==> 0 <= k < n
    ensures |s| == n
    decreases n
  {
    if n > 0 {
      var t := s - {n - 1};
      RangeCount(t, n - 1);
      assert s == t + {n - 1};
    } else {
      assert s == {} by { forall k | k in s ensures false { } }
    }
  }

  /** `extract_text`: the pages in order, each page's dictionary stored under its position; the
      first failure ends the loop. */
  method ExtractText(x: Extractor, doc: Result<seq<PageSource>, string>)
    returns (r: Result<map<int, PageContent>, PdfExtractionError>)
    ensures r == Extraction(x, doc)
  {
    if doc.Err? {
      return Err(PdfExtractionError(FailurePrefix + doc.error));
    }
    var pages := doc.value;
    var results: map<int, PageContent> := map[];
    var pageNum := 0;
    while pageNum < |pages|
      invariant 0 <= pageNum <= |pages|
      invariant forall k :: 0 <= k < pageNum ==> pages[k].Readable?
      invariant forall k :: k in results <==> 0 <= k < pageNum
      invariant forall k :: 0 <= k < pageNum ==> results[k] == PageContentOf(x, pages[k])
    {
      var page := pages[pageNum];
      if page.Broken? {
        assert FirstBroken(pages, 0) == Some(pageNum);
        return Err(PdfExtractionError(FailurePrefix + page.error));
      }
      var hasImages := |page.images| > 0;
      var content := PageContent(page.text, hasImages, page.geometry, false, None);
      if |Strip(content.text)| < x.minTextLength && content.hasImages {
        content := content.(needsOcr := true);
      }
      if x.extractImages && content.hasImages {
        var images := ExtractPageImages(page.images);
        content := content.(images := Some(images));
      }
      results := results[pageNum := content];
      pageNum := pageNum + 1;
    }
    assert FirstBroken(pages, 0).None?;
    assert results == map k | 0 <= k < |pages| :: PageContentOf(x, pages[k]);
    return Ok(results);
  }
}
