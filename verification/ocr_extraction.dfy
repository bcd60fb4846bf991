/**
 * The OCR service's `EnhancedOCRProcessor`, with tesseract, the layout model and the image
 * crops as parameters: the kept layout boxes, the tesseract word aggregation, the combined
 * confidence, and the sentence de-duplication that merges the two engines' texts.
 */
module OcrExtraction {
  import opened Strings

  // ---------------------------------------------------------------------------------------
  // Averages
  // ---------------------------------------------------------------------------------------

  function Sum(xs: seq<real>): real {
    if xs == [] then 0.0 else Sum(xs[..|xs| - 1]) + xs[|xs| - 1]
  }

  /** Values within `[lo, hi]` add up to between `|xs|·lo` and `|xs|·hi`. */
  lemma {:induction false} SumBounds(xs: seq<real>, lo: real, hi: real)
    requires forall i :: 0 <= i < |xs| ==> lo <= xs[i] <= hi
    ensures |xs| as real * lo <= Sum(xs) <= |xs| as real * hi
  {
    if xs != [] {
      var n := |xs| - 1;
      SumBounds(xs[..n], lo, hi);
    }
  }

  /** A total of `n` values within `[lo, hi]`, divided by `n`, stays within `[lo, hi]`. */
  lemma MeanBounds(total: real, n: real, lo: real, hi: real)
    requires n > 0.0 && n * lo <= total <= n * hi
    ensures lo <= total / n <= hi
  {
    var m := total / n;
    assert m * n == total;
    if m < lo {
      MulStrict(m, lo, n);
    }
    if m > hi {
      MulStrict(hi, m, n);
    }
  }

  lemma MulStrict(a: real, b: real, n: real)
    requires a < b && n > 0.0
    ensures a * n < b * n
  {
  }

  lemma SumCons(x: real, xs: seq<real>)
    ensures Sum([x] + xs) == x + Sum(xs)
    decreases |xs|
  {
    if xs != [] {
      var n := |xs| - 1;
      assert ([x] + xs)[..|xs|] == [x] + xs[..n];
      SumCons(x, xs[..n]);
    } else {
      assert ([x] + xs)[..0] == [];
    }
  }

  // ---------------------------------------------------------------------------------------
  // _run_tesseract
  // ---------------------------------------------------------------------------------------

  /** The entries of `image_to_data`'s word list that are not blank, in order. */
  function NonBlank(words: seq<string>): (kept: seq<string>)
    ensures |kept| <= |words|
    ensures forall k :: 0 <= k < |kept| ==> !IsBlank(kept[k]) && kept[k] in words
    ensures forall w :: w in kept <==> w in words && !IsBlank(w)
    ensures (forall k :: 0 <= k < |words| ==> !IsBlank(words[k])) ==> kept == words
    ensures (forall k :: 0 <= k < |words| ==> IsBlank(words[k])) ==> kept == []
  {
    if words == [] then []
    else
      var front := NonBlank(words[..|words| - 1]);
      var w := words[|words| - 1];
      assert forall k :: 0 <= k < |words| - 1 ==> words[..|words| - 1][k] == words[k];
      assert words[..|words| - 1] + [w] == words;
      if IsBlank(w) then front else front + [w]
  }

  /** `_run_tesseract` after `image_to_data`: the non-blank words joined with single spaces,
      and the mean of the confidence list, or 0.0 for an empty list. */
  function RunTesseract(words: seq<string>, confs: seq<real>): (r: (string, real))
    ensures r.0 == Join(" ", NonBlank(words))
    ensures confs == [] ==> r.1 == 0.0
    ensures confs != [] ==> r.1 * |confs| as real == Sum(confs)
  {
    var text := Join(" ", NonBlank(words));
    var conf := if |confs| > 0 then Sum(confs) / |confs| as real else 0.0;
    (text, conf)
  }

  /** The tesseract confidence lies between the smallest and the largest entry. */
  lemma TesseractConfidenceBounds(words: seq<string>, confs: seq<real>, lo: real, hi: real)
    requires confs != []
    requires forall i :: 0 <= i < |confs| ==> lo <= confs[i] <= hi
    ensures lo <= RunTesseract(words, confs).1 <= hi
  {
    SumBounds(confs, lo, hi);
    MeanBounds(Sum(confs), |confs| as real, lo, hi);
  }

  // ---------------------------------------------------------------------------------------
  // combined_conf
  // ---------------------------------------------------------------------------------------

  /** `combined_conf`: the mean of the tesseract confidence and every layout confidence. */
  function CombinedConf(tesseractConf: real, layoutConfs: seq<real>): (c: real)
    ensures c * (1 + |layoutConfs|) as real == tesseractConf + Sum(layoutConfs)
  {
    (tesseractConf + Sum(layoutConfs)) / (1 + |layoutConfs|) as real
  }

  /** The combined confidence lies between the smallest and the largest confidence it averages,
      and without layout boxes it is the tesseract confidence. */
  lemma CombinedConfBounds(tesseractConf: real, layoutConfs: seq<real>, lo: real, hi: real)
    requires lo <= tesseractConf <= hi
    requires forall i :: 0 <= i < |layoutConfs| ==> lo <= layoutConfs[i] <= hi
    ensures lo <= CombinedConf(tesseractConf, layoutConfs) <= hi
    ensures layoutConfs == [] ==> CombinedConf(tesseractConf, layoutConfs) == tesseractConf
  {
    var all := [tesseractConf] + layoutConfs;
    SumCons(tesseractConf, layoutConfs);
    forall i | 0 <= i < |all| ensures lo <= all[i] <= hi {
      if i > 0 { assert all[i] == layoutConfs[i - 1]; }
    }
    SumBounds(all, lo, hi);
    var n := (1 + |layoutConfs|) as real;
    var total := Sum(all);
    assert CombinedConf(tesseractConf, layoutConfs) == total / n;
    MeanBounds(total, n, lo, hi);
    if layoutConfs == [] {
      assert n == 1.0 && total == tesseractConf;
    }
  }

  // ---------------------------------------------------------------------------------------
  // process_image
  // ---------------------------------------------------------------------------------------

  datatype Box = Box(x1: real, y1: real, x2: real, y2: real)

  /** One entry of `layout_info`. */
  datatype LayoutEntry = LayoutEntry(bbox: Box, confidence: real)

  /** The boxes whose score is above 0.5, in order, among the pairs `zip` forms. */
  function KeptBoxes(boxes: seq<Box>, scores: seq<real>): (kept: seq<LayoutEntry>)
    requires |boxes| == |scores|
    ensures |kept| <= |boxes|
    ensures forall k :: 0 <= k < |kept| ==> kept[k].confidence > 0.5
    ensures (forall i :: 0 <= i < |scores| ==> scores[i] > 0.5) ==>
      |kept| == |boxes| && forall k :: 0 <= k < |kept| ==> kept[k] == LayoutEntry(boxes[k], scores[k])
    ensures (forall i :: 0 <= i < |scores| ==> scores[i] <= 0.5) ==> kept == []
  {
    if boxes == [] then []
    else
      var n := |boxes| - 1;
      var front := KeptBoxes(boxes[..n], scores[..n]);
      assert forall i :: 0 <= i < n ==> scores[..n][i] == scores[i] && boxes[..n][i] == boxes[i];
      if scores[n] > 0.5 then front + [LayoutEntry(boxes[n], scores[n])] else front
  }

  /** Box `i` and its score form an entry of `KeptBoxes`. */
  ghost predicate EntryOf(boxes: seq<Box>, scores: seq<real>, e: LayoutEntry)
    requires |boxes| == |scores|
  {
    exists i :: 0 <= i < |boxes| && e == LayoutEntry(boxes[i], scores[i])
  }

  /** On any mix of scores, every box scoring above 0.5 is kept, with its own score. */
  lemma {:induction false} KeptBoxesComplete(boxes: seq<Box>, scores: seq<real>)
    requires |boxes| == |scores|
    ensures forall i :: 0 <= i < |boxes| && scores[i] > 0.5 ==>
      LayoutEntry(boxes[i], scores[i]) in KeptBoxes(boxes, scores)
  {
    if boxes != [] {
      var n := |boxes| - 1;
      var bs, ss := boxes[..n], scores[..n];
      KeptBoxesComplete(bs, ss);
      var front := KeptBoxes(bs, ss);
      var kept := KeptBoxes(boxes, scores);
      assert kept == if scores[n] > 0.5 then front + [LayoutEntry(boxes[n], scores[n])] else front;
      forall i | 0 <= i < |boxes| && scores[i] > 0.5
        ensures LayoutEntry(boxes[i], scores[i]) in kept
      {
        if i < n {
          assert bs[i] == boxes[i] && ss[i] == scores[i];
          assert LayoutEntry(bs[i], ss[i]) in front;
        }
      }
    }
  }

  /** Every kept entry is one of the (box, score) pairs. */
  lemma {:induction false} KeptBoxesSound(boxes: seq<Box>, scores: seq<real>)
    requires |boxes| == |scores|
    ensures forall e :: e in KeptBoxes(boxes, scores) ==> EntryOf(boxes, scores, e)
  {
    if boxes != [] {
      var n := |boxes| - 1;
      var bs, ss := boxes[..n], scores[..n];
      KeptBoxesSound(bs, ss);
      var front := KeptBoxes(bs, ss);
      var kept := KeptBoxes(boxes, scores);
      assert kept == if scores[n] > 0.5 then front + [LayoutEntry(boxes[n], scores[n])] else front;
      forall e | e in kept ensures EntryOf(boxes, scores, e) {
        if e in front {
          assert EntryOf(bs, ss, e);
          var i :| 0 <= i < n && e == LayoutEntry(bs[i], ss[i]);
          assert bs[i] == boxes[i] && ss[i] == scores[i];
        } else {
          assert e == LayoutEntry(boxes[n], scores[n]);
        }
      }
    }
  }

  /** `process_image` after the layout model ran: walk the (box, score) pairs, and for every
      score above 0.5 read the text of the cropped box and record the box. */
  method ProcessImage(boxes: seq<Box>, scores: seq<real>, readCrop: Box -> string)
    returns (textBoxes: seq<string>, layoutInfo: seq<LayoutEntry>)
    ensures var n := if |boxes| <= |scores| then |boxes| else |scores|;
      layoutInfo == KeptBoxes(boxes[..n], scores[..n])
    ensures |textBoxes| == |layoutInfo|
    ensures forall k :: 0 <= k < |layoutInfo| ==>
      textBoxes[k] == readCrop(layoutInfo[k].bbox) && layoutInfo[k].confidence > 0.5
  {
    var n := if |boxes| <= |scores| then |boxes| else |scores|;
    textBoxes := [];
    layoutInfo := [];
    for i := 0 to n
      invariant layoutInfo == KeptBoxes(boxes[..i], scores[..i])
      invariant |textBoxes| == |layoutInfo|
      invariant forall k :: 0 <= k < |layoutInfo| ==> textBoxes[k] == readCrop(layoutInfo[k].bbox)
    {
      assert boxes[..i + 1][..i] == boxes[..i] && scores[..i + 1][..i] == scores[..i];
      var box, score := boxes[i], scores[i];
      if score > 0.5 {
        textBoxes := textBoxes + [readCrop(box)];
        layoutInfo := layoutInfo + [LayoutEntry(box, score)];
      }
    }
  }

  // ---------------------------------------------------------------------------------------
  // _merge_results
  // ---------------------------------------------------------------------------------------

  /** Every string stripped. */
  function StripEach(ps: seq<string>): (r: seq<string>)
    ensures |r| == |ps|
    ensures forall k :: 0 <= k < |ps| ==> r[k] == Strip(ps[k])
  {
    seq(|ps|, i requires 0 <= i < |ps| => Strip(ps[i]))
  }

  /** The stripped `.`-pieces of `text`, in order. */
  function TextPieces(text: string): seq<string> {
    StripEach(SplitOn(text, '.'))
  }

  /** The stripped `.`-pieces of all the texts, text after text. */
  function AllPieces(texts: seq<string>): seq<string> {
    if texts == [] then [] else AllPieces(texts[..|texts| - 1]) + TextPieces(texts[|texts| - 1])
  }

  /** The distinct non-empty strings among `xs`. */
  function NonEmpty(xs: seq<string>): set<string> {
    set x | x in xs && x != ""
  }

  /** The sentences `_merge_results` gathers: the distinct non-empty stripped `.`-pieces. */
  function TextSentences(texts: seq<string>): set<string> {
    NonEmpty(AllPieces(texts))
  }

  /** A piece is gathered exactly when it is a stripped `.`-piece of one of the texts. */
  lemma {:induction false} AllPiecesMembers(texts: seq<string>, x: string)
    ensures x in AllPieces(texts) <==> exists i :: 0 <= i < |texts| && x in TextPieces(texts[i])
  {
    if texts != [] {
      AllPiecesMembers(texts[..|texts| - 1], x);
      AllPiecesMembersStep(texts, x);
    }
  }

  /** The last text's pieces join those of the texts before it. */
  lemma AllPiecesMembersStep(texts: seq<string>, x: string)
    requires texts != []
    requires var front := texts[..|texts| - 1];
      x in AllPieces(front) <==> exists i :: 0 <= i < |front| && x in TextPieces(front[i])
    ensures x in AllPieces(texts) <==> exists i :: 0 <= i < |texts| && x in TextPieces(texts[i])
  {
    var n := |texts| - 1;
    var front := texts[..n];
    var last := TextPieces(texts[n]);
    assert AllPieces(texts) == AllPieces(front) + last;
    if x in AllPieces(texts) {
      if x in AllPieces(front) {
        var i :| 0 <= i < n && x in TextPieces(front[i]);
        assert front[i] == texts[i];
      } else {
        assert x in last;
      }
    }
    if exists i :: 0 <= i < |texts| && x in TextPieces(texts[i]) {
      var i :| 0 <= i < |texts| && x in TextPieces(texts[i]);
      if i < n {
        assert front[i] == texts[i];
        assert x in AllPieces(front);
      } else {
        assert i == n;
      }
    }
  }



  /** The sentences of `_merge_results` are exactly the non-empty stripped `.`-pieces of its
      inputs. */
  lemma TextSentencesMembers(texts: seq<string>, x: string)
    ensures x in TextSentences(texts) <==>
      (x != "" && exists i, k ::
         (0 <= i < |texts| && 0 <= k < |SplitOn(texts[i], '.')| && Strip(SplitOn(texts[i], '.')[k]) == x))
  {
    AllPiecesMembers(texts, x);
    if x in TextSentences(texts) {
      var i :| 0 <= i < |texts| && x in TextPieces(texts[i]);
      var k :| 0 <= k < |TextPieces(texts[i])| && TextPieces(texts[i])[k] == x;
      assert Strip(SplitOn(texts[i], '.')[k]) == x;
    }
    if x != "" && exists i, k ::
         (0 <= i < |texts| && 0 <= k < |SplitOn(texts[i], '.')| && Strip(SplitOn(texts[i], '.')[k]) == x) {
      var i, k :| 0 <= i < |texts| && 0 <= k < |SplitOn(texts[i], '.')| &&
                  Strip(SplitOn(texts[i], '.')[k]) == x;
      assert TextPieces(texts[i])[k] == x;
    }
  }

  /** A sentence is non-empty, has no whitespace at either end, and has no `.`. */
  ghost predicate CleanSentence(x: string) {
    x != "" && Trimmed(x) && '.' !in x
  }

  /** A stripped piece has no whitespace at either end and no `.`. */
  lemma {:induction false} AllPiecesClean(texts: seq<string>)
    ensures forall y :: y in AllPieces(texts) ==> Trimmed(y) && '.' !in y
  {
    if texts != [] {
      var n := |texts| - 1;
      AllPiecesClean(texts[..n]);
      var ps := SplitOn(texts[n], '.');
      forall k | 0 <= k < |ps| ensures '.' !in Strip(ps[k]) {
        StripInfix(ps[k]);
        var j :| InfixAt(Strip(ps[k]), ps[k], j);
      }
    }
  }

  lemma TextSentencesClean(texts: seq<string>, x: string)
    requires x in TextSentences(texts)
    ensures CleanSentence(x)
  {
    AllPiecesClean(texts);
  }

  ghost predicate NoRepeats(xs: seq<string>) {
    forall i, j :: 0 <= i < j < |xs| ==> xs[i] != xs[j]
  }

  /** `_merge_results`: gather the distinct non-empty stripped `.`-pieces of the tesseract text
      and of every box text, then join them with `". "` in the set's iteration order, which
      `order` records. */
  method MergeResults(tesseractText: string, layoutBoxes: seq<string>)
    returns (merged: string, ghost order: seq<string>)
    ensures (set x | x in order) == TextSentences([tesseractText] + layoutBoxes)
    ensures NoRepeats(order)
    ensures merged == Join(". ", order)
  {
    var allText := [tesseractText] + layoutBoxes;
    var unique: set<string> := {};
    for t := 0 to |allText|
      invariant unique == NonEmpty(AllPieces(allText[..t]))
    {
      assert allText[..t + 1][..t] == allText[..t];
      unique := AddSentences(unique, AllPieces(allText[..t]), allText[t]);
    }
    assert allText[..|allText|] == allText;
    var parts := Enumerate(unique);
    merged := Join(". ", parts);
    order := parts;
  }

  /** The inner loop of `_merge_results`: every non-empty stripped `.`-piece of `text` is
      added to the set. */
  method AddSentences(unique: set<string>, ghost seen: seq<string>, text: string)
    returns (r: set<string>)
    requires unique == NonEmpty(seen)
    ensures r == NonEmpty(seen + TextPieces(text))
  {
    r := unique;
    var pieces := SplitOn(text, '.');
    for j := 0 to |pieces|
      invariant r == NonEmpty(seen + StripEach(pieces[..j]))
    {
      assert StripEach(pieces[..j + 1]) == StripEach(pieces[..j]) + [Strip(pieces[j])];
      var sentence := Strip(pieces[j]);
      if sentence != "" {
        r := r + {sentence};
      }
    }
    assert pieces[..|pieces|] == pieces;
  }

  /** Iterating over a set: each element once, in an order the model leaves open. */
  method Enumerate(unique: set<string>) returns (parts: seq<string>)
    ensures (set x | x in parts) == unique
    ensures NoRepeats(parts)
  {
    var rest := unique;
    parts := [];
    while rest != {}
      invariant rest + (set x | x in parts) == unique
      invariant forall x :: x in parts ==> x !in rest
      invariant NoRepeats(parts)
      decreases |rest|
    {
      if forall z :: z !in rest { assert false; }
      var s :| s in rest;
      parts := parts + [s];
      rest := rest - {s};
    }
  }

  /** The pieces `_merge_results` joins, each but the first with the space of `". "` in front. */
  function Spaced(xs: seq<string>): seq<string>
    requires xs != []
  {
    [xs[0]] + seq(|xs| - 1, i requires 0 <= i < |xs| - 1 => " " + xs[i + 1])
  }

  lemma {:induction false} JoinSpaced(xs: seq<string>)
    requires xs != []
    ensures Join(". ", xs) == Join(".", Spaced(xs))
    decreases |xs|
  {
    if |xs| > 1 {
      var rest := xs[1..];
      JoinSpaced(rest);
      JoinCons(". ", xs[0], rest);
      assert Spaced(xs) == [xs[0]] + ([" " + rest[0]] + Spaced(rest)[1..]);
      JoinCons(".", xs[0], [" " + rest[0]] + Spaced(rest)[1..]);
      if |rest| > 1 {
        JoinCons(".", " " + rest[0], Spaced(rest)[1..]);
        JoinCons(".", rest[0], Spaced(rest)[1..]);
        assert Spaced(rest) == [rest[0]] + Spaced(rest)[1..];
      }
    }
  }

  /** Cutting the merged text at `.` and stripping each piece gives back the sentences, each
      once; with no sentences the merged text is empty. */
  lemma MergedPieces(order: seq<string>)
    requires forall k :: 0 <= k < |order| ==> CleanSentence(order[k])
    ensures order == [] ==> Join(". ", order) == ""
    ensures order != [] ==> StripEach(SplitOn(Join(". ", order), '.')) == order
  {
    if order != [] {
      JoinSpaced(order);
      SpacedClean(order);
      SplitOnJoin(Spaced(order), '.');
    }
  }

  /** The spaced pieces hold no `.`, and stripping them gives the sentences back. */
  lemma SpacedClean(order: seq<string>)
    requires order != []
    requires forall k :: 0 <= k < |order| ==> CleanSentence(order[k])
    ensures forall k :: 0 <= k < |Spaced(order)| ==> '.' !in Spaced(order)[k]
    ensures StripEach(Spaced(order)) == order
  {
    var sp := Spaced(order);
    forall k | 0 <= k < |sp| ensures '.' !in sp[k] {
      if k > 0 {
        assert sp[k] == " " + order[k];
        assert '.' !in order[k];
      }
    }
    forall k | 0 <= k < |order| ensures Strip(sp[k]) == order[k] {
      StripTrimmed(order[k]);
      if k > 0 {
        assert sp[k] == [' '] + order[k];
        StripLeadingSpace(' ', order[k]);
      }
    }
  }


  /** What `_merge_results` promises: cutting its output at `.` and stripping the pieces gives
      the distinct sentences of its inputs, each once, in some order; without any sentence the
      output is empty. */
  lemma MergeResultsSentences(tesseractText: string, layoutBoxes: seq<string>,
                              merged: string, order: seq<string>)
    requires (set x | x in order) == TextSentences([tesseractText] + layoutBoxes)
    requires merged == Join(". ", order)
    ensures TextSentences([tesseractText] + layoutBoxes) == {} ==> merged == ""
    ensures order != [] ==> StripEach(SplitOn(merged, '.')) == order
  {
    forall k | 0 <= k < |order| ensures CleanSentence(order[k]) {
      assert order[k] in (set x | x in order);
      TextSentencesClean([tesseractText] + layoutBoxes, order[k]);
    }
    MergedPieces(order);
    if order != [] {
      var sentences := TextSentences([tesseractText] + layoutBoxes);
      assert order[0] in (set x | x in order);
      assert order[0] in sentences;
    }
  }
}
