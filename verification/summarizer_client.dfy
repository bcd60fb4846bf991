/**
 * The backend's summarization client, without its HTTP side: the request record with its field
 * constraints and text validator, and `_chunk_text`, which cuts a text into sentences and packs
 * consecutive sentences greedily into chunks of at most `chunk_size` words.
 */
module SummarizerClient {
  import opened Wrappers
  import opened Strings
  import opened Fields

  // ---------------------------------------------------------------------------------------
  // Sentences
  // ---------------------------------------------------------------------------------------

  /** Position `i` of `s` holds a space that follows sentence punctuation. */
  predicate BreakAt(s: string, i: int) {
    0 < i < |s| && s[i] == ' ' && SentenceEnd(s[i - 1])
  }

  /** `s.replace(p + ' ', p + '|')`. Python scans left to right; as `p` is not a space, two
      occurrences never overlap, so every space right after a `p` is replaced. */
  function MarkAfter(s: string, p: char): (r: string)
    requires p != ' '
    ensures |r| == |s|
    ensures forall i :: 0 <= i < |s| ==>
      r[i] == if 0 < i && s[i - 1] == p && s[i] == ' ' then '|' else s[i]
    decreases |s|
  {
    if s == [] then []
    else if |s| >= 2 && s[0] == p && s[1] == ' ' then
      var t := MarkAfter(s[2..], p);
      assert forall i :: 2 <= i < |s| ==>
        t[i - 2] == (if 0 < i && s[i - 1] == p && s[i] == ' ' then '|' else s[i]) by {
        forall i | 2 <= i < |s|
          ensures t[i - 2] == if 0 < i && s[i - 1] == p && s[i] == ' ' then '|' else s[i]
        {
          assert s[2..][i - 2] == s[i];
          if i > 2 { assert s[2..][i - 3] == s[i - 1]; }
        }
      }
      var r := [p, '|'] + t;
      assert forall i :: 2 <= i < |s| ==> r[i] == t[i - 2];
      r
    else
      var t := MarkAfter(s[1..], p);
      assert forall i :: 1 <= i < |s| ==>
        t[i - 1] == (if 0 < i && s[i - 1] == p && s[i] == ' ' then '|' else s[i]) by {
        forall i | 1 <= i < |s|
          ensures t[i - 1] == if 0 < i && s[i - 1] == p && s[i] == ' ' then '|' else s[i]
        {
          assert s[1..][i - 1] == s[i];
          if i > 1 { assert s[1..][i - 2] == s[i - 1]; }
        }
      }
      var r := [s[0]] + t;
      assert forall i :: 1 <= i < |s| ==> r[i] == t[i - 1];
      r
  }

  /** The three `replace` calls of `_chunk_text`: every space right after `!`, `?` or `.`
      becomes the separator `|`, and every other character stays as it is. */
  function Mark(text: string): (r: string)
    ensures |r| == |text|
    ensures forall i :: 0 <= i < |text| ==> r[i] == if BreakAt(text, i) then '|' else text[i]
  {
    var a := MarkAfter(text, '!');
    var b := MarkAfter(a, '?');
    var c := MarkAfter(b, '.');
    assert forall i :: 0 <= i < |text| ==> c[i] == if BreakAt(text, i) then '|' else text[i] by {
      forall i | 0 <= i < |text|
        ensures c[i] == if BreakAt(text, i) then '|' else text[i]
      {
        if 0 < i {
          assert a[i - 1] == if 0 < i - 1 && text[i - 2] == '!' && text[i - 1] == ' ' then '|' else text[i - 1];
          assert b[i - 1] == if 0 < i - 1 && a[i - 2] == '?' && a[i - 1] == ' ' then '|' else a[i - 1];
        }
      }
    }
    c
  }

  /** The sentences of `_chunk_text`: the marked text cut at every `|`. Joined back with `|`
      they give the marked text, and none of them contains a `|`, so the cuts fall exactly
      at the marked spaces and at the `|` characters of the text itself. */
  function Sentences(text: string): (ss: seq<string>)
    ensures |ss| >= 1
    ensures Join("|", ss) == Mark(text)
    ensures forall k :: 0 <= k < |ss| ==> '|' !in ss[k]
  {
    JoinSplitOn(Mark(text), '|');
    SplitOn(Mark(text), '|')
  }

  /** Without a `|` in the text, joining the sentences with spaces gives the text back: each
      cut removed exactly one space. */
  lemma SentencesRejoin(text: string)
    requires '|' !in text
    ensures Join(" ", Sentences(text)) == text
  {
    var m := Mark(text);
    JoinSplitOnWith(m, '|', ' ');
    forall i | 0 <= i < |text| ensures ReplaceChar(m, '|', ' ')[i] == text[i] {
      assert text[i] != '|' by { assert text[i] in text; }
    }
  }

  // ---------------------------------------------------------------------------------------
  // Greedy chunking
  // ---------------------------------------------------------------------------------------

  /** The sentence groups `_chunk_text` closes while reading `sentences`, given the sentences
      `current` gathered so far and their word count `size`. A group is closed when it is
      non-empty and the next sentence would take it above `chunkSize` words; the next group
      then starts with that sentence. */
  function SentenceGroups(sentences: seq<string>, current: seq<string>, size: int, chunkSize: int)
    : seq<seq<string>>
    decreases |sentences|
  {
    if sentences == [] then (if current == [] then [] else [current])
    else
      var s := sentences[0];
      var n := |Words(s)|;
      if size + n > chunkSize && current != [] then
        [current] + SentenceGroups(sentences[1..], [s], n, chunkSize)
      else
        SentenceGroups(sentences[1..], current + [s], size + n, chunkSize)
  }

  /** The groups of sentences behind the chunks of `text`. */
  function ChunkGroups(text: string, chunkSize: int): seq<seq<string>> {
    SentenceGroups(Sentences(text), [], 0, chunkSize)
  }

  /** Every group joined with single spaces. */
  function JoinEach(gs: seq<seq<string>>): seq<string> {
    seq(|gs|, i requires 0 <= i < |gs| => Join(" ", gs[i]))
  }

  /** What `_chunk_text(text, chunkSize)` returns. */
  function Chunks(text: string, chunkSize: int): seq<string> {
    JoinEach(ChunkGroups(text, chunkSize))
  }

  /** The groups one after the other. */
  function Concat(gs: seq<seq<string>>): seq<string> {
    if gs == [] then [] else gs[0] + Concat(gs[1..])
  }

  /** Group `i` was opened because its first sentence did not fit in group `i - 1`. */
  ghost predicate ClosedAt(gs: seq<seq<string>>, i: int, chunkSize: int) {
    0 < i < |gs| && gs[i] != [] && WordTotal(gs[i - 1]) + |Words(gs[i][0])| > chunkSize
  }

  lemma SentenceGroupsClose(s: string, rest: seq<string>, current: seq<string>, size: int,
                            chunkSize: int)
    requires size + |Words(s)| > chunkSize && current != []
    ensures SentenceGroups([s] + rest, current, size, chunkSize)
         == [current] + SentenceGroups(rest, [s], |Words(s)|, chunkSize)
  {
    assert ([s] + rest)[1..] == rest;
  }

  lemma SentenceGroupsJoin(s: string, rest: seq<string>, current: seq<string>, size: int,
                           chunkSize: int)
    requires !(size + |Words(s)| > chunkSize && current != [])
    ensures SentenceGroups([s] + rest, current, size, chunkSize)
         == SentenceGroups(rest, current + [s], size + |Words(s)|, chunkSize)
  {
    assert ([s] + rest)[1..] == rest;
  }

  /** No group is empty, a group above `chunkSize` words has a single sentence, and each group
      after the first was opened only because its first sentence did not fit in the one
      before. */
  ghost predicate Grouped(gs: seq<seq<string>>, chunkSize: int) {
    && (forall i :: 0 <= i < |gs| ==> gs[i] != [])
    && (forall i :: 0 <= i < |gs| ==> WordTotal(gs[i]) > chunkSize ==> |gs[i]| == 1)
    && (forall i :: 0 < i < |gs| ==> ClosedAt(gs, i, chunkSize))
  }

  /** The groups hold the sentences in order, each exactly once, and are grouped as above; the
      open group is the start of the first one. */
  lemma {:induction false} SentenceGroupsShape(
    sentences: seq<string>, current: seq<string>, size: int, chunkSize: int)
    requires size == WordTotal(current)
    requires |current| <= 1 || WordTotal(current) <= chunkSize
    ensures Concat(SentenceGroups(sentences, current, size, chunkSize)) == current + sentences
    ensures Grouped(SentenceGroups(sentences, current, size, chunkSize), chunkSize)
    ensures current != [] ==>
      (SentenceGroups(sentences, current, size, chunkSize) != [] &&
       SentenceGroups(sentences, current, size, chunkSize)[0][0] == current[0])
    decreases |sentences|
  {
    if sentences == [] {
      if current != [] {
        assert Concat([current]) == current + Concat([]);
      }
    } else {
      var s, rest := sentences[0], sentences[1..];
      var n := |Words(s)|;
      assert sentences == [s] + rest;
      if size + n > chunkSize && current != [] {
        SentenceGroupsClose(s, rest, current, size, chunkSize);
        WordTotalOne(s);
        SentenceGroupsShape(rest, [s], n, chunkSize);
        GroupsClose(current, s, rest, SentenceGroups(rest, [s], n, chunkSize), chunkSize);
      } else {
        SentenceGroupsJoin(s, rest, current, size, chunkSize);
        WordTotalSnoc(current, s);
        SentenceGroupsShape(rest, current + [s], size + n, chunkSize);
        AppendAssoc(current, [s], rest);
      }
    }
  }

  lemma WordTotalOne(s: string)
    ensures WordTotal([s]) == |Words(s)|
  {
    WordTotalSnoc([], s);
    assert [] + [s] == [s];
  }

  lemma AppendAssoc<T>(a: seq<T>, b: seq<T>, c: seq<T>)
    ensures a + b + c == a + (b + c)
  {
  }

  /** Closing the open group in front of the groups of the remaining sentences. */
  lemma GroupsClose(current: seq<string>, s: string, rest: seq<string>, tail: seq<seq<string>>,
                    chunkSize: int)
    requires current != [] && WordTotal(current) + |Words(s)| > chunkSize
    requires |current| <= 1 || WordTotal(current) <= chunkSize
    requires Concat(tail) == [s] + rest && Grouped(tail, chunkSize)
    requires tail != [] && tail[0][0] == s
    ensures Concat([current] + tail) == current + ([s] + rest)
    ensures Grouped([current] + tail, chunkSize)
  {
    var gs := [current] + tail;
    assert gs[1..] == tail;
    forall i | 0 < i < |gs| ensures ClosedAt(gs, i, chunkSize) {
      if i > 1 {
        assert ClosedAt(tail, i - 1, chunkSize);
      }
    }
  }

  lemma ChunksCoverSentences(text: string, chunkSize: int)
    ensures |Chunks(text, chunkSize)| == |ChunkGroups(text, chunkSize)| >= 1
    ensures forall i :: 0 <= i < |ChunkGroups(text, chunkSize)| ==>
      ChunkGroups(text, chunkSize)[i] != [] &&
      Chunks(text, chunkSize)[i] == Join(" ", ChunkGroups(text, chunkSize)[i])
    ensures Concat(ChunkGroups(text, chunkSize)) == Sentences(text)
  {
    var gs := ChunkGroups(text, chunkSize);
    SentenceGroupsShape(Sentences(text), [], 0, chunkSize);
    assert [] + Sentences(text) == Sentences(text);
  }

  /** A chunk has more than `chunkSize` words only when it is a single sentence. */
  lemma OversizedChunk(text: string, chunkSize: int, i: int)
    requires 0 <= i < |Chunks(text, chunkSize)|
    ensures |Words(Chunks(text, chunkSize)[i])| == WordTotal(ChunkGroups(text, chunkSize)[i])
    ensures |Words(Chunks(text, chunkSize)[i])| > chunkSize ==>
      |ChunkGroups(text, chunkSize)[i]| == 1
  {
    SentenceGroupsShape(Sentences(text), [], 0, chunkSize);
    WordsOfJoinCount(ChunkGroups(text, chunkSize)[i]);
  }

  /** Greedy packing: every chunk after the first was started only because its first sentence
      would have taken the chunk before it above `chunkSize` words. */
  lemma ChunksGreedy(text: string, chunkSize: int)
    ensures forall i :: 0 < i < |ChunkGroups(text, chunkSize)| ==>
      ClosedAt(ChunkGroups(text, chunkSize), i, chunkSize)
    ensures forall i :: 0 < i < |ChunkGroups(text, chunkSize)| ==>
      ChunkGroups(text, chunkSize)[i] != [] &&
      |Words(Chunks(text, chunkSize)[i - 1])| + |Words(ChunkGroups(text, chunkSize)[i][0])|
        > chunkSize
  {
    var gs := ChunkGroups(text, chunkSize);
    SentenceGroupsShape(Sentences(text), [], 0, chunkSize);
    forall i | 0 < i < |gs|
      ensures gs[i] != [] && |Words(Chunks(text, chunkSize)[i - 1])| + |Words(gs[i][0])| > chunkSize
    {
      assert ClosedAt(gs, i, chunkSize);
      WordsOfJoinCount(gs[i - 1]);
    }
  }

  /** Joining non-empty groups one by one and then the results is joining their concatenation. */
  lemma {:induction false} JoinEachConcat(gs: seq<seq<string>>)
    requires gs != []
    requires forall i :: 0 <= i < |gs| ==> gs[i] != []
    ensures Join(" ", JoinEach(gs)) == Join(" ", Concat(gs))
    decreases |gs|
  {
    var rest := gs[1..];
    if rest == [] {
      assert JoinEach(gs) == [Join(" ", gs[0])];
      assert Concat(gs) == gs[0] + Concat(rest);
      assert gs[0] + [] == gs[0];
    } else {
      JoinEachConcat(rest);
      assert JoinEach(gs) == [Join(" ", gs[0])] + JoinEach(rest);
      JoinCons(" ", Join(" ", gs[0]), JoinEach(rest));
      assert Concat(rest) == rest[0] + Concat(rest[1..]);
      JoinAppend(" ", gs[0], Concat(rest));
    }
  }

  /** Without a `|` in the text, the chunks joined with spaces give the text back. */
  lemma ChunksRejoin(text: string, chunkSize: int)
    requires '|' !in text
    ensures Join(" ", Chunks(text, chunkSize)) == text
  {
    ChunksCoverSentences(text, chunkSize);
    JoinEachConcat(ChunkGroups(text, chunkSize));
    SentencesRejoin(text);
  }

  /** The `chunk_size` of `_chunk_text` when the caller gives none. */
  const DefaultChunkSize: int := 1024

  /** `_chunk_text`: reads the sentences once, closing the open chunk when the next sentence
      would take it above `chunkSize` words (`DefaultChunkSize` unless given), and closes the
      last open chunk at the end. */
  method ChunkText(text: string, chunkSize: int) returns (chunks: seq<string>)
    ensures chunks == Chunks(text, chunkSize)
  {
    var sentences := Sentences(text);
    chunks := [];
    var current: seq<string> := [];
    var size := 0;
    ghost var closed: seq<seq<string>> := [];
    assert sentences[0..] == sentences;
    ghost var target := SentenceGroups(sentences[0..], current, size, chunkSize);
    assert closed + target == target;
    for i := 0 to |sentences|
      invariant chunks == JoinEach(closed)
      invariant closed + SentenceGroups(sentences[i..], current, size, chunkSize) == target
    {
      var sentence := sentences[i];
      var sentenceSize := |Words(sentence)|;
      ChunkTextStep(sentences, i, current, size, chunkSize);
      if size + sentenceSize > chunkSize && current != [] {
        ghost var rest := SentenceGroups(sentences[i + 1..], [sentence], sentenceSize, chunkSize);
        assert closed + ([current] + rest) == (closed + [current]) + rest;
        JoinEachSnoc(closed, current);
        chunks := chunks + [Join(" ", current)];
        closed := closed + [current];
        current := [sentence];
        size := sentenceSize;
      } else {
        current := current + [sentence];
        size := size + sentenceSize;
      }
    }
    assert sentences[|sentences|..] == [];
    if current != [] {
      assert target == closed + [current];
      JoinEachSnoc(closed, current);
      chunks := chunks + [Join(" ", current)];
      closed := closed + [current];
    } else {
      assert target == closed + [];
      assert closed + [] == closed;
    }
    assert target == ChunkGroups(text, chunkSize);
  }

  /** Joining one more group adds its joined text at the end. */
  lemma JoinEachSnoc(gs: seq<seq<string>>, g: seq<string>)
    ensures JoinEach(gs + [g]) == JoinEach(gs) + [Join(" ", g)]
  {
    var a, b := JoinEach(gs + [g]), JoinEach(gs) + [Join(" ", g)];
    assert |a| == |b|;
    forall k | 0 <= k < |a| ensures a[k] == b[k] {
      if k < |gs| {
        assert (gs + [g])[k] == gs[k];
      }
    }
  }

  /** One sentence read by `ChunkText`: either the open chunk is closed and a new one starts
      with the sentence, or the sentence joins the open chunk. */
  lemma ChunkTextStep(sentences: seq<string>, i: int, current: seq<string>, size: int,
                      chunkSize: int)
    requires 0 <= i < |sentences|
    ensures var n := |Words(sentences[i])|;
      size + n > chunkSize && current != [] ==>
        SentenceGroups(sentences[i..], current, size, chunkSize)
        == [current] + SentenceGroups(sentences[i + 1..], [sentences[i]], n, chunkSize)
    ensures var n := |Words(sentences[i])|;
      !(size + n > chunkSize && current != []) ==>
        SentenceGroups(sentences[i..], current, size, chunkSize)
        == SentenceGroups(sentences[i + 1..], current + [sentences[i]], size + n, chunkSize)
  {
    var s, n := sentences[i], |Words(sentences[i])|;
    assert sentences[i..] == [s] + sentences[i + 1..];
    if size + n > chunkSize && current != [] {
      SentenceGroupsClose(s, sentences[i + 1..], current, size, chunkSize);
    } else {
      SentenceGroupsJoin(s, sentences[i + 1..], current, size, chunkSize);
    }
  }

  // ---------------------------------------------------------------------------------------
  // SummarizationRequest
  // ---------------------------------------------------------------------------------------

  datatype RequestInput = RequestInput(
    text: string,
    maxLength: Supplied<int>,
    minLength: Supplied<int>,
    doSample: Supplied<bool>,
    modelName: Supplied<string>,
    numBeams: Supplied<int>,
    lengthPenalty: Supplied<real>)

  datatype SummarizationRequest = SummarizationRequest(
    text: string,
    maxLength: Option<int>,
    minLength: Option<int>,
    doSample: Option<bool>,
    modelName: Option<string>,
    numBeams: Option<int>,
    lengthPenalty: Option<real>)

  const DefaultModel: string := "facebook/bart-large-cnn"

  /** The names of the fields that fail validation, in declaration order. */
  function RequestErrors(input: RequestInput): seq<string> {
    (if IsBlank(input.text) then ["text"] else [])
    + (if IntWithin(Resolve(input.maxLength, 130), 1, Some(1000)) then [] else ["max_length"])
    + (if IntWithin(Resolve(input.minLength, 30), 1, None) then [] else ["min_length"])
    + (if IntWithin(Resolve(input.numBeams, 4), 1, Some(8)) then [] else ["num_beams"])
    + (if RealWithin(Resolve(input.lengthPenalty, 2.0), 0.0, 5.0) then [] else ["length_penalty"])
  }

  /** Building a `SummarizationRequest`: defaults fill the omitted fields, the bounds are checked,
      and the text is stored stripped; every failing field is reported. */
  function ValidateRequest(input: RequestInput): (r: Result<SummarizationRequest, seq<string>>)
    ensures r.Ok? <==>
      (&& !IsBlank(input.text)
       && IntWithin(Resolve(input.maxLength, 130), 1, Some(1000))
       && IntWithin(Resolve(input.minLength, 30), 1, None)
       && IntWithin(Resolve(input.numBeams, 4), 1, Some(8))
       && RealWithin(Resolve(input.lengthPenalty, 2.0), 0.0, 5.0))
    ensures r.Ok? ==> r.value.text == Strip(input.text) && r.value.text != "" && Trimmed(r.value.text)
    ensures r.Ok? ==>
      (&& r.value.maxLength == Resolve(input.maxLength, 130)
       && r.value.minLength == Resolve(input.minLength, 30)
       && r.value.doSample == Resolve(input.doSample, false)
       && r.value.modelName == Resolve(input.modelName, DefaultModel)
       && r.value.numBeams == Resolve(input.numBeams, 4)
       && r.value.lengthPenalty == Resolve(input.lengthPenalty, 2.0))
    ensures r.Err? ==> r.error != [] && ("text" in r.error <==> IsBlank(input.text))
  {
    var errors := RequestErrors(input);
    if errors != [] then Err(errors)
    else
      StripBlank(input.text);
      Ok(SummarizationRequest(
        Strip(input.text),
        Resolve(input.maxLength, 130),
        Resolve(input.minLength, 30),
        Resolve(input.doSample, false),
        Resolve(input.modelName, DefaultModel),
        Resolve(input.numBeams, 4),
        Resolve(input.lengthPenalty, 2.0)))
  }

  /** An accepted request keeps every number within its declared bounds. */
  lemma AcceptedRequestBounds(input: RequestInput)
    requires ValidateRequest(input).Ok?
    ensures var q := ValidateRequest(input).value;
      && (q.maxLength.Some? ==> 1 <= q.maxLength.value <= 1000)
      && (q.minLength.Some? ==> 1 <= q.minLength.value)
      && (q.numBeams.Some? ==> 1 <= q.numBeams.value <= 8)
      && (q.lengthPenalty.Some? ==> 0.0 <= q.lengthPenalty.value <= 5.0)
  {
  }
}
